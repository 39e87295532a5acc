/**
 * The tabular renderers of main.go, `PrintCsv` and `PrintTsv`: a line with
 * the struct's name, a header, then one line of four cells per field.
 */
module Tabular {
  import opened Text
  import opened Wrappers
  import opened Escape
  import opened Structs

  /** The four cells written for a field, before escaping. */
  function FieldCells(f: FieldInfo): seq<string>
  {
    [f.name, f.typ, f.tag, f.comment]
  }

  /** The cells of each field, in order. */
  function Records(fs: seq<FieldInfo>): (r: seq<seq<string>>)
    ensures |r| == |fs|
  {
    if fs == [] then [] else [FieldCells(fs[0])] + Records(fs[1..])
  }

  // ---------------------------------------------------------------------
  // CSV
  // ---------------------------------------------------------------------

  /** The header line of `PrintCsv`, line break included. */
  const CsvHeader: string := "Name,Type,Tag,Comment\n"

  /** The CSV line of a field, without its line break. */
  function CsvRow(f: FieldInfo): string
  {
    EscapeCsv(f.name) + "," + EscapeCsv(f.typ) + "," + EscapeCsv(f.tag) + "," + EscapeCsv(f.comment)
  }

  /** The CSV lines of the fields, in order. */
  function CsvRows(fs: seq<FieldInfo>): (r: seq<string>)
    ensures |r| == |fs|
  {
    if fs == [] then [] else [CsvRow(fs[0])] + CsvRows(fs[1..])
  }

  /** What `PrintCsv` returns. */
  function CsvText(info: StructInfo): string
  {
    EscapeCsv(info.name) + "\n" + CsvHeader + Lines(CsvRows(info.fields))
  }

  /** Adding a field adds its line at the end. */
  lemma {:induction false} CsvRowsSnoc(fs: seq<FieldInfo>, f: FieldInfo)
    ensures CsvRows(fs + [f]) == CsvRows(fs) + [CsvRow(f)]
  {
    if fs != [] {
      assert (fs + [f])[1..] == fs[1..] + [f];
      CsvRowsSnoc(fs[1..], f);
    } else {
      assert ([] + [f])[1..] == [];
    }
  }

  /**
   * `PrintCsv`: the escaped name, the header, then for each field its four
   * escaped cells separated by commas.
   */
  method PrintCsv(info: StructInfo) returns (csv: string)
    ensures csv == CsvText(info)
  {
    csv := EscapeCsv(info.name) + "\n";
    csv := csv + "Name,Type,Tag,Comment\n";
    csv := AppendCsvRows(csv, info.fields);
  }
  /** One more field of `fs` adds its line at the end. */
  lemma CsvRowsPrefix(fs: seq<FieldInfo>, i: int)
    requires 0 <= i < |fs|
    ensures CsvRows(fs[..i + 1]) == CsvRows(fs[..i]) + [CsvRow(fs[i])]
  {
    assert fs[..i + 1] == fs[..i] + [fs[i]];
    CsvRowsSnoc(fs[..i], fs[i]);
  }


  /** The field loop of `PrintCsv`, appending each field's line to `csv`. */
  method AppendCsvRows(start: string, fields: seq<FieldInfo>) returns (csv: string)
    ensures csv == start + Lines(CsvRows(fields))
  {
    csv := start;
    for i := 0 to |fields|
      invariant csv == start + Lines(CsvRows(fields[..i]))
    {
      var field := fields[i];
      CsvRowsPrefix(fields, i);
      LinesAppend(CsvRows(fields[..i]), [CsvRow(field)]);
      LinesOne(CsvRow(field));
      var row := CsvRow(field) + "\n";
      AppendAssoc(start, Lines(CsvRows(fields[..i])), row);
      csv := csv + row;
    }
    assert fields[..|fields|] == fields;
  }

  /** Consumes the character `c` at the start of `t`. */
  function Expect(t: string, c: char): (r: Option<string>)
    ensures r.Some? ==> |r.value| < |t|
  {
    if |t| > 0 && t[0] == c then Some(t[1..]) else None
  }

  /** Reads one quoted CSV cell and the separator `sep` after it. */
  function ReadCellThen(t: string, sep: char): (r: Option<(string, string)>)
    ensures r.Some? ==> |r.value.1| < |t|
  {
    var cell :- ReadCsvCell(t);
    var rest :- Expect(cell.1, sep);
    Some((cell.0, rest))
  }

  /** Reads one CSV record of four quoted cells ended by a line break. */
  function ReadRecord(t: string): (r: Option<(seq<string>, string)>)
    ensures r.Some? ==> |r.value.1| < |t|
  {
    var a :- ReadCellThen(t, ',');
    var b :- ReadCellThen(a.1, ',');
    var c :- ReadCellThen(b.1, ',');
    var d :- ReadCellThen(c.1, '\n');
    Some(([a.0, b.0, c.0, d.0], d.1))
  }

  /** Reads records up to the end of `t`. */
  function ReadRecords(t: string): Option<seq<seq<string>>>
    decreases |t|
  {
    if t == [] then Some([])
    else
      var p :- ReadRecord(t);
      var rest :- ReadRecords(p.1);
      Some([p.0] + rest)
  }

  /** Reads a whole `PrintCsv` text: the struct's name, the header, the records. */
  function ParseCsv(t: string): Option<(string, seq<seq<string>>)>
  {
    var p :- ReadCsvCell(t);
    var body :- Expect(p.1, '\n');
    var rest :- ExpectText(body, CsvHeader);
    var records :- ReadRecords(rest);
    Some((p.0, records))
  }

  /** Consumes the text `s` at the start of `t`. */
  function ExpectText(t: string, s: string): (r: Option<string>)
    ensures r.Some? ==> |s| <= |t| && t[..|s|] == s && r.value == t[|s|..]
  {
    if |s| <= |t| && t[..|s|] == s then Some(t[|s|..]) else None
  }

  /** A text followed by anything is consumed, leaving what follows. */
  lemma ExpectTextBack(s: string, rest: string)
    ensures ExpectText(s + rest, s) == Some(rest)
  {
    assert (s + rest)[..|s|] == s && (s + rest)[|s|..] == rest;
  }

  /** An escaped cell and a separator other than a quote read back. */
  lemma ReadCellBack(s: string, sep: char, rest: string)
    requires sep != '"'
    ensures ReadCellThen(EscapeCsv(s) + [sep] + rest, sep) == Some((s, rest))
  {
    EscapeCsvReadBack(s, [sep] + rest);
    assert EscapeCsv(s) + [sep] + rest == EscapeCsv(s) + ([sep] + rest);
    assert ([sep] + rest)[1..] == rest;
  }

  /** A field's line, as cells and separators. */
  lemma CsvRowPieces(f: FieldInfo, rest: string)
    ensures CsvRow(f) + "\n" + rest
         == EscapeCsv(f.name) + [','] + (EscapeCsv(f.typ) + [','] + (EscapeCsv(f.tag) + [','] + (EscapeCsv(f.comment) + ['\n'] + rest)))
  {
    var a, b, c, d := EscapeCsv(f.name), EscapeCsv(f.typ), EscapeCsv(f.tag), EscapeCsv(f.comment);
    PiecesOfFour(a, b, c, d, ',', '\n', rest);
  }

  /** Regrouping four cells, three separators, an end mark and a rest. */
  lemma PiecesOfFour(a: string, b: string, c: string, d: string, sep: char, end: char, rest: string)
    ensures a + [sep] + b + [sep] + c + [sep] + d + [end] + rest
         == a + [sep] + (b + [sep] + (c + [sep] + (d + [end] + rest)))
  {
  }

  /** A field's line reads back as its four cells. */
  lemma ReadCsvRow(f: FieldInfo, rest: string)
    ensures ReadRecord(CsvRow(f) + "\n" + rest) == Some((FieldCells(f), rest))
  {
    var t3 := EscapeCsv(f.comment) + ['\n'] + rest;
    var t2 := EscapeCsv(f.tag) + [','] + t3;
    var t1 := EscapeCsv(f.typ) + [','] + t2;
    CsvRowPieces(f, rest);
    ReadCellBack(f.name, ',', t1);
    ReadCellBack(f.typ, ',', t2);
    ReadCellBack(f.tag, ',', t3);
    ReadCellBack(f.comment, '\n', rest);
  }

  /** The field lines read back as the fields' cells. */
  lemma {:induction false} ReadCsvRows(fs: seq<FieldInfo>)
    ensures ReadRecords(Lines(CsvRows(fs))) == Some(Records(fs))
  {
    if fs != [] {
      ReadCsvRows(fs[1..]);
      var rest := Lines(CsvRows(fs[1..]));
      assert Lines(CsvRows(fs)) == CsvRow(fs[0]) + "\n" + rest;
      ReadCsvRow(fs[0], rest);
    }
  }

  /**
   * The CSV text reads back as the struct's name and, in order, the name,
   * type, tag and comment of every field.
   */
  lemma CsvRoundTrip(info: StructInfo)
    ensures ParseCsv(CsvText(info)) == Some((info.name, Records(info.fields)))
  {
    var afterName := CsvHeader + Lines(CsvRows(info.fields));
    var body := "\n" + afterName;
    assert CsvText(info) == EscapeCsv(info.name) + body;
    EscapeCsvReadBack(info.name, body);
    assert body[1..] == afterName;
    ExpectTextBack(CsvHeader, Lines(CsvRows(info.fields)));
    ReadCsvRows(info.fields);
  }

  // ---------------------------------------------------------------------
  // TSV
  // ---------------------------------------------------------------------

  /** The header written by `PrintTsv`, literally: a line break where a tab belongs. */
  const TsvHeader: string := "Name\tType\nTag\tComment\n"

  /** The four cells of a field with line breaks and tabs made spaces. */
  function TsvCells(f: FieldInfo): seq<string>
  {
    [EscapeTsv(f.name), EscapeTsv(f.typ), EscapeTsv(f.tag), EscapeTsv(f.comment)]
  }

  /** The TSV line of a field, without its line break. */
  function TsvRow(f: FieldInfo): string
  {
    EscapeTsv(f.name) + "\t" + EscapeTsv(f.typ) + "\t" + EscapeTsv(f.tag) + "\t" + EscapeTsv(f.comment)
  }

  /** The TSV lines of the fields, in order. */
  function TsvRows(fs: seq<FieldInfo>): (r: seq<string>)
    ensures |r| == |fs|
  {
    if fs == [] then [] else [TsvRow(fs[0])] + TsvRows(fs[1..])
  }

  /** What `PrintTsv` returns; the struct's name is written unescaped. */
  function TsvText(info: StructInfo): string
  {
    info.name + "\n" + TsvHeader + Lines(TsvRows(info.fields))
  }

  /** Adding a field adds its line at the end. */
  lemma {:induction false} TsvRowsSnoc(fs: seq<FieldInfo>, f: FieldInfo)
    ensures TsvRows(fs + [f]) == TsvRows(fs) + [TsvRow(f)]
  {
    if fs != [] {
      assert (fs + [f])[1..] == fs[1..] + [f];
      TsvRowsSnoc(fs[1..], f);
    } else {
      assert ([] + [f])[1..] == [];
    }
  }

  /**
   * `PrintTsv`: the name, the header as written, then for each field its
   * four escaped cells separated by tabs.
   */
  method PrintTsv(info: StructInfo) returns (tsv: string)
    ensures tsv == TsvText(info)
  {
    tsv := info.name + "\n";
    tsv := tsv + "Name\tType\nTag\tComment\n";
    tsv := AppendTsvRows(tsv, info.fields);
  }
  /** One more field of `fs` adds its line at the end. */
  lemma TsvRowsPrefix(fs: seq<FieldInfo>, i: int)
    requires 0 <= i < |fs|
    ensures TsvRows(fs[..i + 1]) == TsvRows(fs[..i]) + [TsvRow(fs[i])]
  {
    assert fs[..i + 1] == fs[..i] + [fs[i]];
    TsvRowsSnoc(fs[..i], fs[i]);
  }


  /** The field loop of `PrintTsv`, appending each field's line to `tsv`. */
  method AppendTsvRows(start: string, fields: seq<FieldInfo>) returns (tsv: string)
    ensures tsv == start + Lines(TsvRows(fields))
  {
    tsv := start;
    for i := 0 to |fields|
      invariant tsv == start + Lines(TsvRows(fields[..i]))
    {
      var field := fields[i];
      TsvRowsPrefix(fields, i);
      LinesAppend(TsvRows(fields[..i]), [TsvRow(field)]);
      LinesOne(TsvRow(field));
      var row := TsvRow(field) + "\n";
      AppendAssoc(start, Lines(TsvRows(fields[..i])), row);
      tsv := tsv + row;
    }
    assert fields[..|fields|] == fields;
  }

  /** Four cells free of `sep`, separated by `sep`, split back into the four. */
  lemma FourCells(x: string, a: string, b: string, c: string, d: string, sep: char)
    requires x == a + [sep] + b + [sep] + c + [sep] + d
    requires sep !in a && sep !in b && sep !in c && sep !in d
    ensures Split(x, sep) == [a, b, c, d]
    ensures forall ch :: ch in x ==> ch == sep || ch in a || ch in b || ch in c || ch in d
  {
    assert x == a + [sep] + (b + [sep] + (c + [sep] + d));
    SplitNone(d, sep);
    SplitFirst(c, sep, d);
    SplitFirst(b, sep, c + [sep] + d);
    SplitFirst(a, sep, b + [sep] + (c + [sep] + d));
  }

  /** A field's line splits on tabs into its four escaped cells and holds no line break. */
  lemma TsvRowCells(f: FieldInfo)
    ensures Split(TsvRow(f), '\t') == TsvCells(f)
    ensures '\n' !in TsvRow(f)
  {
    var n, t, g, c := EscapeTsv(f.name), EscapeTsv(f.typ), EscapeTsv(f.tag), EscapeTsv(f.comment);
    FourCells(TsvRow(f), n, t, g, c, '\t');
  }

  /** The field lines hold no line break. */
  lemma {:induction false} TsvRowsSingleLine(fs: seq<FieldInfo>)
    ensures forall k :: 0 <= k < |TsvRows(fs)| ==> '\n' !in TsvRows(fs)[k]
  {
    if fs != [] {
      TsvRowsSingleLine(fs[1..]);
      TsvRowCells(fs[0]);
    }
  }

  /** Line `k` of the field lines is field `k`'s. */
  lemma {:induction false} TsvRowsAt(fs: seq<FieldInfo>, k: int)
    requires 0 <= k < |fs|
    ensures TsvRows(fs)[k] == TsvRow(fs[k])
  {
    if k > 0 {
      TsvRowsAt(fs[1..], k - 1);
    }
  }

  /** Every field line splits on tabs into the field's four escaped cells. */
  lemma TsvRowsCells(fs: seq<FieldInfo>)
    ensures forall k :: 0 <= k < |fs| ==> Split(TsvRows(fs)[k], '\t') == TsvCells(fs[k])
  {
    forall k | 0 <= k < |fs|
      ensures Split(TsvRows(fs)[k], '\t') == TsvCells(fs[k])
    {
      TsvRowsAt(fs, k);
      TsvRowCells(fs[k]);
    }
  }

  /** Lines free of line breaks, then the field lines, split back into lines. */
  lemma TableLines(head: seq<string>, fs: seq<FieldInfo>)
    requires forall k :: 0 <= k < |head| ==> '\n' !in head[k]
    ensures Split(Lines(head) + Lines(TsvRows(fs)), '\n') == head + TsvRows(fs) + [""]
  {
    var rows := TsvRows(fs);
    var all := head + rows;
    TsvRowsSingleLine(fs);
    LinesAppend(head, rows);
    assert forall k :: 0 <= k < |all| ==> '\n' !in all[k];
    SplitLines(all, "");
    assert Lines(all) + "" == Lines(all);
  }

  /** A name line and header lines, then the field lines, split back into lines. */
  lemma TextLines(name: string, header: string, heads: seq<string>, fs: seq<FieldInfo>)
    requires header == Lines(heads)
    requires '\n' !in name && forall k :: 0 <= k < |heads| ==> '\n' !in heads[k]
    ensures Split(name + "\n" + header + Lines(TsvRows(fs)), '\n') == [name] + heads + TsvRows(fs) + [""]
  {
    var all := [name] + heads;
    assert Lines([name]) == name + "\n";
    LinesAppend([name], heads);
    assert forall k :: 0 <= k < |all| ==> '\n' !in all[k];
    TableLines(all, fs);
  }

  /** Two lines, each followed by a line break. */
  lemma TwoLines(a: string, b: string)
    ensures Lines([a, b]) == a + "\n" + (b + "\n")
  {
    assert [a, b][1..] == [b];
    assert Lines([b]) == b + "\n";
  }

  /**
   * A two-line header of two cells per line: split on line breaks it gives
   * its two lines (and the empty rest), each of which splits on tabs into
   * its two cells.
   */
  lemma HeaderShape(h: string, x: string, y: string, a: string, b: string, c: string, d: string)
    requires h == x + ['\n'] + (y + ['\n']) && x == a + ['\t'] + b && y == c + ['\t'] + d
    requires '\t' !in a && '\t' !in b && '\t' !in c && '\t' !in d
    requires '\n' !in a && '\n' !in b && '\n' !in c && '\n' !in d
    ensures Split(h, '\n') == [x, y, ""]
    ensures Split(x, '\t') == [a, b] && Split(y, '\t') == [c, d]
    ensures '\n' !in x && '\n' !in y && h == Lines([x, y])
  {
    SplitNone(b, '\t');
    SplitFirst(a, '\t', b);
    SplitNone(d, '\t');
    SplitFirst(c, '\t', d);
    SplitFirst(y, '\n', []);
    assert y + ['\n'] + [] == y + ['\n'];
    assert Split([], '\n') == [[]];
    assert Split(y + ['\n'], '\n') == [y, []];
    SplitFirst(x, '\n', y + ['\n']);
    TwoLines(x, y);
  }

  /**
   * As written, the TSV text read line by line has the name, then the header
   * broken over two lines, then one line per field (each of which splits on
   * tabs into the field's four cells, by `TsvRowsCells`).
   */
  lemma TsvLines(info: StructInfo)
    requires '\n' !in info.name
    ensures Split(TsvText(info), '\n') == [info.name, "Name\tType", "Tag\tComment"] + TsvRows(info.fields) + [""]
  {
    var x, y := "Name\tType", "Tag\tComment";
    TsvHeaderLines();
    TextLines(info.name, TsvHeader, [x, y], info.fields);
    assert [info.name] + [x, y] == [info.name, x, y];
  }

  /** The header as written is two lines free of line breaks. */
  lemma TsvHeaderLines()
    ensures '\n' !in "Name\tType" && '\n' !in "Tag\tComment"
    ensures TsvHeader == Lines(["Name\tType", "Tag\tComment"])
  {
    HeaderShape(TsvHeader, "Name\tType", "Tag\tComment", "Name", "Type", "Tag", "Comment");
  }

  /**
   * The header as written is two lines of two cells each: it never gives
   * the four column names on one line.
   */
  lemma TsvHeaderSplitsInTwo()
    ensures Split(TsvHeader, '\n') == ["Name\tType", "Tag\tComment", ""]
    ensures Split("Name\tType", '\t') == ["Name", "Type"]
    ensures Split("Tag\tComment", '\t') == ["Tag", "Comment"]
  {
    HeaderShape(TsvHeader, "Name\tType", "Tag\tComment", "Name", "Type", "Tag", "Comment");
  }

  /** The header with the tab it evidently should have. */
  const CorrectedTsvHeader: string := "Name\tType\tTag\tComment\n"

  /** The TSV text with the corrected header. */
  function CorrectedTsvText(info: StructInfo): string
  {
    info.name + "\n" + CorrectedTsvHeader + Lines(TsvRows(info.fields))
  }

  /**
   * With the corrected header the text is a table: the name line, one
   * header line (whose four cells are the column names, by
   * `CorrectedHeaderCells`), then one line per field (whose four cells are
   * the field's escaped values, by `TsvRowsCells`).
   */
  lemma CorrectedTsvLines(info: StructInfo)
    requires '\n' !in info.name
    ensures Split(CorrectedTsvText(info), '\n') == [info.name, "Name\tType\tTag\tComment"] + TsvRows(info.fields) + [""]
  {
    var x := "Name\tType\tTag\tComment";
    CorrectedHeaderLine();
    TextLines(info.name, CorrectedTsvHeader, [x], info.fields);
  }

  /** The corrected header is one line free of inner line breaks. */
  lemma CorrectedHeaderLine()
    ensures '\n' !in "Name\tType\tTag\tComment"
    ensures CorrectedTsvHeader == Lines(["Name\tType\tTag\tComment"])
  {
    OneLine(CorrectedTsvHeader, "Name\tType\tTag\tComment", "Name", "Type", "Tag", "Comment");
  }

  /** A line of four cells free of line breaks, followed by a line break. */
  lemma OneLine(h: string, x: string, a: string, b: string, c: string, d: string)
    requires h == x + ['\n'] && x == a + ['\t'] + (b + ['\t'] + (c + ['\t'] + d))
    requires '\n' !in a && '\n' !in b && '\n' !in c && '\n' !in d
    ensures '\n' !in x && h == Lines([x])
  {
    assert [x][1..] == [];
  }

  /** The corrected header line splits on tabs into the four column names. */
  lemma CorrectedHeaderCells()
    ensures Split("Name\tType\tTag\tComment", '\t') == ["Name", "Type", "Tag", "Comment"]
  {
    FourCells("Name\tType\tTag\tComment", "Name", "Type", "Tag", "Comment", '\t');
  }
}

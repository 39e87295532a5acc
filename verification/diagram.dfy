/**
 * The PlantUML class renderer of main.go, `SprintClass`: the `class` block
 * of one struct and its optional `note` block. The edges pointing into a
 * struct, `SprintRelations`, are in module `Relations`.
 */
module Diagram {
  import opened Text
  import opened Structs

  /** The four rendering switches (`--fields`, `--comment`, `--tag`, `--note`). */
  datatype RenderOptions = RenderOptions(includeFields: bool, enableComment: bool, enableTag: bool, byNote: bool)

  /** Whether tags and comments go to a separate `note right of` block. */
  predicate NoteShown(o: RenderOptions)
  {
    o.includeFields && o.byNote && (o.enableComment || o.enableTag)
  }

  /** Whether a field's tag is written on its `{field}` line. */
  predicate InlineTag(f: FieldInfo, o: RenderOptions)
  {
    !o.byNote && o.enableTag && |f.tag| > 0
  }

  /** Whether a field's comment is written on its `{field}` line. */
  predicate InlineComment(f: FieldInfo, o: RenderOptions)
  {
    !o.byNote && o.enableComment && |f.comment| > 0
  }

  // ---------------------------------------------------------------------
  // The text as the source writes it
  // ---------------------------------------------------------------------

  /** The start of a field's `{field}` line: its name and its type. */
  function FieldHead(f: FieldInfo): string
  {
    "{field} +" + f.name + " <" + f.typ + ">"
  }

  /** The inline tag of a field, if written on its line. */
  function TagPart(f: FieldInfo, o: RenderOptions): string
  {
    if InlineTag(f, o) then " `" + f.tag + "`" else ""
  }

  /** The inline comment of a field, written with a line break of its own. */
  function CommentPart(f: FieldInfo, o: RenderOptions): string
  {
    if InlineComment(f, o) then " " + f.comment + "\n" else ""
  }

  /** What the class body holds for one field. */
  function FieldText(f: FieldInfo, o: RenderOptions): string
  {
    FieldHead(f) + TagPart(f, o) + CommentPart(f, o) + "\n"
  }

  /** The class body, field after field. */
  function FieldsText(fs: seq<FieldInfo>, o: RenderOptions): string
  {
    if fs == [] then [] else FieldsText(fs[..|fs| - 1], o) + FieldText(fs[|fs| - 1], o)
  }

  /** What the note block holds for one field. */
  function NoteText(f: FieldInfo, o: RenderOptions): string
  {
    f.name + ":"
    + (if o.enableComment then " " + f.comment else "")
    + (if o.enableTag then " `" + f.tag + "`" else "")
    + "\n"
  }

  /** The body of the note block, field after field. */
  function NotesText(fs: seq<FieldInfo>, o: RenderOptions): string
  {
    if fs == [] then [] else NotesText(fs[..|fs| - 1], o) + NoteText(fs[|fs| - 1], o)
  }

  /** The opening line of a class block. */
  function ClassHeader(name: string): string
  {
    "class " + name + " {"
  }

  /** What `SprintClass` returns. */
  function ClassText(info: StructInfo, o: RenderOptions): string
  {
    if info.fields == [] then []
    else
      ClassHeader(info.name) + "\n"
      + (if o.includeFields then FieldsText(info.fields, o) else [])
      + "}\n"
      + (if NoteShown(o) then "note right of " + info.name + "\n" + NotesText(info.fields, o) + "end note\n" else [])
  }

  // ---------------------------------------------------------------------
  // The same text read as lines
  // ---------------------------------------------------------------------

  /** The `{field}` line of one field, without its line break. */
  function FieldRow(f: FieldInfo, o: RenderOptions): string
  {
    FieldHead(f) + TagPart(f, o) + (if InlineComment(f, o) then " " + f.comment else "")
  }

  /**
   * The lines written for one field inside the class body: its `{field}`
   * line, and an empty line after it when its comment is written inline
   * (the comment carries a line break of its own before the field's).
   */
  function RowsOf(f: FieldInfo, o: RenderOptions): seq<string>
  {
    if InlineComment(f, o) then [FieldRow(f, o), ""] else [FieldRow(f, o)]
  }

  /** The lines of the class body. */
  function FieldRows(fs: seq<FieldInfo>, o: RenderOptions): (r: seq<string>)
    ensures |fs| <= |r| <= 2 * |fs|
    ensures (o.byNote || !o.enableComment) ==> |r| == |fs|
  {
    if fs == [] then []
    else FieldRows(fs[..|fs| - 1], o) + RowsOf(fs[|fs| - 1], o)
  }

  /** The line of one field in the note block, without its line break. */
  function NoteRow(f: FieldInfo, o: RenderOptions): string
  {
    f.name + ":"
    + (if o.enableComment then " " + f.comment else "")
    + (if o.enableTag then " `" + f.tag + "`" else "")
  }

  /** The lines of the note block, one per field. */
  function NoteRows(fs: seq<FieldInfo>, o: RenderOptions): (r: seq<string>)
    ensures |r| == |fs|
  {
    if fs == [] then [] else NoteRows(fs[..|fs| - 1], o) + [NoteRow(fs[|fs| - 1], o)]
  }

  /** The lines of the class block, followed by those of the note block if shown. */
  function ClassRows(info: StructInfo, o: RenderOptions): (r: seq<string>)
    ensures |r| == 2 + (if o.includeFields then |FieldRows(info.fields, o)| else 0)
                      + (if NoteShown(o) then |info.fields| + 2 else 0)
    ensures r[0] == ClassHeader(info.name)
    ensures r[|r| - 1] == if NoteShown(o) then "end note" else "}"
  {
    [ClassHeader(info.name)]
    + (if o.includeFields then FieldRows(info.fields, o) else [])
    + ["}"]
    + (if NoteShown(o) then ["note right of " + info.name] + NoteRows(info.fields, o) + ["end note"] else [])
  }

  /** The class body is its rows, each ended by a line break. */
  lemma {:induction false} FieldsTextLines(fs: seq<FieldInfo>, o: RenderOptions)
    ensures FieldsText(fs, o) == Lines(FieldRows(fs, o))
  {
    if fs != [] {
      var init, f := fs[..|fs| - 1], fs[|fs| - 1];
      FieldsTextLines(init, o);
      LinesAppend(FieldRows(init, o), RowsOf(f, o));
      assert Lines([""]) == "\n";
      if InlineComment(f, o) {
        AppendAssoc(FieldHead(f) + TagPart(f, o), " " + f.comment, "\n");
        assert FieldText(f, o) == FieldRow(f, o) + "\n" + "\n";
      } else {
        assert FieldText(f, o) == FieldRow(f, o) + "\n";
      }
    }
  }

  /** The note body is its rows, each ended by a line break. */
  lemma {:induction false} NotesTextLines(fs: seq<FieldInfo>, o: RenderOptions)
    ensures NotesText(fs, o) == Lines(NoteRows(fs, o))
  {
    if fs != [] {
      var init, f := fs[..|fs| - 1], fs[|fs| - 1];
      NotesTextLines(init, o);
      LinesAppend(NoteRows(init, o), [NoteRow(f, o)]);
    }
  }

  /** The note block is its rows, each ended by a line break. */
  lemma NoteBlockLines(info: StructInfo, o: RenderOptions)
    ensures "note right of " + info.name + "\n" + NotesText(info.fields, o) + "end note\n"
         == Lines(["note right of " + info.name] + NoteRows(info.fields, o) + ["end note"])
  {
    var first := ["note right of " + info.name];
    var rows := NoteRows(info.fields, o);
    NotesTextLines(info.fields, o);
    LinesAppend(first, rows);
    LinesAppend(first + rows, ["end note"]);
    assert Lines(first) == "note right of " + info.name + "\n";
    assert Lines(["end note"]) == "end note\n";
  }

  /** The whole text is the rows of `ClassRows`, each ended by a line break. */
  lemma ClassTextIsRows(info: StructInfo, o: RenderOptions)
    requires info.fields != []
    ensures ClassText(info, o) == Lines(ClassRows(info, o))
  {
    var header := [ClassHeader(info.name)];
    var fieldPart := if o.includeFields then FieldRows(info.fields, o) else [];
    var noteBlock := ["note right of " + info.name] + NoteRows(info.fields, o) + ["end note"];
    var notePart := if NoteShown(o) then noteBlock else [];
    var fieldText := if o.includeFields then FieldsText(info.fields, o) else [];
    var noteText := if NoteShown(o) then "note right of " + info.name + "\n" + NotesText(info.fields, o) + "end note\n" else [];
    FieldsTextLines(info.fields, o);
    NoteBlockLines(info, o);
    assert fieldText == Lines(fieldPart);
    assert noteText == Lines(notePart);
    var head, close := ClassHeader(info.name), "}";
    LinesOne(head);
    LinesOne(close);
    assert close + "\n" == "}\n";
    assert ClassText(info, o) == (head + "\n") + fieldText + (close + "\n") + noteText;
    LinesAppend(header, fieldPart);
    LinesAppend(header + fieldPart, [close]);
    LinesAppend(header + fieldPart + [close], notePart);
    assert header + fieldPart + [close] + notePart == ClassRows(info, o);
  }

  /**
   * The shape of the text: empty exactly when the struct has no fields;
   * otherwise it opens with the class header, and with fields switched off
   * it is the bare block `class <Name> {` / `}`.
   */
  lemma ClassTextShape(info: StructInfo, o: RenderOptions)
    ensures ClassText(info, o) == [] <==> info.fields == []
    ensures info.fields != [] ==>
      var h := ClassHeader(info.name) + "\n";
      |h| <= |ClassText(info, o)| && ClassText(info, o)[..|h|] == h
    ensures info.fields != [] && !o.includeFields ==> ClassText(info, o) == ClassHeader(info.name) + "\n}\n"
  {
  }

  /** No field text holds a line break (identifiers and line comments never do). */
  predicate SingleLineFields(info: StructInfo)
  {
    && '\n' !in info.name
    && forall f :: f in info.fields ==>
         '\n' !in f.name && '\n' !in f.typ && '\n' !in f.tag && '\n' !in f.comment
  }

  /** Field rows of single-line fields are single lines. */
  lemma {:induction false} FieldRowsSingleLine(fs: seq<FieldInfo>, o: RenderOptions)
    requires forall f :: f in fs ==> '\n' !in f.name && '\n' !in f.typ && '\n' !in f.tag && '\n' !in f.comment
    ensures forall r :: r in FieldRows(fs, o) ==> '\n' !in r
  {
    if fs != [] {
      FieldRowsSingleLine(fs[..|fs| - 1], o);
    }
  }

  /** Note rows of single-line fields are single lines. */
  lemma {:induction false} NoteRowsSingleLine(fs: seq<FieldInfo>, o: RenderOptions)
    requires forall f :: f in fs ==> '\n' !in f.name && '\n' !in f.tag && '\n' !in f.comment
    ensures forall r :: r in NoteRows(fs, o) ==> '\n' !in r
  {
    if fs != [] {
      NoteRowsSingleLine(fs[..|fs| - 1], o);
    }
  }

  /** The rows of a struct whose fields are single lines are single lines. */
  lemma ClassRowsSingleLine(info: StructInfo, o: RenderOptions)
    requires SingleLineFields(info)
    ensures forall k :: 0 <= k < |ClassRows(info, o)| ==> '\n' !in ClassRows(info, o)[k]
  {
    var fieldPart := if o.includeFields then FieldRows(info.fields, o) else [];
    var notePart := if NoteShown(o) then ["note right of " + info.name] + NoteRows(info.fields, o) + ["end note"] else [];
    FieldRowsSingleLine(info.fields, o);
    NoteRowsSingleLine(info.fields, o);
    var head, close, opening, ending := "class ", " {", "note right of ", "end note";
    assert '\n' !in head && '\n' !in close && '\n' !in opening && '\n' !in ending && '\n' !in "}";
    assert '\n' !in ClassHeader(info.name) by {
      assert ClassHeader(info.name) == head + info.name + close;
    }
    NoBreakRows([ClassHeader(info.name)], fieldPart, ["}"], notePart);
  }

  /** Four runs of rows free of line breaks, one after the other. */
  lemma NoBreakRows(a: seq<string>, b: seq<string>, c: seq<string>, d: seq<string>)
    requires forall r :: r in a ==> '\n' !in r
    requires forall r :: r in b ==> '\n' !in r
    requires forall r :: r in c ==> '\n' !in r
    requires forall r :: r in d ==> '\n' !in r
    ensures forall k :: 0 <= k < |a + b + c + d| ==> '\n' !in (a + b + c + d)[k]
  {
    forall k | 0 <= k < |a + b + c + d|
      ensures '\n' !in (a + b + c + d)[k]
    {
      assert (a + b + c + d)[k] in a + b + c + d;
    }
  }

  /**
   * Read back line by line, the text of a struct with fields is exactly its
   * rows: the class header, one line per field (and an empty one after an
   * inline comment), the closing brace, then the note block when shown.
   */
  lemma ClassTextLines(info: StructInfo, o: RenderOptions)
    requires info.fields != [] && SingleLineFields(info)
    ensures Split(ClassText(info, o), '\n') == ClassRows(info, o) + [""]
  {
    var rows := ClassRows(info, o);
    ClassRowsSingleLine(info, o);
    ClassTextIsRows(info, o);
    SplitLines(rows, "");
    assert Lines(rows) + "" == ClassText(info, o);
    assert Split("", '\n') == [""];
  }

  /** The body of the field loop of `SprintClass`: one field's text. */
  method SprintField(field: FieldInfo, o: RenderOptions) returns (text: string)
    ensures text == FieldText(field, o)
  {
    text := "{field} +" + field.name + " <" + field.typ + ">";
    if !o.byNote {
      if o.enableTag && |field.tag| > 0 {
        text := text + (" `" + field.tag + "`");
      }
      if o.enableComment && |field.comment| > 0 {
        text := text + (" " + field.comment + "\n");
      }
    }
    text := text + "\n";
  }

  /** The body of the note loop of `SprintClass`: one field's note line. */
  method SprintNote(field: FieldInfo, o: RenderOptions) returns (text: string)
    ensures text == NoteText(field, o)
  {
    text := field.name + ":";
    if o.enableComment {
      text := text + (" " + field.comment);
    }
    if o.enableTag {
      text := text + (" `" + field.tag + "`");
    }
    text := text + "\n";
  }

  /**
   * `SprintClass`: nothing for a struct without fields; otherwise the class
   * header, the field lines when fields are included, the closing brace,
   * then the note block when shown.
   */
  method SprintClass(info: StructInfo, o: RenderOptions) returns (uml: string)
    ensures uml == ClassText(info, o)
  {
    if |info.fields| == 0 {
      return "";
    }
    var fields := info.fields;
    uml := "class " + info.name + " {\n";
    ghost var header := uml;
    assert header == ClassHeader(info.name) + "\n";
    if o.includeFields {
      uml := SprintFieldLoop(uml, fields, o);
    }
    ghost var fieldText := if o.includeFields then FieldsText(fields, o) else [];
    assert uml == header + fieldText;
    uml := uml + "}\n";
    ghost var closed := uml;
    if NoteShown(o) {
      var opening := "note right of " + info.name + "\n";
      uml := uml + opening;
      uml := SprintNoteLoop(uml, fields, o);
      uml := uml + "end note\n";
      AppendAssoc(closed, opening, NotesText(fields, o));
      AppendAssoc(closed, opening + NotesText(fields, o), "end note\n");
    }
    ghost var noteText := if NoteShown(o) then "note right of " + info.name + "\n" + NotesText(fields, o) + "end note\n" else [];
    assert uml == header + fieldText + "}\n" + noteText;
  }

  /** The field loop of `SprintClass`, appending each field's text to `uml`. */
  method SprintFieldLoop(start: string, fields: seq<FieldInfo>, o: RenderOptions) returns (uml: string)
    ensures uml == start + FieldsText(fields, o)
  {
    uml := start;
    for i := 0 to |fields|
      invariant uml == start + FieldsText(fields[..i], o)
    {
      var text := SprintField(fields[i], o);
      assert fields[..i + 1][..i] == fields[..i];
      AppendAssoc(start, FieldsText(fields[..i], o), text);
      uml := uml + text;
    }
    assert fields[..|fields|] == fields;
  }

  /** The note loop of `SprintClass`, appending each field's note line to `uml`. */
  method SprintNoteLoop(start: string, fields: seq<FieldInfo>, o: RenderOptions) returns (uml: string)
    ensures uml == start + NotesText(fields, o)
  {
    uml := start;
    for i := 0 to |fields|
      invariant uml == start + NotesText(fields[..i], o)
    {
      var text := SprintNote(fields[i], o);
      assert fields[..i + 1][..i] == fields[..i];
      AppendAssoc(start, NotesText(fields[..i], o), text);
      uml := uml + text;
    }
    assert fields[..|fields|] == fields;
  }
}

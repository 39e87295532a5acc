/**
 * The cell escapers of the tabular renderers (main.go, `escapeCsv` and
 * `escapeTsv`) and the reader that undoes the CSV one.
 */
module Escape {
  import opened Text
  import opened Wrappers

  /**
   * Reads the body of a quoted CSV cell whose opening quote is already
   * consumed: `""` stands for one quote, a lone `"` closes the cell. Gives
   * the cell's text and what follows the closing quote.
   */
  function ReadQuoted(t: string): (r: Option<(string, string)>)
    ensures r.Some? ==> |r.value.1| < |t|
  {
    if t == [] then None
    else if t[0] == '"' then
      if |t| >= 2 && t[1] == '"' then
        var p :- ReadQuoted(t[2..]);
        Some((['"'] + p.0, p.1))
      else Some(([], t[1..]))
    else
      var p :- ReadQuoted(t[1..]);
      Some(([t[0]] + p.0, p.1))
  }

  /** Reads one quoted CSV cell at the start of `t`. */
  function ReadCsvCell(t: string): (r: Option<(string, string)>)
    ensures r.Some? ==> |r.value.1| < |t|
  {
    if |t| > 0 && t[0] == '"' then ReadQuoted(t[1..]) else None
  }

  /** The doubled-quote body of a cell reads back to its text. */
  lemma {:induction false} ReadQuotedDoubled(s: string, rest: string)
    requires rest == [] || rest[0] != '"'
    ensures ReadQuoted(ReplaceAll(s, '"', "\"\"") + "\"" + rest) == Some((s, rest))
  {
    var t := ReplaceAll(s, '"', "\"\"") + "\"" + rest;
    if s == [] {
      assert t == "\"" + rest;
      assert t[1..] == rest;
    } else {
      ReadQuotedDoubled(s[1..], rest);
      var body := ReplaceAll(s[1..], '"', "\"\"");
      var u := body + "\"" + rest;
      var head := if s[0] == '"' then "\"\"" else [s[0]];
      assert ReplaceAll(s, '"', "\"\"") == head + body;
      assert t == head + u;
      if s[0] == '"' {
        assert t[0] == '"' && t[1] == '"' && t[2..] == u;
      } else {
        assert t[0] == s[0] && t[1..] == u;
      }
      assert [s[0]] + s[1..] == s;
    }
  }

  /**
   * `escapeCsv`: the text inside double quotes, each double quote doubled.
   * The result is quoted at both ends and reads back to `s`.
   */
  function EscapeCsv(s: string): (r: string)
    ensures |r| >= 2 && r[0] == '"' && r[|r| - 1] == '"'
    ensures ReadCsvCell(r) == Some((s, []))
  {
    ReadQuotedDoubled(s, []);
    var r := "\"" + ReplaceAll(s, '"', "\"\"") + "\"";
    assert r[1..] == ReplaceAll(s, '"', "\"\"") + "\"" + [];
    r
  }

  /**
   * An escaped cell followed by anything that does not start with a quote
   * (a comma, a line break, the end) reads back to the cell's text and
   * leaves what follows untouched.
   */
  lemma EscapeCsvReadBack(s: string, rest: string)
    requires rest == [] || rest[0] != '"'
    ensures ReadCsvCell(EscapeCsv(s) + rest) == Some((s, rest))
  {
    ReadQuotedDoubled(s, rest);
    var t := EscapeCsv(s) + rest;
    assert t[1..] == ReplaceAll(s, '"', "\"\"") + "\"" + rest;
  }

  /**
   * `escapeTsv`: line breaks and tabs become single spaces; nothing else
   * changes, so the length is kept and no separator is left.
   */
  function EscapeTsv(s: string): (r: string)
    ensures |r| == |s|
    ensures forall i :: 0 <= i < |s| ==>
      r[i] == if s[i] == '\n' || s[i] == '\t' then ' ' else s[i]
    ensures '\n' !in r && '\t' !in r
  {
    var noBreaks := ReplaceAll(s, '\n', " ");
    ReplaceOneChar(s, '\n', ' ');
    ReplaceOneChar(noBreaks, '\t', ' ');
    ReplaceAll(noBreaks, '\t', " ")
  }

  /** Escaping for TSV twice is escaping once. */
  lemma EscapeTsvIdempotent(s: string)
    ensures EscapeTsv(EscapeTsv(s)) == EscapeTsv(s)
  {
  }
}

/**
 * Text operations on `seq<char>`. Two are the Go `strings` calls main.go
 * makes: `strings.Replace(s, old, new, -1)` for a one-character `old`, and
 * `strings.Trim(s, cutset)`. `Concat` is the `+=` loop over comment texts
 * and `Decimal` the `%d` rendering of a count. `Split` and `Lines` are not
 * used by main.go: they are this model's readers, used to state the line
 * and cell shape of the output.
 */
module Text {

  /** `strings.Replace(s, [c], rep, -1)`: every occurrence of `c` becomes `rep`. */
  function ReplaceAll(s: string, c: char, rep: string): (r: string)
    ensures c !in rep ==> c !in r
  {
    if s == [] then []
    else (if s[0] == c then rep else [s[0]]) + ReplaceAll(s[1..], c, rep)
  }

  /** Replacing one character by one character keeps positions. */
  lemma {:induction false} ReplaceOneChar(s: string, c: char, d: char)
    ensures |ReplaceAll(s, c, [d])| == |s|
    ensures forall i :: 0 <= i < |s| ==>
      ReplaceAll(s, c, [d])[i] == if s[i] == c then d else s[i]
  {
    if s != [] {
      ReplaceOneChar(s[1..], c, d);
    }
  }

  /** Characters that `strings.Trim` may remove at position `k`. */
  ghost predicate AllIn(s: string, lo: int, hi: int, cut: set<char>)
    requires 0 <= lo <= hi <= |s|
  {
    forall k :: lo <= k < hi ==> s[k] in cut
  }

  /** `r` is `s[i..i+|r|]` and everything around it is in `cut`. */
  ghost predicate PaddedBy(s: string, r: string, i: int, cut: set<char>)
  {
    && 0 <= i <= i + |r| <= |s|
    && r == s[i..i + |r|]
    && AllIn(s, 0, i, cut)
    && AllIn(s, i + |r|, |s|, cut)
  }

  /** Neither end of `r` is in `cut`. */
  ghost predicate Untrimmable(r: string, cut: set<char>)
  {
    r == [] || (r[0] !in cut && r[|r| - 1] !in cut)
  }

  /** `strings.TrimLeft`: drop the longest prefix made of `cut` characters. */
  function TrimLeft(s: string, cut: set<char>): (r: string)
    ensures |r| <= |s| && r == s[|s| - |r|..]
    ensures AllIn(s, 0, |s| - |r|, cut)
    ensures r == [] || r[0] !in cut
  {
    if s != [] && s[0] in cut then TrimLeft(s[1..], cut) else s
  }

  /** `strings.TrimRight`: drop the longest suffix made of `cut` characters. */
  function TrimRight(s: string, cut: set<char>): (r: string)
    ensures |r| <= |s| && r == s[..|r|]
    ensures AllIn(s, |r|, |s|, cut)
    ensures r == [] || r[|r| - 1] !in cut
    ensures r != [] ==> r[0] == s[0]
  {
    if s != [] && s[|s| - 1] in cut then TrimRight(s[..|s| - 1], cut) else s
  }

  /** A suffix of `s` after `cut` characters, cut down to a prefix before `cut` characters, is padded by `cut`. */
  lemma PaddedCompose(s: string, l: string, r: string, cut: set<char>)
    requires |l| <= |s| && l == s[|s| - |l|..] && AllIn(s, 0, |s| - |l|, cut)
    requires |r| <= |l| && r == l[..|r|] && AllIn(l, |r|, |l|, cut)
    ensures PaddedBy(s, r, |s| - |l|, cut)
  {
    var i := |s| - |l|;
    forall k | i + |r| <= k < |s|
      ensures s[k] in cut
    {
      assert s[k] == l[k - i];
    }
  }

  /**
   * `strings.Trim(s, cutset)`: the part of `s` left once every leading and
   * every trailing character of `cut` is removed.
   */
  function Trim(s: string, cut: set<char>): (r: string)
    ensures Untrimmable(r, cut)
    ensures exists i :: PaddedBy(s, r, i, cut)
  {
    var l := TrimLeft(s, cut);
    PaddedCompose(s, l, TrimRight(l, cut), cut);
    TrimRight(l, cut)
  }

  /**
   * The two properties of `Trim` determine its result: any other string that
   * is padded by `cut` in `s` and cannot be trimmed further equals `Trim`.
   */
  lemma TrimUnique(s: string, cut: set<char>, r: string, i: int)
    requires PaddedBy(s, r, i, cut) && Untrimmable(r, cut)
    ensures r == Trim(s, cut)
  {
    var t := Trim(s, cut);
    var j :| PaddedBy(s, t, j, cut);
    if r == [] {
      // Every character of s is in cut, so t cannot keep one.
      assert forall k :: 0 <= k < |s| ==> s[k] in cut;
      assert t == [];
    } else {
      // s keeps a character outside cut, so t is not empty either; then the
      // first characters fix the start and the last characters the end.
      assert s[i] == r[0];
      assert t != [];
      assert s[j] == t[0];
      assert i == j;
      assert s[i + |r| - 1] == r[|r| - 1] && s[j + |t| - 1] == t[|t| - 1];
      assert |r| == |t|;
    }
  }

  /** `Trim` removes exactly a padding of `cut` characters around an untrimmable middle. */
  lemma TrimAround(pre: string, r: string, post: string, cut: set<char>)
    requires forall k :: 0 <= k < |pre| ==> pre[k] in cut
    requires forall k :: 0 <= k < |post| ==> post[k] in cut
    requires Untrimmable(r, cut)
    ensures Trim(pre + r + post, cut) == r
  {
    var s := pre + r + post;
    assert s[|pre|..|pre| + |r|] == r;
    assert forall k :: 0 <= k < |pre| ==> s[k] == pre[k];
    assert forall k :: |pre| + |r| <= k < |s| ==> s[k] == post[k - |pre| - |r|];
    TrimUnique(s, cut, r, |pre|);
  }

  /** Concatenation of a list of strings with no separator, built from the left. */
  function Concat(ss: seq<string>): string
  {
    if ss == [] then [] else Concat(ss[..|ss| - 1]) + ss[|ss| - 1]
  }

  /** The pieces of `s` between the occurrences of `c` (the reading of a line or a cell). */
  function Split(s: string, c: char): (r: seq<string>)
    ensures |r| >= 1
    ensures forall k :: 0 <= k < |r| ==> c !in r[k]
  {
    if s == [] then [[]]
    else
      var rest := Split(s[1..], c);
      if s[0] == c then [[]] + rest else [[s[0]] + rest[0]] + rest[1..]
  }

  /** A piece free of `c` followed by `c` is split off as the first piece. */
  lemma {:induction false} SplitFirst(a: string, c: char, b: string)
    requires c !in a
    ensures Split(a + [c] + b, c) == [a] + Split(b, c)
  {
    if a == [] {
      assert a + [c] + b == [c] + b;
      assert ([c] + b)[1..] == b;
    } else {
      SplitFirst(a[1..], c, b);
      assert (a + [c] + b)[1..] == a[1..] + [c] + b;
      assert [a[0]] + a[1..] == a;
    }
  }

  /** A string free of `c` is one piece. */
  lemma {:induction false} SplitNone(a: string, c: char)
    requires c !in a
    ensures Split(a, c) == [a]
  {
    if a != [] {
      SplitNone(a[1..], c);
      assert [a[0]] + a[1..] == a;
    }
  }

  /** The decimal digit for `d`. */
  function Digit(d: nat): char
    requires d < 10
  {
    ('0' as int + d) as char
  }

  /** The value of a decimal digit character. */
  function DigitValue(ch: char): nat
  {
    if '0' <= ch <= '9' then (ch - '0') as nat else 0
  }

  /** `%d` applied to a non-negative integer. */
  function Decimal(n: nat): (r: string)
    ensures |r| >= 1
    ensures forall k :: 0 <= k < |r| ==> '0' <= r[k] <= '9'
    ensures |r| > 1 ==> r[0] != '0'
  {
    if n < 10 then [Digit(n)] else Decimal(n / 10) + [Digit(n % 10)]
  }

  /** The number a string of decimal digits denotes. */
  function DecimalValue(s: string): nat
  {
    if s == [] then 0 else 10 * DecimalValue(s[..|s| - 1]) + DigitValue(s[|s| - 1])
  }

  /** Reading back the decimal rendering gives the number. */
  lemma {:induction false} DecimalRoundTrip(n: nat)
    ensures DecimalValue(Decimal(n)) == n
  {
    if n >= 10 {
      var q, d := n / 10, n % 10;
      assert n == 10 * q + d;
      DecimalRoundTrip(q);
      var s := Decimal(n);
      assert s == Decimal(q) + [Digit(d)];
      assert s[..|s| - 1] == Decimal(q) && s[|s| - 1] == Digit(d);
      assert DigitValue(Digit(d)) == d;
    } else {
      assert DigitValue(Digit(n)) == n;
    }
  }

  /** Appending is associative (stated once so that proofs can cite it). */
  lemma AppendAssoc(a: string, b: string, c: string)
    ensures (a + b) + c == a + (b + c)
  {
  }

  /** Each string of `ls` followed by a line break. */
  function Lines(ls: seq<string>): string
  {
    if ls == [] then [] else ls[0] + "\n" + Lines(ls[1..])
  }

  /** A single line is the line and its break. */
  lemma LinesOne(x: string)
    ensures Lines([x]) == x + "\n"
  {
    assert [x][1..] == [];
  }

  /** Writing two runs of lines one after the other. */
  lemma {:induction false} LinesAppend(a: seq<string>, b: seq<string>)
    ensures Lines(a + b) == Lines(a) + Lines(b)
  {
    if a == [] {
      assert a + b == b;
    } else {
      var ab := a + b;
      assert ab[0] == a[0] && ab[1..] == a[1..] + b;
      LinesAppend(a[1..], b);
      var x, y, z := a[0] + "\n", Lines(a[1..]), Lines(b);
      assert Lines(ab) == x + (y + z);
      assert Lines(a) == x + y;
      assert x + (y + z) == (x + y) + z;
    }
  }

  /** Splitting on line breaks gives back lines that hold none. */
  lemma {:induction false} SplitLines(ls: seq<string>, rest: string)
    requires forall k :: 0 <= k < |ls| ==> '\n' !in ls[k]
    ensures Split(Lines(ls) + rest, '\n') == ls + Split(rest, '\n')
  {
    if ls == [] {
      assert Lines(ls) + rest == rest;
    } else {
      SplitLines(ls[1..], rest);
      assert Lines(ls) + rest == ls[0] + "\n" + (Lines(ls[1..]) + rest);
      SplitFirst(ls[0], '\n', Lines(ls[1..]) + rest);
      assert ls == [ls[0]] + ls[1..];
    }
  }
}

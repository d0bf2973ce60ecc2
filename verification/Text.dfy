/** The string operations of Go's `strings` package that the agent's text handling relies on, on
    sequences of runes. */
module Text {

  /** `unicode.IsSpace`. */
  predicate IsSpace(c: char) {
    c in {' ', '\t', '\n', '\r', '\U{000B}', '\U{000C}', '\U{0085}', '\U{00A0}', '\U{1680}',
          '\U{2028}', '\U{2029}', '\U{202F}', '\U{205F}', '\U{3000}'}
    || '\U{2000}' <= c <= '\U{200A}'
  }

  function TrimLeft(s: string): string {
    if s == [] || !IsSpace(s[0]) then s else TrimLeft(s[1..])
  }

  function TrimRight(s: string): string {
    if s == [] || !IsSpace(s[|s| - 1]) then s else TrimRight(s[..|s| - 1])
  }

  function TrimSpace(s: string): string {
    TrimRight(TrimLeft(s))
  }

  predicate Blank(s: string) {
    TrimSpace(s) == ""
  }

  /** No white space at either end. */
  predicate Trimmed(s: string) {
    s != [] ==> !IsSpace(s[0]) && !IsSpace(s[|s| - 1])
  }

  lemma {:induction false} TrimLeftMeaning(s: string)
    ensures var r := TrimLeft(s); |r| <= |s| && r == s[|s| - |r|..] && (r != [] ==> !IsSpace(r[0]))
    ensures forall i :: 0 <= i < |s| - |TrimLeft(s)| ==> IsSpace(s[i])
  {
    hide IsSpace;
    if s != [] && IsSpace(s[0]) {
      TrimLeftMeaning(s[1..]);
      assert forall i :: 0 < i < |s| ==> s[i] == s[1..][i - 1];
    }
  }

  lemma {:induction false} TrimRightMeaning(s: string)
    ensures var r := TrimRight(s); |r| <= |s| && r == s[..|r|] && (r != [] ==> !IsSpace(r[|r| - 1]))
    ensures forall i :: |TrimRight(s)| <= i < |s| ==> IsSpace(s[i])
  {
    hide IsSpace;
    if s != [] && IsSpace(s[|s| - 1]) {
      TrimRightMeaning(s[..|s| - 1]);
    }
  }

  /** `TrimSpace` cuts white space off both ends and nothing else. */
  lemma TrimSpaceMeaning(s: string) returns (i: nat, j: nat)
    ensures i <= j <= |s| && TrimSpace(s) == s[i..j]
    ensures forall k :: 0 <= k < |s| && (k < i || j <= k) ==> IsSpace(s[k])
    ensures Trimmed(TrimSpace(s))
  {
    hide IsSpace, TrimLeft, TrimRight;
    TrimLeftMeaning(s);
    var l := TrimLeft(s);
    TrimRightMeaning(l);
    i := |s| - |l|;
    j := i + |TrimRight(l)|;
    forall k | 0 <= k < |s| && (k < i || j <= k) ensures IsSpace(s[k]) {
      if j <= k { assert l[k - i] == s[k]; }
    }
  }

  lemma {:induction false} TrimLeftSkips(a: string, s: string)
    requires forall k :: 0 <= k < |a| ==> IsSpace(a[k])
    ensures TrimLeft(a + s) == TrimLeft(s)
  {
    hide IsSpace;
    if a == "" {
      assert a + s == s;
    } else {
      assert (a + s)[0] == a[0] && (a + s)[1..] == a[1..] + s;
      TrimLeftSkips(a[1..], s);
    }
  }

  lemma {:induction false} TrimRightSkips(s: string, b: string)
    requires forall k :: 0 <= k < |b| ==> IsSpace(b[k])
    ensures TrimRight(s + b) == TrimRight(s)
  {
    hide IsSpace;
    if b == "" {
      assert s + b == s;
    } else {
      var c := b[..|b| - 1];
      assert (s + b)[|s + b| - 1] == b[|b| - 1] && (s + b)[..|s + b| - 1] == s + c;
      TrimRightSkips(s, c);
    }
  }

  /** Whatever text without white space at its ends stands between white space is what `TrimSpace` leaves. */
  lemma TrimSpaceIs(a: string, m: string, b: string)
    requires forall k :: 0 <= k < |a| ==> IsSpace(a[k])
    requires forall k :: 0 <= k < |b| ==> IsSpace(b[k])
    requires Trimmed(m)
    ensures TrimSpace(a + m + b) == m
  {
    hide IsSpace;
    assert a + m + b == a + (m + b);
    TrimLeftSkips(a, m + b);
    if m == "" {
      assert m + b == b && b + "" == b;
      TrimLeftSkips(b, "");
    } else {
      TrimRightSkips(m, b);
    }
  }

  /** `unicode.IsSpace`, by code points. */
  lemma SpaceCodes(c: char)
    ensures IsSpace(c) <==>
      var k := c as int;
      9 <= k <= 13 || k == 32 || k == 133 || k == 160 || k == 5760 || 8192 <= k <= 8202
      || k == 8232 || k == 8233 || k == 8239 || k == 8287 || k == 12288
  {}

  lemma TrimSpaceTrims(s: string)
    ensures Trimmed(TrimSpace(s))
    ensures '\n' !in s ==> '\n' !in TrimSpace(s)
  {
    hide IsSpace, TrimSpace;
    var i, j := TrimSpaceMeaning(s);
  }

  lemma TrimmedStays(s: string)
    requires Trimmed(s)
    ensures TrimSpace(s) == s
  {
    hide IsSpace;
  }

  /** Text with something in it other than white space is not blank. */
  lemma NotBlank(s: string, k: nat)
    requires k < |s| && !IsSpace(s[k])
    ensures !Blank(s)
  {
    hide IsSpace, TrimSpace;
    var i, j := TrimSpaceMeaning(s);
  }

  predicate HasPrefix(s: string, prefix: string) {
    |prefix| <= |s| && s[..|prefix|] == prefix
  }

  lemma PrefixAt(s: string, prefix: string, k: nat)
    requires k < |prefix| && HasPrefix(s, prefix)
    ensures k < |s| && s[k] == prefix[k]
  {
    assert s[..|prefix|][k] == s[k];
  }

  lemma NotPrefix(s: string, prefix: string, k: nat)
    requires k < |prefix| && (k < |s| ==> s[k] != prefix[k])
    ensures !HasPrefix(s, prefix)
  {
    if HasPrefix(s, prefix) { PrefixAt(s, prefix, k); }
  }

  /** `strings.Split(s, "\n")`: always at least one line. */
  function SplitLines(s: string): (lines: seq<string>)
    ensures lines != []
  {
    if s == [] then [""]
    else
      var rest := SplitLines(s[1..]);
      if s[0] == '\n' then [""] + rest else [[s[0]] + rest[0]] + rest[1..]
  }

  /** `strings.ReplaceAll(s, "\r\n", "\n")`. */
  function DropCRs(s: string): string {
    if s == [] then []
    else if |s| >= 2 && s[0] == '\r' && s[1] == '\n' then ['\n'] + DropCRs(s[2..])
    else [s[0]] + DropCRs(s[1..])
  }

  /** Lines written out, each with its newline. */
  function Unlines(lines: seq<string>): string {
    if lines == [] then "" else lines[0] + "\n" + Unlines(lines[1..])
  }

  lemma {:induction false} UnlinesAppend(a: seq<string>, b: seq<string>)
    ensures Unlines(a + b) == Unlines(a) + Unlines(b)
  {
    if a == [] {
      assert a + b == b;
    } else {
      assert (a + b)[1..] == a[1..] + b;
      UnlinesAppend(a[1..], b);
    }
  }

  lemma UnlinesOne(line: string)
    ensures Unlines([line]) == line + "\n"
  {
    assert [line][1..] == [];
  }

  lemma {:induction false} SplitLine(line: string, rest: string)
    requires '\n' !in line
    ensures SplitLines(line + "\n" + rest) == [line] + SplitLines(rest)
  {
    var s := line + "\n" + rest;
    if line == [] {
      assert s == ['\n'] + rest && s[1..] == rest;
    } else {
      assert s[1..] == line[1..] + "\n" + rest;
      SplitLine(line[1..], rest);
      assert [line[0]] + line[1..] == line;
    }
  }

  lemma {:induction false} SplitLast(line: string)
    requires '\n' !in line
    ensures SplitLines(line) == [line]
  {
    if line != "" {
      SplitLast(line[1..]);
      assert [line[0]] + line[1..] == line;
    }
  }

  lemma {:induction false} SplitUnlines(lines: seq<string>)
    requires forall i :: 0 <= i < |lines| ==> '\n' !in lines[i]
    ensures SplitLines(Unlines(lines)) == lines + [""]
  {
    if lines != [] {
      SplitLine(lines[0], Unlines(lines[1..]));
      SplitUnlines(lines[1..]);
    }
  }

  lemma {:induction false} SplitHasNoNewline(s: string)
    ensures forall i :: 0 <= i < |SplitLines(s)| ==> '\n' !in SplitLines(s)[i]
  {
    if s != [] { SplitHasNoNewline(s[1..]); }
  }

  function ChopCR(line: string): string {
    if line != [] && line[|line| - 1] == '\r' then line[..|line| - 1] else line
  }

  lemma {:induction false} DropCRsLine(line: string, rest: string)
    requires '\n' !in line
    ensures DropCRs(line + "\n" + rest) == ChopCR(line) + "\n" + DropCRs(rest)
  {
    var s := line + "\n" + rest;
    if line == [] {
      assert s == ['\n'] + rest && s[1..] == rest;
    } else if |line| == 1 && line[0] == '\r' {
      assert s[0] == '\r' && s[1] == '\n' && s[2..] == rest;
    } else {
      assert s[1..] == line[1..] + "\n" + rest;
      assert |s| >= 2 && s[0] == line[0];
      if |line| > 1 { assert s[1] == line[1] && line[1] in line; }
      DropCRsLine(line[1..], rest);
      assert [line[0]] + ChopCR(line[1..]) == ChopCR(line);
      assert DropCRs(s) == [s[0]] + DropCRs(s[1..]);
    }
  }

  /** Replacing and splitting text that was written line by line gives the lines back, each without the one
      carriage return it may have ended in. */
  lemma {:induction false} LinesBack(lines: seq<string>)
    requires forall i :: 0 <= i < |lines| ==> '\n' !in lines[i]
    ensures SplitLines(DropCRs(Unlines(lines))) == seq(|lines|, i requires 0 <= i < |lines| => ChopCR(lines[i])) + [""]
  {
    if lines == [] {
      assert DropCRs("") == "";
    } else {
      var rest := lines[1..];
      LinesBack(rest);
      DropCRsLine(lines[0], Unlines(rest));
      SplitLine(ChopCR(lines[0]), DropCRs(Unlines(rest)));
      assert seq(|lines|, i requires 0 <= i < |lines| => ChopCR(lines[i])) ==
        [ChopCR(lines[0])] + seq(|rest|, i requires 0 <= i < |rest| => ChopCR(rest[i]));
    }
  }
}

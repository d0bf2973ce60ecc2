/** What the search parser makes of each line of `apt search` output, described by what is written in it: words
    with white space between them, the name of the first one before its slash, and the text of an indented
    line. */
module PackageLines {
  import opened Text
  import opened Wrappers
  import opened PackageSearch

  // ---- Words ----

  predicate IsWord(w: string) {
    w != "" && forall k :: 0 <= k < |w| ==> !IsSpace(w[k])
  }

  predicate AllSpaces(s: string) {
    forall k :: 0 <= k < |s| ==> IsSpace(s[k])
  }

  /** Words, each with white space behind it: at least one character of it unless it is the last. */
  datatype Piece = Piece(word: string, gap: string)

  predicate Pieces(ps: seq<Piece>) {
    forall i :: 0 <= i < |ps| ==>
      IsWord(ps[i].word) && AllSpaces(ps[i].gap) && (i < |ps| - 1 ==> ps[i].gap != "")
  }

  function Written(ps: seq<Piece>): string {
    if ps == [] then "" else ps[0].word + (ps[0].gap + Written(ps[1..]))
  }

  function WordsOf(ps: seq<Piece>): seq<string> {
    if ps == [] then [] else [ps[0].word] + WordsOf(ps[1..])
  }

  lemma {:induction false} WordIs(w: string, rest: string)
    requires (forall k :: 0 <= k < |w| ==> !IsSpace(w[k])) && (rest == "" || IsSpace(rest[0]))
    ensures Word(w + rest) == w
  {
    hide IsSpace;
    if w == "" {
      assert w + rest == rest;
    } else {
      assert (w + rest)[0] == w[0] && (w + rest)[1..] == w[1..] + rest;
      WordIs(w[1..], rest);
    }
  }

  lemma {:induction false} FieldsSkip(a: string, rest: string)
    requires AllSpaces(a)
    ensures Fields(a + rest) == Fields(rest)
  {
    hide IsSpace;
    if a == "" {
      assert a + rest == rest;
    } else {
      assert (a + rest)[0] == a[0] && (a + rest)[1..] == a[1..] + rest;
      FieldsSkip(a[1..], rest);
    }
  }

  lemma FieldsTake(w: string, rest: string)
    requires IsWord(w) && (rest == "" || IsSpace(rest[0]))
    ensures Fields(w + rest) == [w] + Fields(rest)
  {
    WordIs(w, rest);
    assert (w + rest)[0] == w[0] && (w + rest)[|w|..] == rest;
  }

  /** `strings.Fields`: whatever words are written, with white space before, between and after them, come
      back. */
  lemma {:induction false} FieldsAre(lead: string, ps: seq<Piece>)
    requires AllSpaces(lead) && Pieces(ps)
    ensures Fields(lead + Written(ps)) == WordsOf(ps)
    decreases |ps|
  {
    hide IsSpace, Fields;
    FieldsSkip(lead, Written(ps));
    if ps == [] {
      assert Fields("") == [] by { NoFields(); }
    } else {
      var rest := ps[0].gap + Written(ps[1..]);
      if rest != "" {
        assert ps[0].gap != "" && rest[0] == ps[0].gap[0];
      }
      FieldsTake(ps[0].word, rest);
      FieldsAre(ps[0].gap, ps[1..]);
    }
  }

  lemma NoFields()
    ensures Fields("") == []
  {}

  /** And every text is written like that. */
  lemma {:induction false} EveryTextIsWritten(s: string) returns (lead: string, ps: seq<Piece>)
    ensures AllSpaces(lead) && Pieces(ps) && s == lead + Written(ps)
    ensures s != "" && !IsSpace(s[0]) ==> lead == ""
    decreases |s|
  {
    hide IsSpace, Written, Pieces;
    if s == "" {
      lead, ps := "", [];
      NothingWritten();
    } else {
      var gap, rest := EveryTextIsWritten(s[1..]);
      if IsSpace(s[0]) {
        lead, ps := [s[0]] + gap, rest;
        assert lead + Written(ps) == [s[0]] + s[1..];
      } else if gap == "" && rest != [] {
        lead, ps := "", [Piece([s[0]] + rest[0].word, rest[0].gap)] + rest[1..];
        LongerWord(s[0], rest);
      } else {
        lead, ps := "", [Piece([s[0]], gap)] + rest;
        NewWord(s[0], gap, rest);
      }
    }
  }

  lemma NothingWritten()
    ensures Written([]) == "" && Pieces([])
  {}

  lemma WrittenStep(p: Piece, ps: seq<Piece>)
    ensures Written([p] + ps) == p.word + (p.gap + Written(ps))
  {
    assert ([p] + ps)[1..] == ps;
  }

  lemma PiecesStep(p: Piece, ps: seq<Piece>)
    requires IsWord(p.word) && AllSpaces(p.gap) && (p.gap == "" ==> ps == []) && Pieces(ps)
    ensures Pieces([p] + ps)
  {
    hide IsWord, AllSpaces;
    assert forall i :: 0 < i < |[p] + ps| ==> ([p] + ps)[i] == ps[i - 1];
  }

  lemma LongerWord(c: char, ps: seq<Piece>)
    requires !IsSpace(c) && ps != [] && Pieces(ps)
    ensures var qs := [Piece([c] + ps[0].word, ps[0].gap)] + ps[1..]; Pieces(qs) && Written(qs) == [c] + Written(ps)
  {
    hide IsSpace, Written;
    var p, rest := ps[0], ps[1..];
    assert ps == [p] + rest;
    assert p.gap == "" ==> rest == [];
    PiecesStep(Piece([c] + p.word, p.gap), rest);
    WrittenStep(p, rest);
    WrittenStep(Piece([c] + p.word, p.gap), rest);
    var tail := p.gap + Written(rest);
    assert [c] + p.word + tail == [c] + (p.word + tail);
  }

  lemma NewWord(c: char, gap: string, ps: seq<Piece>)
    requires !IsSpace(c) && AllSpaces(gap) && Pieces(ps) && (gap == "" ==> ps == [])
    ensures var qs := [Piece([c], gap)] + ps; Pieces(qs) && Written(qs) == [c] + (gap + Written(ps))
  {
    hide IsSpace, Written, Pieces, AllSpaces;
    PiecesStep(Piece([c], gap), ps);
    WrittenStep(Piece([c], gap), ps);
  }

  /** The name is the longest part of the word that has no slash. */
  lemma {:induction false} BeforeSlashMeaning(s: string)
    ensures var r := BeforeSlash(s);
      |r| <= |s| && r == s[..|r|] && '/' !in r && (|r| < |s| ==> s[|r|] == '/')
  {
    if s != "" && s[0] != '/' { BeforeSlashMeaning(s[1..]); }
  }

  lemma {:induction false} NameIs(n: string, rest: string)
    requires '/' !in n && (rest == "" || rest[0] == '/')
    ensures BeforeSlash(n + rest) == n
  {
    if n == "" {
      assert n + rest == rest;
    } else {
      assert (n + rest)[0] == n[0] && (n + rest)[1..] == n[1..] + rest;
      NameIs(n[1..], rest);
    }
  }

  // ---- The lines of the output ----

  /** What `TrimRight` takes off a line. */
  predicate LineEnd(e: string) {
    forall k :: 0 <= k < |e| ==> e[k] in {' ', '\t', '\r'}
  }

  lemma {:induction false} TrimLineSkips(s: string, e: string)
    requires LineEnd(e) && (s != "" ==> s[|s| - 1] !in "\r\t ")
    ensures TrimLine(s + e) == s
  {
    if e == "" {
      assert s + e == s;
    } else {
      var c := e[..|e| - 1];
      assert (s + e)[|s + e| - 1] == e[|e| - 1] && (s + e)[..|s + e| - 1] == s + c;
      TrimLineSkips(s, c);
    }
  }

  predicate IsNoise(line: string) {
    HasPrefix(line, "Sorting...") || HasPrefix(line, "Full Text Search...")
  }

  lemma {:induction false} WrittenEnds(ps: seq<Piece>)
    requires Pieces(ps) && ps != [] && ps[|ps| - 1].gap == ""
    ensures var s := Written(ps);
      s != "" && !IsSpace(s[0]) && !IsSpace(s[|s| - 1])
  {
    hide IsSpace;
    if |ps| > 1 { WrittenEnds(ps[1..]); } else { assert ps[0].word + ("" + "") == ps[0].word; }
  }

  lemma KeptByTrim(c: char)
    requires !IsSpace(c)
    ensures c !in "\r\t "
  {}

  lemma SpaceIsBlank()
    ensures IsSpace(' ')
  {}

  /** A line of words that begins with none of the two noise texts: with two words or more it is a package, with
      the version second, the architecture third if there is one, and the name the first up to its slash; with
      one word it is nothing. */
  lemma LineOfWords(ps: seq<Piece>, end: string)
    requires Pieces(ps) && ps != [] && ps[|ps| - 1].gap == "" && LineEnd(end) && !IsNoise(Written(ps))
    ensures var k := KindOf(Written(ps) + end);
      if |ps| == 1 then k == Ignored
      else k == Header(Package(BeforeSlash(ps[0].word), ps[1].word, if |ps| >= 3 then ps[2].word else "", ""))
  {
    hide IsSpace, TrimLine, Fields, HasPrefix, BeforeSlash, Written, KindOf, IsNoise, LineEnd, IsWord;
    var s := Written(ps);
    WrittenEnds(ps);
    hide Pieces;
    KeptByTrim(s[|s| - 1]);
    SpaceIsBlank();
    NotPrefix(s, " ", 0);
    TrimLineSkips(s, end);
    FieldsAre("", ps);
    assert "" + s == s;
    WordsAt(ps);
    KindByFields(s + end, s, WordsOf(ps));
  }

  lemma KindByFields(raw: string, line: string, words: seq<string>)
    requires TrimLine(raw) == line && line != "" && !IsNoise(line) && !HasPrefix(line, " ") && Fields(line) == words
    ensures KindOf(raw) ==
      if |words| < 2 then Ignored
      else Header(Package(BeforeSlash(words[0]), words[1], if |words| >= 3 then words[2] else "", ""))
  {
    hide TrimLine, Fields, HasPrefix, BeforeSlash;
  }

  lemma WordsAt(ps: seq<Piece>)
    ensures |WordsOf(ps)| == |ps|
    ensures forall i :: 0 <= i < |ps| ==> WordsOf(ps)[i] == ps[i].word
  {
    if ps != [] { WordsAt(ps[1..]); }
  }

  /** The form of `apt search`: a name, perhaps a slash and the suites, then the version and the architecture. */
  lemma PackageLine(name: string, suites: string, version: string, architecture: string, end: string)
    requires IsWord(name) && '/' !in name && (suites == "" || (suites[0] == '/' && IsWord(suites)))
    requires IsWord(version) && IsWord(architecture) && LineEnd(end)
    requires !IsNoise(name + suites + " " + version + " " + architecture)
    ensures KindOf(name + suites + " " + version + " " + architecture + end)
      == Header(Package(name, version, architecture, ""))
  {
    var first := name + suites;
    SpaceIsBlank();
    assert IsWord(first);
    hide IsSpace, KindOf, HasPrefix;
    var ps := [Piece(first, " "), Piece(version, " "), Piece(architecture, "")];
    assert ps[1..] == [Piece(version, " "), Piece(architecture, "")] && ps[1..][1..] == [Piece(architecture, "")];
    assert ps[1..][1..][1..] == [];
    assert Written([]) == "";
    assert Written(ps[1..][1..]) == architecture;
    assert Written(ps) == name + suites + " " + version + " " + architecture;
    NameIs(name, suites);
    LineOfWords(ps, end);
  }

  lemma PackageLineWithoutArchitecture(name: string, suites: string, version: string, end: string)
    requires IsWord(name) && '/' !in name && (suites == "" || (suites[0] == '/' && IsWord(suites)))
    requires IsWord(version) && LineEnd(end) && !IsNoise(name + suites + " " + version)
    ensures KindOf(name + suites + " " + version + end) == Header(Package(name, version, "", ""))
  {
    var first := name + suites;
    SpaceIsBlank();
    assert IsWord(first);
    hide IsSpace, KindOf, HasPrefix;
    var ps := [Piece(first, " "), Piece(version, "")];
    assert ps[1..] == [Piece(version, "")] && ps[1..][1..] == [];
    assert Written([]) == "";
    assert Written(ps[1..]) == version;
    assert Written(ps) == name + suites + " " + version;
    NameIs(name, suites);
    LineOfWords(ps, end);
  }

  /** The two noise texts, whatever follows them, and a line of nothing but blanks are no package and no
      detail. */
  lemma NoiseLine(line: string, rest: string, end: string)
    requires line == "Sorting..." || line == "Full Text Search..." || (line == "" && rest == "")
    requires LineEnd(end)
    ensures KindOf(line + rest + end) == Ignored
  {
    if line == "" {
      TrimLineSkips("", end);
      assert line + rest + end == "" + end;
    } else {
      KeepsDot(line, rest + end);
      assert line + rest + end == line + (rest + end);
    }
  }

  lemma KeepsDot(line: string, rest: string)
    requires line == "Sorting..." || line == "Full Text Search..."
    ensures HasPrefix(TrimLine(line + rest), line)
  {
    var s := line + rest;
    TrimLineMeaning(s);
    TrimLineKeeps(s, |line| - 1);
    assert s[|line| - 1] == '.';
    assert TrimLine(s)[..|line|] == s[..|line|];
  }

  lemma {:induction false} TrimLineKeeps(s: string, k: nat)
    requires k < |s| && s[k] !in "\r\t "
    ensures k < |TrimLine(s)|
  {
    if s[|s| - 1] in "\r\t " { TrimLineKeeps(s[..|s| - 1], k); }
  }

  /** An indented line is a detail, its text trimmed at both ends. */
  lemma IndentedLine(a: string, text: string, b: string, end: string)
    requires AllSpaces(a) && AllSpaces(b) && Trimmed(text) && text != "" && LineEnd(end)
    ensures KindOf(" " + a + text + b + end) == Detail(text)
  {
    var line := " " + a + text + b + end;
    SpaceIsBlank();
    var cut := TrimLine(line);
    TrimLineMeaning(line);
    var k := 1 + |a| + |text| - 1;
    assert line[k] == text[|text| - 1];
    KeptByTrim(line[k]);
    TrimLineKeeps(line, k);
    EndIsSpace(end);
    var behind := cut[k + 1..];
    forall i | 0 <= i < |behind| ensures IsSpace(behind[i]) {
      SpaceBehind(a, text, b, end, cut, k + 1 + i);
    }
    TrimSpaceIs(" " + a, text, behind);
    assert cut == " " + a + text + behind;
    assert cut[0] == ' ' && cut[..1] == " ";
    NotPrefix(cut, "Sorting...", 0);
    NotPrefix(cut, "Full Text Search...", 0);
  }

  lemma EndIsSpace(end: string)
    requires LineEnd(end)
    ensures AllSpaces(end)
  {}

  lemma SpaceBehind(a: string, text: string, b: string, end: string, cut: string, i: nat)
    requires AllSpaces(b) && AllSpaces(end)
    requires var line := " " + a + text + b + end; |cut| <= |line| && cut == line[..|cut|]
    requires 1 + |a| + |text| <= i < |cut|
    ensures IsSpace(cut[i])
  {
    hide IsSpace;
    var n := 1 + |a| + |text|;
    var line := " " + a + text + b + end;
    assert line[i] == if i < n + |b| then b[i - n] else end[i - n - |b|];
  }

  // ---- A package and what is said of it ----

  /** Details are joined by single blanks. */
  lemma {:induction false} JoinSpaceMeaning(a: seq<string>, b: seq<string>)
    ensures a == [] ==> JoinSpace(a + b) == JoinSpace(b)
    ensures a != [] && b != [] ==> JoinSpace(a + b) == JoinSpace(a) + " " + JoinSpace(b)
    ensures |a| == 1 ==> JoinSpace(a) == a[0]
  {
    if a == [] {
      assert a + b == b;
    } else {
      assert (a + b)[1..] == a[1..] + b && (a + b)[0] == a[0];
      JoinSpaceMeaning(a[1..], b);
      if |a| == 1 { assert a[1..] + b == b; }
    }
  }

  function Told(texts: seq<string>): seq<Kind> {
    if texts == [] then [] else [Detail(texts[0])] + Told(texts[1..])
  }

  /** A description with more said after it, by single blanks. */
  function Said(description: string, texts: seq<string>): string {
    if texts == [] then description
    else if description == "" then JoinSpace(texts)
    else description + " " + JoinSpace(texts)
  }

  lemma SaidStep(d: string, t: string, rest: seq<string>)
    requires t != ""
    ensures Said(Describe(d, t), rest) == Said(d, [t] + rest)
  {
    hide JoinSpace;
    JoinSpaceMeaning([t], rest);
    JoinSpaceMeaning([t], []);
    assert [t] + [] == [t];
    if rest == [] {
      assert [t] + rest == [t];
    } else {
      var j := JoinSpace(rest);
      assert d + " " + t + " " + j == d + " " + (t + " " + j);
    }
  }

  /** A package gets the details that follow it, joined by single blanks, and is finished by the next package or
      the end. */
  lemma {:induction false} PackageWithDetails(p: Package, texts: seq<string>, next: seq<Kind>)
    requires (forall i :: 0 <= i < |texts| ==> texts[i] != "") && (next == [] || next[0].Header?)
    ensures OnePass(Some(p), Told(texts) + next) ==
      [p.(description := Said(p.description, texts))] + OnePass(None, next)
    decreases |texts|
  {
    hide Said, OnePass, Told;
    if texts == [] {
      NothingTold(next);
      NothingSaid(p.description);
      NextFinishes(p, next);
    } else {
      var t, rest := texts[0], texts[1..];
      assert texts == [t] + rest;
      ToldStep(t, rest, next);
      OneDetail(p, t, Told(rest) + next);
      SaidStep(p.description, t, rest);
      PackageWithDetails(p.(description := Describe(p.description, t)), rest, next);
    }
  }

  lemma NothingTold(next: seq<Kind>)
    ensures Told([]) + next == next
  {}

  lemma ToldStep(t: string, rest: seq<string>, next: seq<Kind>)
    ensures Told([t] + rest) + next == [Detail(t)] + (Told(rest) + next)
  {
    assert ([t] + rest)[1..] == rest;
  }

  lemma NextFinishes(p: Package, next: seq<Kind>)
    requires next == [] || next[0].Header?
    ensures OnePass(Some(p), next) == [p] + OnePass(None, next)
  {
    if next == [] {
      assert [p] + [] == [p];
    } else {
      assert [] + OnePass(Some(next[0].package), next[1..]) == OnePass(Some(next[0].package), next[1..]);
    }
  }

  lemma NothingSaid(d: string)
    ensures Said(d, []) == d
  {}

  lemma OneDetail(p: Package, t: string, rest: seq<Kind>)
    ensures OnePass(Some(p), [Detail(t)] + rest) == OnePass(Some(p.(description := Describe(p.description, t))), rest)
  {
    assert ([Detail(t)] + rest)[1..] == rest;
  }

  /** A package line starts a package, lines that are nothing are passed over, and so are details of nothing. */
  lemma OtherLines(p: Package, text: string, rest: seq<Kind>, current: Option<Package>)
    ensures OnePass(None, [Header(p)] + rest) == OnePass(Some(p), rest)
    ensures OnePass(current, [Ignored] + rest) == OnePass(current, rest)
    ensures OnePass(None, [Detail(text)] + rest) == OnePass(None, rest)
  {
    assert ([Header(p)] + rest)[1..] == rest && ([Ignored] + rest)[1..] == rest && ([Detail(text)] + rest)[1..] == rest;
    assert [] + OnePass(Some(p), rest) == OnePass(Some(p), rest);
  }
}

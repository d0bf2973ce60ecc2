/** The parser of `apt search` output. It goes over the lines once, with the package it is collecting kept
    aside. The reference says the same in two phases: every line has a kind, and every package line is
    described by the indented lines up to the next one. */
module PackageSearch {
  import opened Text
  import opened Wrappers

  datatype Package = Package(name: string, version: string, architecture: string, description: string)

  /** `strings.TrimRight(line, "\r\t ")`. */
  function TrimLine(s: string): string {
    if s != "" && s[|s| - 1] in "\r\t " then TrimLine(s[..|s| - 1]) else s
  }

  /** The leading word of a text without leading white space. */
  function Word(s: string): (w: string)
    ensures |w| <= |s|
    ensures s != "" && !IsSpace(s[0]) ==> w != ""
  {
    if s == "" || IsSpace(s[0]) then "" else [s[0]] + Word(s[1..])
  }

  /** `strings.Fields`. */
  function Fields(s: string): seq<string>
    decreases |s|
  {
    if s == "" then []
    else if IsSpace(s[0]) then Fields(s[1..])
    else [Word(s)] + Fields(s[|Word(s)|..])
  }

  /** `strings.SplitN(s, "/", 2)[0]`. */
  function BeforeSlash(s: string): string {
    if s == "" || s[0] == '/' then "" else [s[0]] + BeforeSlash(s[1..])
  }

  // ---- The kinds of line ----

  datatype Kind = Ignored | Header(package: Package) | Detail(text: string)

  function KindOf(rawLine: string): Kind {
    var line := TrimLine(rawLine);
    if line == "" || HasPrefix(line, "Sorting...") || HasPrefix(line, "Full Text Search...") then Ignored
    else if HasPrefix(line, " ") then Detail(TrimSpace(line))
    else
      var fields := Fields(line);
      if |fields| < 2 then Ignored
      else Header(Package(BeforeSlash(fields[0]), fields[1], if |fields| >= 3 then fields[2] else "", ""))
  }

  function Kinds(lines: seq<string>): (ks: seq<Kind>)
    ensures |ks| == |lines|
    ensures forall i :: 0 <= i < |lines| ==> ks[i] == KindOf(lines[i])
  {
    seq(|lines|, i requires 0 <= i < |lines| => KindOf(lines[i]))
  }

  // ---- The reference, in two phases ----

  /** The indented lines up to the next package line. */
  function Details(kinds: seq<Kind>): seq<string> {
    if kinds == [] || kinds[0].Header? then []
    else (if kinds[0].Detail? then [kinds[0].text] else []) + Details(kinds[1..])
  }

  /** `strings.Join(texts, " ")`. */
  function JoinSpace(texts: seq<string>): string {
    if texts == [] then ""
    else if |texts| == 1 then texts[0]
    else texts[0] + " " + JoinSpace(texts[1..])
  }

  function TwoPhase(kinds: seq<Kind>): seq<Package> {
    if kinds == [] then []
    else if kinds[0].Header? then
      [kinds[0].package.(description := JoinSpace(Details(kinds[1..])))] + TwoPhase(kinds[1..])
    else TwoPhase(kinds[1..])
  }

  // ---- The parser ----

  /** One more indented line: it replaces a description that is empty so far. */
  function Describe(description: string, text: string): string {
    if description == "" then text else description + " " + text
  }

  function DescribeAll(description: string, texts: seq<string>): string
    decreases |texts|
  {
    if texts == [] then description else DescribeAll(Describe(description, texts[0]), texts[1..])
  }

  /** The package at hand, if there is one. */
  function AtHand(current: Option<Package>): seq<Package> {
    match current
    case None => []
    case Some(p) => [p]
  }

  /** What the one pass collects, when `description` is what the package at hand has so far. */
  function OnePass(current: Option<Package>, kinds: seq<Kind>): seq<Package>
    decreases |kinds|
  {
    if kinds == [] then AtHand(current)
    else match kinds[0]
      case Ignored => OnePass(current, kinds[1..])
      case Header(package) => AtHand(current) + OnePass(Some(package), kinds[1..])
      case Detail(text) =>
        (match current
         case None => OnePass(None, kinds[1..])
         case Some(p) => OnePass(Some(p.(description := Describe(p.description, text))), kinds[1..]))
  }

  method ParsePackageSearch(output: string) returns (r: Option<seq<Package>>)
    ensures var results := OnePass(None, Kinds(SplitLines(output)));
      r == if !Blank(output) && results == [] then None else Some(results)
  {
    hide TrimLine, Fields, TrimSpace, BeforeSlash, SplitLines, HasPrefix;
    var results: seq<Package> := [];
    var lines := SplitLines(output);
    ghost var kinds := Kinds(lines);
    var currentPkg: Option<Package> := None;
    var i := 0;
    assert kinds[0..] == kinds;
    while i < |lines|
      invariant 0 <= i <= |lines|
      invariant results + OnePass(currentPkg, kinds[i..]) == OnePass(None, kinds)
    {
      assert kinds[i..][0] == KindOf(lines[i]) && kinds[i..][1..] == kinds[i + 1..];
      var line := TrimLine(lines[i]);
      i := i + 1;
      if line == "" || HasPrefix(line, "Sorting...") || HasPrefix(line, "Full Text Search...") {
        continue;
      }
      if !HasPrefix(line, " ") {
        var fields := Fields(line);
        if |fields| >= 2 {
          ghost var before, taken := results, AtHand(currentPkg);
          if currentPkg.Some? {
            results := results + [currentPkg.value];
          }
          var pkg := Package(BeforeSlash(fields[0]), fields[1], "", "");
          if |fields| >= 3 {
            pkg := pkg.(architecture := fields[2]);
          }
          currentPkg := Some(pkg);
          assert results == before + taken;
          assert before + (taken + OnePass(currentPkg, kinds[i..])) == results + OnePass(currentPkg, kinds[i..]);
        }
      } else if currentPkg.Some? {
        var desc := TrimSpace(line);
        if currentPkg.value.description == "" {
          currentPkg := Some(currentPkg.value.(description := desc));
        } else {
          currentPkg := Some(currentPkg.value.(description := currentPkg.value.description + " " + desc));
        }
      }
    }
    assert kinds[i..] == [];
    assert results + AtHand(currentPkg) == OnePass(None, kinds);
    if currentPkg.Some? {
      results := results + [currentPkg.value];
    } else {
      assert results + [] == results;
    }
    if !Blank(output) && results == [] {
      return None;
    }
    return Some(results);
  }

  // ---- One pass is two phases ----

  /** The packages of the one pass: each package line with the running description of the lines after it. */
  function Described(kinds: seq<Kind>): seq<Package> {
    if kinds == [] then []
    else if kinds[0].Header? then
      var package := kinds[0].package;
      [package.(description := DescribeAll(package.description, Details(kinds[1..])))] + Described(kinds[1..])
    else Described(kinds[1..])
  }

  lemma {:induction false} OnePassDescribes(current: Option<Package>, kinds: seq<Kind>)
    ensures OnePass(current, kinds) ==
      (match current
       case None => []
       case Some(p) => [p.(description := DescribeAll(p.description, Details(kinds)))]) + Described(kinds)
    decreases |kinds|
  {
    if kinds != [] {
      match kinds[0]
      case Ignored =>
        OnePassDescribes(current, kinds[1..]);
        assert [] + Details(kinds[1..]) == Details(kinds[1..]);
      case Header(package) => OnePassDescribes(Some(package), kinds[1..]);
      case Detail(text) =>
        if current.Some? {
          var p := current.value;
          OnePassDescribes(Some(p.(description := Describe(p.description, text))), kinds[1..]);
          assert Details(kinds)[0] == text && Details(kinds)[1..] == Details(kinds[1..]);
        } else {
          OnePassDescribes(None, kinds[1..]);
        }
    }
  }

  lemma {:induction false} DescribeNonEmpty(description: string, texts: seq<string>)
    requires description != ""
    ensures DescribeAll(description, texts) == JoinSpace([description] + texts)
    decreases |texts|
  {
    if texts == [] {
      assert [description] + texts == [description];
    } else {
      var d := description + " " + texts[0];
      DescribeNonEmpty(d, texts[1..]);
      assert ([description] + texts)[1..] == texts;
      if |texts| == 1 {
        assert texts[1..] == [] && [d] + [] == [d];
      } else {
        assert ([d] + texts[1..])[1..] == texts[1..];
        JoinTail(texts);
        assert description + " " + (texts[0] + " " + JoinSpace(texts[1..])) == d + " " + JoinSpace(texts[1..]);
      }
    }
  }

  lemma JoinTail(texts: seq<string>)
    requires |texts| > 1
    ensures JoinSpace(texts) == texts[0] + " " + JoinSpace(texts[1..])
  {}

  lemma {:induction false} DescribeIsShort(texts: seq<string>)
    requires texts != []
    ensures |DescribeAll("", texts)| <= |JoinSpace(texts)|
    decreases |texts|
  {
    assert Describe("", texts[0]) == texts[0];
    if |texts| == 1 {
      assert texts[1..] == [];
    } else if texts[0] == "" {
      DescribeIsShort(texts[1..]);
    } else {
      DescribeNonEmpty(texts[0], texts[1..]);
      assert [texts[0]] + texts[1..] == texts;
    }
  }

  /** Indented lines whose text is empty are harmless only as the single one or after another. */
  predicate Joinable(texts: seq<string>) {
    |texts| <= 1 || texts[0] != ""
  }

  lemma DescribeIsJoinIff(texts: seq<string>)
    ensures DescribeAll("", texts) == JoinSpace(texts) <==> Joinable(texts)
  {
    if texts != [] {
      assert Describe("", texts[0]) == texts[0];
      if |texts| == 1 {
        assert texts[1..] == [];
      } else if texts[0] != "" {
        DescribeNonEmpty(texts[0], texts[1..]);
        assert [texts[0]] + texts[1..] == texts;
      } else {
        DescribeIsShort(texts[1..]);
        JoinTail(texts);
      }
    }
  }

  /** Every package line is followed by indented lines that join. */
  ghost predicate AllJoinable(kinds: seq<Kind>) {
    forall i :: 0 <= i < |kinds| && kinds[i].Header? ==> Joinable(Details(kinds[i + 1..]))
  }

  ghost predicate Fresh(kinds: seq<Kind>) {
    forall i :: 0 <= i < |kinds| && kinds[i].Header? ==> kinds[i].package.description == ""
  }

  lemma AllJoinableTail(kinds: seq<Kind>)
    requires kinds != []
    ensures AllJoinable(kinds) <==> AllJoinable(kinds[1..]) && (kinds[0].Header? ==> Joinable(Details(kinds[1..])))
  {
    var rest := kinds[1..];
    if AllJoinable(kinds) {
      forall i | 0 <= i < |rest| && rest[i].Header? ensures Joinable(Details(rest[i + 1..])) {
        assert rest[i] == kinds[i + 1] && rest[i + 1..] == kinds[i + 2..];
      }
    }
    if AllJoinable(rest) && (kinds[0].Header? ==> Joinable(Details(rest))) {
      forall i | 0 <= i < |kinds| && kinds[i].Header? ensures Joinable(Details(kinds[i + 1..])) {
        if i > 0 { assert rest[i - 1] == kinds[i] && rest[i..] == kinds[i + 1..]; }
      }
    }
  }

  lemma {:induction false} DescribedIsTwoPhaseIff(kinds: seq<Kind>)
    requires Fresh(kinds)
    ensures Described(kinds) == TwoPhase(kinds) <==> AllJoinable(kinds)
    ensures |Described(kinds)| == |TwoPhase(kinds)|
  {
    hide Joinable, Details, JoinSpace;
    if kinds != [] {
      AllJoinableTail(kinds);
      assert Fresh(kinds[1..]) by {
        forall i | 0 <= i < |kinds[1..]| && kinds[1..][i].Header? ensures kinds[1..][i].package.description == "" {
          assert kinds[1..][i] == kinds[i + 1];
        }
      }
      DescribedIsTwoPhaseIff(kinds[1..]);
      if kinds[0].Header? {
        DescribeIsJoinIff(Details(kinds[1..]));
        assert Described(kinds)[1..] == Described(kinds[1..]);
        assert TwoPhase(kinds)[1..] == TwoPhase(kinds[1..]);
        assert Described(kinds)[0].description == DescribeAll("", Details(kinds[1..]));
        assert TwoPhase(kinds)[0].description == JoinSpace(Details(kinds[1..]));
      }
    }
  }

  lemma KindsAreFresh(lines: seq<string>)
    ensures Fresh(Kinds(lines))
  {
    hide TrimLine, Fields, TrimSpace, BeforeSlash, HasPrefix;
  }

  /** The refinement, exactly: for every output, the one pass gives the packages of the two-phase reading if
      and only if no package has several indented lines of which the first is empty when trimmed. The number
      of packages is the same always: the last one is not lost. */
  lemma OnePassIsTwoPhaseIff(output: string)
    ensures var kinds := Kinds(SplitLines(output));
      && (OnePass(None, kinds) == TwoPhase(kinds) <==> AllJoinable(kinds))
      && |OnePass(None, kinds)| == |TwoPhase(kinds)|
  {
    var lines := SplitLines(output);
    var kinds := Kinds(lines);
    hide AllJoinable, Kinds, TwoPhase, OnePass, SplitLines;
    KindsAreFresh(lines);
    OnePassDescribes(None, kinds);
    assert [] + Described(kinds) == Described(kinds);
    DescribedIsTwoPhaseIff(kinds);
  }

  /** A blank and a form feed are an indented line whose text is empty. */
  lemma FormFeedLine()
    ensures KindOf(" \U{000C}") == Detail("")
    ensures '\n' !in " \U{000C}"
  {
    var line := " \U{000C}";
    assert line[0] == ' ' && line[1] == '\U{000C}';
    assert TrimLine(line) == line;
    assert line[..1] == " ";
    assert line[1..] == "\U{000C}" && "\U{000C}"[1..] == "";
    assert TrimLeft("") == "" && TrimLeft("\U{000C}") == "" && TrimLeft(line) == "";
    hide TrimLine, TrimLeft, IsSpace;
    NotPrefix(line, "Sorting...", 0);
    NotPrefix(line, "Full Text Search...", 0);
  }

  /** The difference does occur: for every package line and every indented line, with a blank and a form feed
      between them. */
  lemma FormFeedMakesADifference(header: string, detail: string)
    requires '\n' !in header && '\n' !in detail && KindOf(header).Header? && KindOf(detail).Detail?
    ensures var kinds := Kinds(SplitLines(header + "\n" + (" \U{000C}" + "\n" + detail)));
      OnePass(None, kinds) != TwoPhase(kinds)
  {
    hide KindOf, SplitLines, OnePass, TwoPhase;
    var odd := " \U{000C}";
    FormFeedLine();
    SplitLast(detail);
    SplitLine(odd, detail);
    SplitLine(header, odd + "\n" + detail);
    var output := header + "\n" + (odd + "\n" + detail);
    var kinds := Kinds(SplitLines(output));
    assert SplitLines(output) == [header, odd, detail];
    NotAllJoinable(kinds);
    OnePassIsTwoPhaseIff(output);
  }

  lemma NotAllJoinable(kinds: seq<Kind>)
    requires |kinds| == 3 && kinds[0].Header? && kinds[1] == Detail("") && kinds[2].Detail?
    ensures !AllJoinable(kinds)
  {
    var rest := kinds[1..];
    assert rest[0] == Detail("") && rest[1..][0] == kinds[2] && rest[1..][1..] == [];
    assert Details(rest[1..]) == [kinds[2].text] + Details([]);
    assert Details(rest) == [""] + Details(rest[1..]);
    assert !Joinable(Details(kinds[0 + 1..]));
  }

  // ---- When the texts are not empty ----

  /** White space that `TrimSpace` cuts but the parser's `TrimRight` does not. */
  predicate OddSpace(c: char) {
    IsSpace(c) && c !in "\r\t \n"
  }

  lemma {:induction false} TrimLineMeaning(s: string)
    ensures |TrimLine(s)| <= |s| && TrimLine(s) == s[..|TrimLine(s)|]
    ensures TrimLine(s) != "" ==> TrimLine(s)[|TrimLine(s)| - 1] !in "\r\t "
  {
    if s != "" && s[|s| - 1] in "\r\t " { TrimLineMeaning(s[..|s| - 1]); }
  }

  lemma DetailIsNotEmpty(rawLine: string)
    requires forall i :: 0 <= i < |rawLine| ==> !OddSpace(rawLine[i])
    requires '\n' !in rawLine && KindOf(rawLine).Detail?
    ensures KindOf(rawLine).text != ""
  {
    var line := TrimLine(rawLine);
    TrimLineMeaning(rawLine);
    var last := line[|line| - 1];
    assert last == rawLine[|line| - 1] && last in rawLine;
    assert !IsSpace(last);
    hide IsSpace, TrimLine, TrimSpace;
    NotBlank(line, |line| - 1);
  }

  lemma {:induction false} DetailsAmong(kinds: seq<Kind>)
    requires forall i :: 0 <= i < |kinds| && kinds[i].Detail? ==> kinds[i].text != ""
    ensures forall i :: 0 <= i < |Details(kinds)| ==> Details(kinds)[i] != ""
  {
    if kinds != [] { DetailsAmong(kinds[1..]); }
  }

  lemma {:induction false} LinesAmong(s: string, i: nat, k: nat)
    requires i < |SplitLines(s)| && k < |SplitLines(s)[i]|
    ensures SplitLines(s)[i][k] in s
  {
    if s != "" {
      var rest := SplitLines(s[1..]);
      if s[0] == '\n' {
        LinesAmong(s[1..], i - 1, k);
      } else if i > 0 {
        assert SplitLines(s)[i] == rest[i];
        LinesAmong(s[1..], i, k);
      } else if k > 0 {
        LinesAmong(s[1..], 0, k - 1);
      }
    }
  }

  /** On output with no white space but blanks, tabs, carriage returns and newlines, the parser is the
      two-phase reading. */
  lemma OnePassIsTwoPhase(output: string)
    requires forall i :: 0 <= i < |output| ==> !OddSpace(output[i])
    ensures OnePass(None, Kinds(SplitLines(output))) == TwoPhase(Kinds(SplitLines(output)))
  {
    hide KindOf, SplitLines, OnePass, TwoPhase, OddSpace, Details;
    var lines := SplitLines(output);
    var kinds := Kinds(lines);
    SplitHasNoNewline(output);
    forall i | 0 <= i < |kinds| && kinds[i].Detail? ensures kinds[i].text != "" {
      forall k | 0 <= k < |lines[i]| ensures !OddSpace(lines[i][k]) {
        LinesAmong(output, i, k);
      }
      DetailIsNotEmpty(lines[i]);
    }
    forall i | 0 <= i < |kinds| && kinds[i].Header? ensures Joinable(Details(kinds[i + 1..])) {
      DetailsAmong(kinds[i + 1..]);
    }
    OnePassIsTwoPhaseIff(output);
  }
}

/** Release notes: the changelog parser, which keeps the sections of one release, and the printer of these
    sections, which the parser reads back. */
module Changelog {
  import opened Text

  datatype Section = Section(title: string, items: seq<string>)

  datatype Result = Ok(sections: seq<Section>) | NoStructuredSection

  /** The loop variables of the parser; `done` is its `break`. */
  datatype State = State(inRelease: bool, current: Section, sections: seq<Section>, done: bool)

  const EMPTY: Section := Section("", [])
  const START: State := State(false, EMPTY, [], false)

  function SectionHeader(version: string): string {
    "## [" + version + "]"
  }

  /** `strings.TrimRight(line, " \t")`. */
  function TrimBlanks(s: string): string {
    if s != "" && s[|s| - 1] in " \t" then TrimBlanks(s[..|s| - 1]) else s
  }

  lemma {:induction false} TrimBlanksMeaning(s: string)
    ensures |TrimBlanks(s)| <= |s| && TrimBlanks(s) == s[..|TrimBlanks(s)|]
    ensures forall k :: |TrimBlanks(s)| <= k < |s| ==> s[k] in " \t"
  {
    if s != "" && s[|s| - 1] in " \t" { TrimBlanksMeaning(s[..|s| - 1]); }
  }

  function Flush(s: State): State {
    if Blank(s.current.title) || s.current.items == [] then s
    else s.(sections := s.sections + [s.current], current := EMPTY)
  }

  predicate IsBullet(line: string) {
    HasPrefix(line, "- ") || HasPrefix(line, "* ")
  }

  /** `parseBulletLine`, for a line that is one. */
  function BulletItem(line: string): string
    requires IsBullet(line)
  {
    TrimSpace(line[2..])
  }

  predicate StartsRelease(trimmed: string, header: string) {
    trimmed == header || HasPrefix(trimmed, header + " ")
  }

  function Step(s: State, rawLine: string, header: string): State {
    var line := TrimBlanks(rawLine);
    var trimmed := TrimSpace(line);
    if HasPrefix(trimmed, "## [") then
      if s.inRelease then Flush(s).(done := true)
      else s.(inRelease := StartsRelease(trimmed, header))
    else if !s.inRelease then s
    else if HasPrefix(trimmed, "### ") then
      Flush(s).(current := Section(TrimSpace(trimmed[4..]), []))
    else if IsBullet(trimmed) then
      s.(current := Section(if Blank(s.current.title) then "Notes" else s.current.title,
                            s.current.items + [BulletItem(trimmed)]))
    else if trimmed == "" || s.current.items == [] then s
    else if HasPrefix(line, "  ") || HasPrefix(line, "\t") then
      var last := |s.current.items| - 1;
      s.(current := s.current.(items :=
        s.current.items[last := TrimSpace(s.current.items[last] + " " + trimmed)]))
    else s
  }

  function Scan(s: State, lines: seq<string>, header: string): State
    decreases |lines|
  {
    if lines == [] || s.done then s else Scan(Step(s, lines[0], header), lines[1..], header)
  }

  function ParseLines(lines: seq<string>, header: string): Result {
    var s := Flush(Scan(START, lines, header));
    if s.sections == [] then NoStructuredSection else Ok(s.sections)
  }

  function Parse(content: string, version: string): Result {
    ParseLines(SplitLines(DropCRs(content)), SectionHeader(version))
  }

  method ParseChangelogRelease(content: string, version: string) returns (r: Result)
    ensures r == Parse(content, version)
  {
    var lines := SplitLines(DropCRs(content));
    var header := SectionHeader(version);
    var inRelease := false;
    var current := EMPTY;
    var sections: seq<Section> := [];
    ghost var done := false;
    var i := 0;
    while i < |lines|
      invariant 0 <= i <= |lines| && !done
      invariant Scan(START, lines, header) == Scan(State(inRelease, current, sections, false), lines[i..], header)
    {
      ghost var before := State(inRelease, current, sections, false);
      assert lines[i..][0] == lines[i] && lines[i..][1..] == lines[i + 1..];
      var line := TrimBlanks(lines[i]);
      var trimmed := TrimSpace(line);
      i := i + 1;
      if HasPrefix(trimmed, "## [") {
        if inRelease {
          current, sections := FlushCurrent(current, sections);
          done := true;
          break;
        }
        inRelease := StartsRelease(trimmed, header);
        continue;
      }
      if !inRelease {
        continue;
      }
      if HasPrefix(trimmed, "### ") {
        current, sections := FlushCurrent(current, sections);
        current := Section(TrimSpace(trimmed[4..]), []);
        continue;
      }
      if IsBullet(trimmed) {
        if Blank(current.title) {
          current := current.(title := "Notes");
        }
        current := current.(items := current.items + [BulletItem(trimmed)]);
        continue;
      }
      if trimmed == "" || current.items == [] {
        continue;
      }
      if HasPrefix(line, "  ") || HasPrefix(line, "\t") {
        var last := |current.items| - 1;
        current := current.(items := current.items[last := TrimSpace(current.items[last] + " " + trimmed)]);
      }
    }
    current, sections := FlushCurrent(current, sections);
    r := if sections == [] then NoStructuredSection else Ok(sections);
  }

  /** The closure `flushCurrent`. */
  method FlushCurrent(current: Section, sections: seq<Section>) returns (current': Section, sections': seq<Section>)
    ensures var flushed := Flush(State(false, current, sections, false));
      current' == flushed.current && sections' == flushed.sections
  {
    if Blank(current.title) || current.items == [] {
      return current, sections;
    }
    return EMPTY, sections + [current];
  }

  // ---- What the parser produces ----

  /** Text that can stand after "### " or "- " and be read back. */
  predicate GoodText(t: string) {
    t != "" && Trimmed(t) && '\n' !in t
  }

  predicate GoodSection(s: Section) {
    GoodText(s.title) && s.items != [] && forall i :: 0 <= i < |s.items| ==> GoodText(s.items[i])
  }

  predicate GoodState(s: State) {
    && (forall i :: 0 <= i < |s.sections| ==> GoodSection(s.sections[i]))
    && (s.current.title == "" || GoodText(s.current.title))
    && (forall i :: 0 <= i < |s.current.items| ==> GoodText(s.current.items[i]))
  }

  /** The rest of a trimmed line after a prefix that ends in a blank is not blank. */
  lemma RestIsGood(trimmed: string, n: nat)
    requires Trimmed(trimmed) && '\n' !in trimmed && 0 < n <= |trimmed| && IsSpace(trimmed[n - 1])
    ensures GoodText(TrimSpace(trimmed[n..]))
  {
    hide IsSpace, TrimSpace;
    var rest := trimmed[n..];
    assert n < |trimmed|;
    assert rest[|rest| - 1] == trimmed[|trimmed| - 1];
    NotBlank(rest, |rest| - 1);
    TrimSpaceTrims(rest);
  }

  lemma ContinuedIsGood(item: string, more: string)
    requires GoodText(item) && '\n' !in more
    ensures GoodText(TrimSpace(item + " " + more))
  {
    hide IsSpace, TrimSpace;
    var joined := item + " " + more;
    assert joined[0] == item[0];
    NotBlank(joined, 0);
    TrimSpaceTrims(joined);
  }

  lemma CutLine(rawLine: string)
    requires '\n' !in rawLine
    ensures Trimmed(TrimSpace(TrimBlanks(rawLine))) && '\n' !in TrimSpace(TrimBlanks(rawLine))
  {
    hide IsSpace, TrimSpace;
    TrimBlanksMeaning(rawLine);
    TrimSpaceTrims(TrimBlanks(rawLine));
  }

  lemma StepKeepsGood(s: State, rawLine: string, header: string)
    requires GoodState(s) && '\n' !in rawLine
    ensures GoodState(Step(s, rawLine, header))
  {
    hide IsSpace, TrimSpace, TrimBlanks, Trimmed, GoodText, Blank, Flush;
    var line := TrimBlanks(rawLine);
    var trimmed := TrimSpace(line);
    CutLine(rawLine);
    FlushKeepsGood(s);
    GoodNotes();
    if HasPrefix(trimmed, "## [") || !s.inRelease {
    } else if HasPrefix(trimmed, "### ") {
      PrefixAt(trimmed, "### ", 3);
      BlankIsSpace();
      RestIsGood(trimmed, 4);
    } else if IsBullet(trimmed) {
      BlankIsSpace();
      if HasPrefix(trimmed, "- ") { PrefixAt(trimmed, "- ", 1); } else { PrefixAt(trimmed, "* ", 1); }
      RestIsGood(trimmed, 2);
    } else if trimmed == "" || s.current.items == [] {
    } else {
      ContinuedIsGood(s.current.items[|s.current.items| - 1], trimmed);
    }
  }

  lemma BlankIsSpace()
    ensures IsSpace(' ')
  {}

  lemma GoodNotes()
    ensures GoodText("Notes")
  {
    assert "Notes"[0] == 'N' && "Notes"[4] == 's';
  }

  lemma GoodIsNotBlank(t: string)
    requires GoodText(t)
    ensures !Blank(t)
  {
    NotBlank(t, 0);
  }

  lemma NothingIsBlank()
    ensures Blank("")
  {}

  lemma FlushKeepsGood(s: State)
    requires GoodState(s)
    ensures GoodState(Flush(s))
    ensures Flush(s).sections == s.sections + if s.current.title == "" || s.current.items == [] then [] else [s.current]
    ensures Flush(s).inRelease == s.inRelease && Flush(s).done == s.done
  {
    hide Blank, GoodText;
    NothingIsBlank();
    if s.current.title != "" { GoodIsNotBlank(s.current.title); }
  }

  lemma {:induction false} ScanKeepsGood(s: State, lines: seq<string>, header: string)
    requires GoodState(s) && forall i :: 0 <= i < |lines| ==> '\n' !in lines[i]
    ensures GoodState(Scan(s, lines, header))
    decreases |lines|
  {
    hide GoodState, Step;
    if lines != [] && !s.done {
      StepKeepsGood(s, lines[0], header);
      ScanKeepsGood(Step(s, lines[0], header), lines[1..], header);
    }
  }

  /** Every section the parser returns has a trimmed title of one line and at least one item, and every item
      is trimmed, of one line and not empty. */
  lemma ParsedSectionsAreGood(content: string, version: string)
    ensures var r := Parse(content, version);
      r.Ok? ==> r.sections != [] && forall i :: 0 <= i < |r.sections| ==> GoodSection(r.sections[i])
  {
    hide Scan, Flush, SplitLines, DropCRs, GoodText;
    var lines := SplitLines(DropCRs(content));
    SplitHasNoNewline(DropCRs(content));
    ScanKeepsGood(START, lines, SectionHeader(version));
    FlushKeepsGood(Scan(START, lines, SectionHeader(version)));
  }

  // ---- The printer ----

  function ItemLines(items: seq<string>): seq<string> {
    if items == [] then [] else ["- " + items[0]] + ItemLines(items[1..])
  }

  /** A section as lines, with an empty line between two sections. */
  function SectionLines(sections: seq<Section>): seq<string> {
    if sections == [] then []
    else
      ["### " + sections[0].title] + ItemLines(sections[0].items)
      + (if |sections| == 1 then [] else [""]) + SectionLines(sections[1..])
  }

  function NoteLines(version: string, sections: seq<Section>): seq<string> {
    ["## Noderax Agent " + version, ""] + SectionLines(sections)
  }

  method RenderItems(items: seq<string>, before: string) returns (text: string)
    ensures text == before + Unlines(ItemLines(items))
  {
    text := before;
    var k := 0;
    while k < |items|
      invariant 0 <= k <= |items|
      invariant text + Unlines(ItemLines(items[k..])) == before + Unlines(ItemLines(items))
    {
      assert items[k..][1..] == items[k + 1..];
      UnlinesAppend(["- " + items[k]], ItemLines(items[k + 1..]));
      UnlinesOne("- " + items[k]);
      text := text + "- " + items[k] + "\n";
      k := k + 1;
    }
  }

  method RenderReleaseNotesMarkdown(version: string, sections: seq<Section>) returns (text: string)
    ensures text == Unlines(NoteLines(version, sections))
  {
    hide SectionLines, ItemLines, Unlines;
    text := "## Noderax Agent " + version + "\n\n";
    NotesStart(version, sections);
    var index := 0;
    while index < |sections|
      invariant 0 <= index <= |sections|
      invariant text + Unlines(SectionLines(sections[index..])) == Unlines(NoteLines(version, sections))
    {
      var section := sections[index];
      SectionUnfold(sections[index..]);
      assert sections[index..][1..] == sections[index + 1..];
      text := RenderItems(section.items, text + "### " + section.title + "\n");
      if index < |sections| - 1 {
        text := text + "\n";
      }
      index := index + 1;
    }
    assert sections[index..] == [];
    NothingLeft();
  }

  lemma NothingLeft()
    ensures Unlines(SectionLines([])) == ""
  {}

  lemma NotesStart(version: string, sections: seq<Section>)
    ensures sections[0..] == sections
    ensures Unlines(NoteLines(version, sections)) ==
      "## Noderax Agent " + version + "\n\n" + Unlines(SectionLines(sections))
  {
    var first := "## Noderax Agent " + version;
    UnlinesAppend([first, ""], SectionLines(sections));
    UnlinesAppend([first], [""]);
    assert [first] + [""] == [first, ""];
    UnlinesOne(first);
    UnlinesOne("");
  }

  lemma SectionUnfold(sections: seq<Section>)
    requires sections != []
    ensures Unlines(SectionLines(sections)) ==
      "### " + sections[0].title + "\n" + Unlines(ItemLines(sections[0].items))
      + (if |sections| == 1 then "" else "\n") + Unlines(SectionLines(sections[1..]))
  {
    hide Unlines, ItemLines;
    var gap := if |sections| == 1 then [] else [""];
    GapText(|sections| == 1);
    var head, items, rest := "### " + sections[0].title, ItemLines(sections[0].items), SectionLines(sections[1..]);
    assert SectionLines(sections) == [head] + items + gap + rest;
    hide SectionLines;
    UnlinesFour(head, items, gap, rest);
  }

  lemma GapText(last: bool)
    ensures Unlines(if last then [] else [""]) == if last then "" else "\n"
  {
    UnlinesOne("");
    UnlinesNone();
  }

  /** The notes as text: a heading with the version, an empty line, and then for each section its title and its
      items, with an empty line between two sections. */
  lemma NotesText(version: string, sections: seq<Section>)
    ensures Unlines(NoteLines(version, sections)) ==
      "## Noderax Agent " + version + "\n\n" + Unlines(SectionLines(sections))
    ensures Unlines(SectionLines(sections)) ==
      if sections == [] then ""
      else "### " + sections[0].title + "\n" + Unlines(ItemLines(sections[0].items))
           + (if |sections| == 1 then "" else "\n") + Unlines(SectionLines(sections[1..]))
  {
    NotesStart(version, sections);
    if sections != [] { SectionUnfold(sections); }
  }

  lemma {:induction false} ItemsText(items: seq<string>)
    ensures items == [] ==> Unlines(ItemLines(items)) == ""
    ensures items != [] ==> Unlines(ItemLines(items)) == "- " + items[0] + "\n" + Unlines(ItemLines(items[1..]))
  {
    if items != [] {
      UnlinesAppend(["- " + items[0]], ItemLines(items[1..]));
      UnlinesOne("- " + items[0]);
    }
  }

  lemma UnlinesFour(head: string, items: seq<string>, gap: seq<string>, rest: seq<string>)
    ensures Unlines([head] + items + gap + rest) == head + "\n" + Unlines(items) + Unlines(gap) + Unlines(rest)
  {
    hide Unlines;
    UnlinesOne(head);
    UnlinesAppend([head] + items + gap, rest);
    UnlinesAppend([head] + items, gap);
    UnlinesAppend([head], items);
  }

  lemma UnlinesNone()
    ensures Unlines([]) == ""
  {}

  // ---- Reading back what was printed ----

  /** A line with a prefix and good text after it is left alone by both trims. */
  lemma GoodLine(prefix: string, text: string)
    requires GoodText(text) && prefix != "" && !IsSpace(prefix[0])
    ensures TrimBlanks(prefix + text) == prefix + text == TrimSpace(prefix + text)
    ensures HasPrefix(prefix + text, prefix) && (prefix + text)[|prefix|..] == text
    ensures ChopCR(prefix + text) == prefix + text
    ensures TrimSpace(text) == text
    ensures '\n' !in prefix ==> '\n' !in prefix + text
  {
    var line := prefix + text;
    assert line[|line| - 1] == text[|text| - 1];
    assert line[0] == prefix[0];
    LineEndIsKept(line);
    hide IsSpace, TrimSpace, TrimBlanks;
    TrimmedStays(line);
    TrimmedStays(text);
  }

  lemma LineEndIsKept(line: string)
    requires line != "" && !IsSpace(line[|line| - 1])
    ensures TrimBlanks(line) == line && ChopCR(line) == line
  {}

  lemma ReadItem(s: State, item: string, header: string)
    requires s.inRelease && !s.done && GoodText(item) && GoodText(s.current.title)
    ensures Step(s, "- " + item, header) == s.(current := s.current.(items := s.current.items + [item]))
  {
    var line := "- " + item;
    assert line[0] == '-' && "- "[0] == '-';
    GoodLine("- ", item);
    GoodIsNotBlank(s.current.title);
    hide IsSpace, TrimSpace, TrimBlanks, Blank, HasPrefix;
    NotPrefix(line, "## [", 0);
    NotPrefix(line, "### ", 0);
  }

  lemma {:induction false} ReadItems(s: State, items: seq<string>, rest: seq<string>, header: string)
    requires s.inRelease && !s.done && GoodText(s.current.title)
    requires forall i :: 0 <= i < |items| ==> GoodText(items[i])
    ensures Scan(s, ItemLines(items) + rest, header) ==
      Scan(s.(current := s.current.(items := s.current.items + items)), rest, header)
    decreases |items|
  {
    hide Step, GoodText;
    if items == [] {
      assert ItemLines(items) + rest == rest;
      assert s.current.items + items == s.current.items;
    } else {
      ReadItem(s, items[0], header);
      assert ItemLines(items) + rest == ["- " + items[0]] + (ItemLines(items[1..]) + rest);
      ScanOne(s, "- " + items[0], ItemLines(items[1..]) + rest, header);
      var t := Step(s, "- " + items[0], header);
      ReadItems(t, items[1..], rest, header);
      assert t.current.items + items[1..] == s.current.items + items;
    }
  }

  lemma ReadTitle(s: State, title: string, header: string)
    requires s.inRelease && !s.done && GoodText(title)
    ensures Step(s, "### " + title, header) == Flush(s).(current := Section(title, []))
  {
    var line := "### " + title;
    assert line[2] == '#' && "## ["[2] == ' ' && "### "[0] == '#';
    GoodLine("### ", title);
    hide IsSpace, TrimSpace, TrimBlanks, HasPrefix, Flush;
    NotPrefix(line, "## [", 2);
  }

  lemma ReadEmpty(s: State, header: string)
    requires s.inRelease && !s.done
    ensures Step(s, "", header) == s
  {
    assert TrimSpace("") == "" == TrimBlanks("");
    hide TrimSpace, TrimBlanks, Flush;
    assert !HasPrefix("", "## [") && !HasPrefix("", "### ") && !IsBullet("");
  }

  lemma NothingToScan(s: State, header: string)
    ensures Scan(s, SectionLines([]), header) == s
  {}

  lemma SectionLinesStep(sections: seq<Section>)
    requires sections != []
    ensures SectionLines(sections) ==
      ["### " + sections[0].title]
      + (ItemLines(sections[0].items) + ((if |sections| == 1 then [] else [""]) + SectionLines(sections[1..])))
  {
    hide ItemLines;
    var gap := if |sections| == 1 then [] else [""];
    Reassociate(["### " + sections[0].title], ItemLines(sections[0].items), gap, SectionLines(sections[1..]));
  }

  lemma Reassociate(a: seq<string>, b: seq<string>, c: seq<string>, d: seq<string>)
    ensures a + b + c + d == a + (b + (c + d))
  {}

  lemma {:induction false} ReadSections(s: State, sections: seq<Section>, header: string)
    requires s.inRelease && !s.done && GoodState(s)
    requires forall i :: 0 <= i < |sections| ==> GoodSection(sections[i])
    ensures Flush(Scan(s, SectionLines(sections), header)).sections == Flush(s).sections + sections
    decreases |sections|
  {
    hide Step, Flush, Scan, GoodText, SectionLines, ItemLines;
    if sections == [] {
      NothingToScan(s, header);
      assert Flush(s).sections + sections == Flush(s).sections;
    } else {
      var x := sections[0];
      var rest := SectionLines(sections[1..]);
      var t := ReadSection(s, x, (if |sections| == 1 then [] else [""]) + rest, header);
      SectionLinesStep(sections);
      if |sections| == 1 {
        assert [] + rest == rest;
      } else {
        ReadEmpty(t, header);
        ScanOne(t, "", rest, header);
      }
      ReadSections(t, sections[1..], header);
      assert Flush(t).sections == Flush(s).sections + [x];
      assert Flush(s).sections + [x] + sections[1..] == Flush(s).sections + sections;
    }
  }

  lemma ReadSection(s: State, x: Section, rest: seq<string>, header: string) returns (t: State)
    requires s.inRelease && !s.done && GoodState(s) && GoodSection(x)
    ensures Scan(s, ["### " + x.title] + (ItemLines(x.items) + rest), header) == Scan(t, rest, header)
    ensures t.inRelease && !t.done && GoodState(t)
    ensures Flush(t).sections == Flush(s).sections + [x]
  {
    hide Step, Flush, GoodText, Scan, ItemLines;
    FlushKeepsGood(s);
    ReadTitle(s, x.title, header);
    ScanOne(s, "### " + x.title, ItemLines(x.items) + rest, header);
    var u := Flush(s).(current := Section(x.title, []));
    ReadItems(u, x.items, rest, header);
    assert [] + x.items == x.items;
    t := u.(current := x);
    TitleNotEmpty(x.title);
    FlushKeepsGood(t);
  }

  lemma TitleNotEmpty(t: string)
    requires GoodText(t)
    ensures t != ""
  {}

  lemma BlanksKeepFront(line: string, n: nat)
    requires 0 < n <= |line| && !IsSpace(line[n - 1])
    ensures n <= |TrimBlanks(line)| <= |line| && TrimBlanks(line) == line[..|TrimBlanks(line)|]
  {
    hide TrimBlanks;
    TrimBlanksMeaning(line);
    assert line[n - 1] !in {' ', '\t'};
  }

  /** A line that begins with text up to a visible character keeps that text under both trims. */
  lemma TrimKeepsFront(line: string, n: nat)
    requires 0 < n <= |line| && !IsSpace(line[0]) && !IsSpace(line[n - 1])
    ensures HasPrefix(TrimSpace(TrimBlanks(line)), line[..n])
  {
    hide IsSpace, TrimSpace, TrimBlanks;
    var cut := TrimBlanks(line);
    BlanksKeepFront(line, n);
    assert cut[n - 1] == line[n - 1] && cut[0] == line[0];
    var i, j := TrimSpaceMeaning(cut);
    assert i == 0 && j >= n;
    assert cut[0..j][..n] == line[..n];
  }

  /** The heading of the notes, which is not a changelog heading, is passed over. */
  lemma ReadHeading(s: State, line: string, header: string)
    requires s.inRelease && !s.done && s.current == EMPTY
    requires HasPrefix(line, "## Noderax Agent")
    ensures Step(s, line, header) == s
  {
    var p := "## Noderax Agent";
    PrefixAt(line, p, 0);
    PrefixAt(line, p, 15);
    TrimKeepsFront(line, 16);
    var trimmed := TrimSpace(TrimBlanks(line));
    assert line[..16] == p;
    hide IsSpace, TrimSpace, TrimBlanks;
    PrefixAt(trimmed, p, 0);
    PrefixAt(trimmed, p, 2);
    PrefixAt(trimmed, p, 3);
    hide HasPrefix, Flush;
    NotPrefix(trimmed, "## [", 3);
    NotPrefix(trimmed, "### ", 2);
    NotPrefix(trimmed, "- ", 0);
    NotPrefix(trimmed, "* ", 0);
  }

  lemma ReadHeader(version: string)
    requires '\n' !in version
    ensures var h := SectionHeader(version);
      && ChopCR(h) == h && '\n' !in h
      && Step(START, h, h) == START.(inRelease := true)
  {
    var h := SectionHeader(version);
    assert h[0] == '#' && h[|h| - 1] == ']';
    assert h[..4] == "## [";
    assert TrimBlanks(h) == h;
    TrimmedStays(h);
  }

  // ---- The version of a parsed changelog ----

  lemma {:induction false} NotInRelease(s: State, lines: seq<string>, header: string)
    requires !s.inRelease && !s.done
    requires forall i :: 0 <= i < |lines| ==> !StartsRelease(TrimSpace(TrimBlanks(lines[i])), header)
    ensures Scan(s, lines, header) == s
    decreases |lines|
  {
    if lines != [] {
      assert Step(s, lines[0], header) == s;
      NotInRelease(s, lines[1..], header);
    }
  }

  lemma ParsedVersionIsOneLine(content: string, version: string)
    requires Parse(content, version).Ok?
    ensures '\n' !in version
  {
    hide TrimSpace, TrimBlanks, SplitLines, DropCRs, Scan;
    var header := SectionHeader(version);
    var lines := SplitLines(DropCRs(content));
    SplitHasNoNewline(DropCRs(content));
    if k :| 0 <= k < |version| && version[k] == '\n' {
      assert header[k + 4] == '\n' && (header + " ")[k + 4] == '\n';
      forall i | 0 <= i < |lines| ensures !StartsRelease(TrimSpace(TrimBlanks(lines[i])), header) {
        CutLine(lines[i]);
        NotPrefix(TrimSpace(TrimBlanks(lines[i])), header + " ", k + 4);
      }
      NotInRelease(START, lines, header);
      assert false;
    }
  }

  // ---- The theorems ----

  lemma {:induction false} ItemLinesClean(items: seq<string>)
    requires forall i :: 0 <= i < |items| ==> GoodText(items[i])
    ensures forall i :: 0 <= i < |ItemLines(items)| ==>
      '\n' !in ItemLines(items)[i] && ChopCR(ItemLines(items)[i]) == ItemLines(items)[i]
  {
    if items != [] {
      assert "- "[0] == '-';
      GoodLine("- ", items[0]);
      hide ChopCR, GoodText;
      ItemLinesClean(items[1..]);
    }
  }

  lemma {:induction false} SectionLinesClean(sections: seq<Section>)
    requires forall i :: 0 <= i < |sections| ==> GoodSection(sections[i])
    ensures forall i :: 0 <= i < |SectionLines(sections)| ==>
      '\n' !in SectionLines(sections)[i] && ChopCR(SectionLines(sections)[i]) == SectionLines(sections)[i]
  {
    if sections != [] {
      assert "### "[0] == '#';
      GoodLine("### ", sections[0].title);
      assert ChopCR("") == "";
      hide ChopCR, GoodText;
      ItemLinesClean(sections[0].items);
      SectionLinesClean(sections[1..]);
    }
  }

  /** The lines that the parser sees of printed notes under their version's header. */
  lemma PrintedLines(version: string, sections: seq<Section>) returns (heading: string)
    requires '\n' !in version && forall i :: 0 <= i < |sections| ==> GoodSection(sections[i])
    ensures HasPrefix(heading, "## Noderax Agent")
    ensures SplitLines(DropCRs(Unlines([SectionHeader(version)] + NoteLines(version, sections)))) ==
      [SectionHeader(version), heading, ""] + SectionLines(sections) + [""]
  {
    hide SectionLines, Unlines, DropCRs, SplitLines;
    var h := SectionHeader(version);
    var first := "## Noderax Agent " + version;
    heading := ChopCR(first);
    assert first[..16] == "## Noderax Agent" && |first| >= 17;
    assert heading[..16] == first[..16];
    var lines := [h] + NoteLines(version, sections);
    SectionLinesClean(sections);
    ReadHeader(version);
    assert '\n' !in first;
    var body := SectionLines(sections);
    forall i | 0 <= i < |lines| ensures '\n' !in lines[i] {
      if i >= 3 { assert lines[i] == body[i - 3]; }
    }
    LinesBack(lines);
    var chopped := seq(|lines|, i requires 0 <= i < |lines| => ChopCR(lines[i]));
    var expected := [h, heading, ""] + body;
    forall i | 0 <= i < |lines| ensures chopped[i] == expected[i] {
      if i >= 3 { assert lines[i] == body[i - 3]; }
    }
    assert chopped == expected;
  }

  lemma ScanLast(s: State, lines: seq<string>, header: string)
    requires s.inRelease && !s.done
    ensures Flush(Scan(s, lines + [""], header)).sections == Flush(Scan(s, lines, header)).sections
    decreases |lines|
  {
    if lines == [] {
      assert lines + [""] == [""] && [""][1..] == [];
      ReadEmpty(s, header);
    } else {
      assert (lines + [""])[1..] == lines[1..] + [""];
      var t := Step(s, lines[0], header);
      if !t.done { ScanLast(t, lines[1..], header); }
    }
  }

  /** Printing good sections and reading them back under the same version returns them. */
  lemma PrintThenParse(version: string, sections: seq<Section>)
    requires '\n' !in version && sections != []
    requires forall i :: 0 <= i < |sections| ==> GoodSection(sections[i])
    ensures Parse(SectionHeader(version) + "\n" + Unlines(NoteLines(version, sections)), version) == Ok(sections)
  {
    hide SectionLines, Step;
    var h := SectionHeader(version);
    assert SectionHeader(version) + "\n" + Unlines(NoteLines(version, sections))
      == Unlines([h] + NoteLines(version, sections)) by {
      UnlinesAppend([h], NoteLines(version, sections));
      UnlinesOne(h);
    }
    hide Unlines, DropCRs, SplitLines;
    var heading := PrintedLines(version, sections);
    var body := SectionLines(sections) + [""];
    var lines := [h, heading, ""] + SectionLines(sections) + [""];
    assert lines == [h] + ([heading] + ([""] + body));
    var s := START.(inRelease := true);
    ReadHeader(version);
    ReadHeading(s, heading, h);
    ReadEmpty(s, h);
    ScanOne(START, h, [heading] + ([""] + body), h);
    ScanOne(s, heading, [""] + body, h);
    ScanOne(s, "", body, h);
    ScanLast(s, SectionLines(sections), h);
    ReadSections(s, sections, h);
    assert Flush(s).sections + sections == sections;
  }

  lemma ScanOne(s: State, line: string, rest: seq<string>, header: string)
    requires !s.done
    ensures Scan(s, [line] + rest, header) == Scan(Step(s, line, header), rest, header)
  {
    assert ([line] + rest)[1..] == rest;
  }

  /** Fixed point: whatever changelog and version parse, the printed notes under that version's header parse
      again to the same sections. */
  lemma ParsePrintParse(content: string, version: string)
    ensures var r := Parse(content, version);
      r.Ok? ==> Parse(SectionHeader(version) + "\n" + Unlines(NoteLines(version, r.sections)), version) == r
  {
    hide Unlines, DropCRs, SplitLines;
    var r := Parse(content, version);
    if r.Ok? {
      ParsedSectionsAreGood(content, version);
      ParsedVersionIsOneLine(content, version);
      PrintThenParse(version, r.sections);
    }
  }

  predicate ReleaseLine(line: string) {
    HasPrefix(TrimSpace(TrimBlanks(line)), "## [")
  }

  lemma {:induction false} ScanAppend(s: State, a: seq<string>, b: seq<string>, header: string)
    ensures Scan(s, a + b, header) == Scan(Scan(s, a, header), b, header)
    decreases |a|
  {
    if a == [] {
      assert a + b == b;
    } else if !s.done {
      assert (a + b)[1..] == a[1..] + b;
      ScanAppend(Step(s, a[0], header), a[1..], b, header);
    }
  }

  lemma {:induction false} StaysInRelease(s: State, lines: seq<string>, header: string)
    requires s.inRelease && !s.done && forall i :: 0 <= i < |lines| ==> !ReleaseLine(lines[i])
    ensures Scan(s, lines, header).inRelease && !Scan(s, lines, header).done
    decreases |lines|
  {
    if lines != [] { StaysInRelease(Step(s, lines[0], header), lines[1..], header); }
  }

  /** Releases are kept apart: what stands before a release's first header, and from the next release header
      on, has no influence on what is parsed for it. */
  lemma OnlyOwnRelease(before: seq<string>, own: string, body: seq<string>, next: string, after: seq<string>,
                       header: string)
    requires forall i :: 0 <= i < |before| ==> !StartsRelease(TrimSpace(TrimBlanks(before[i])), header)
    requires forall i :: 0 <= i < |body| ==> !ReleaseLine(body[i])
    requires ReleaseLine(own) && StartsRelease(TrimSpace(TrimBlanks(own)), header) && ReleaseLine(next)
    ensures ParseLines(before + ([own] + body) + ([next] + after), header) == ParseLines([own] + body, header)
  {
    var s := START.(inRelease := true);
    NotInRelease(START, before, header);
    ScanAppend(START, before, [own] + body, header);
    ScanAppend(START, before + ([own] + body), [next] + after, header);
    ScanOne(START, own, body, header);
    StaysInRelease(s, body, header);
    var t := Scan(s, body, header);
    ScanOne(t, next, after, header);
    assert Flush(Flush(t).(done := true)).sections == Flush(t).sections;
  }
}

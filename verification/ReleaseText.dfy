/** What the changelog parser makes of a changelog as people write it: other releases before and after, a date
    behind the version, either kind of bullet, continuation lines, bullets without a title, and lines that
    belong to nothing. The texts are described by what is written, and the sections by what is meant. */
module ReleaseText {
  import opened Text
  import opened Changelog

  /** A continuation line. */
  datatype More = More(indent: string, text: string)

  /** A bullet with the lines that continue it and the lines up to the next bullet or title. */
  datatype Bullet = Bullet(indent: string, star: bool, text: string, more: seq<More>, noise: seq<string>)

  datatype Part = Part(title: string, noise: seq<string>, bullets: seq<Bullet>)

  // ---- What is written ----

  predicate White(s: string) {
    forall k :: 0 <= k < |s| ==> IsSpace(s[k]) && s[k] != '\n'
  }

  /** Text that begins like no title, bullet or release. */
  predicate Plain(t: string) {
    GoodText(t) && !HasPrefix(t, "## [") && !HasPrefix(t, "### ") && !HasPrefix(t, "- ") && !HasPrefix(t, "* ")
  }

  predicate Indented(s: string) {
    HasPrefix(s, "  ") || HasPrefix(s, "\t")
  }

  /** A blank line, or plain text that continues nothing. */
  predicate Noise(line: string) {
    '\n' !in line && (TrimSpace(line) == "" || (Plain(TrimSpace(line)) && !Indented(line)))
  }

  predicate AllNoise(lines: seq<string>) {
    forall i :: 0 <= i < |lines| ==> Noise(lines[i])
  }

  predicate GoodMore(m: More) {
    White(m.indent) && Indented(m.indent) && Plain(m.text)
  }

  predicate GoodBullet(b: Bullet) {
    && White(b.indent) && GoodText(b.text) && AllNoise(b.noise)
    && forall i :: 0 <= i < |b.more| ==> GoodMore(b.more[i])
  }

  predicate GoodBullets(bs: seq<Bullet>) {
    forall i :: 0 <= i < |bs| ==> GoodBullet(bs[i])
  }

  predicate GoodParts(ps: seq<Part>) {
    forall i :: 0 <= i < |ps| ==> GoodText(ps[i].title) && AllNoise(ps[i].noise) && GoodBullets(ps[i].bullets)
  }

  function MoreLines(more: seq<More>): seq<string> {
    if more == [] then [] else [more[0].indent + more[0].text] + MoreLines(more[1..])
  }

  function BulletLine(b: Bullet): string {
    b.indent + ((if b.star then "* " else "- ") + b.text)
  }

  function BulletLines(bs: seq<Bullet>): seq<string> {
    if bs == [] then []
    else [BulletLine(bs[0])] + (MoreLines(bs[0].more) + (bs[0].noise + BulletLines(bs[1..])))
  }

  function PartLines(ps: seq<Part>): seq<string> {
    if ps == [] then []
    else ["### " + ps[0].title] + (ps[0].noise + (BulletLines(ps[0].bullets) + PartLines(ps[1..])))
  }

  // ---- What is meant ----

  /** A bullet and its continuation lines are one item, joined by single blanks. */
  function Joined(text: string, more: seq<More>): string
    decreases |more|
  {
    if more == [] then text else Joined(text + " " + more[0].text, more[1..])
  }

  function ItemsOf(bs: seq<Bullet>): seq<string> {
    if bs == [] then [] else [Joined(bs[0].text, bs[0].more)] + ItemsOf(bs[1..])
  }

  /** A title without bullets is no section. */
  function PartSections(ps: seq<Part>): seq<Section> {
    if ps == [] then []
    else (if ps[0].bullets == [] then [] else [Section(ps[0].title, ItemsOf(ps[0].bullets))]) + PartSections(ps[1..])
  }

  /** Bullets before any title are notes. */
  function SectionsOf(loose: seq<Bullet>, ps: seq<Part>): seq<Section> {
    (if loose == [] then [] else [Section("Notes", ItemsOf(loose))]) + PartSections(ps)
  }

  // ---- Line by line ----

  /** The two trims of a line are one. */
  lemma TrimTwice(line: string)
    ensures TrimSpace(TrimBlanks(line)) == TrimSpace(line)
  {
    TrimBlanksMeaning(line);
    var cut := TrimBlanks(line);
    BlanksAreSpace();
    hide IsSpace, TrimSpace, TrimBlanks;
    var i, j := TrimSpaceMeaning(cut);
    var m, b := cut[i..j], cut[j..] + line[|cut|..];
    assert line == cut[..i] + m + b;
    forall k | 0 <= k < |b| ensures IsSpace(b[k]) {
      if k >= |cut| - j { assert b[k] == line[j + k]; }
    }
    TrimSpaceIs(cut[..i], m, b);
  }

  lemma BlanksAreSpace()
    ensures IsSpace(' ') && IsSpace('\t')
  {}

  lemma TrimIndent(indent: string, t: string)
    requires White(indent) && GoodText(t)
    ensures TrimSpace(indent + t) == t && TrimBlanks(indent + t) == indent + t
  {
    var line := indent + t;
    assert line[|line| - 1] == t[|t| - 1];
    BlanksAreSpace();
    hide IsSpace, TrimSpace;
    TrimSpaceIs(indent, t, "");
    assert indent + t + "" == line;
  }

  predicate Reading(s: State) {
    s.inRelease && !s.done && (s.current.title == "" || GoodText(s.current.title))
  }

  function TitleOf(s: State): string {
    if s.current.title == "" then "Notes" else s.current.title
  }

  lemma MarkedIsGood(mark: string, text: string)
    requires (mark == "- " || mark == "* ") && GoodText(text)
    ensures var t := mark + text;
      GoodText(t) && IsBullet(t) && t[2..] == text && t[0] in {'-', '*'} && BulletItem(t) == text
  {
    var t := mark + text;
    assert t[0] == mark[0] && t[|t| - 1] == text[|text| - 1] && t[..2] == mark;
    TrimmedStays(text);
  }

  lemma ReadBullet(s: State, b: Bullet, header: string)
    requires Reading(s) && White(b.indent) && GoodText(b.text)
    ensures Step(s, BulletLine(b), header) ==
      s.(current := Section(TitleOf(s), s.current.items + [b.text]))
  {
    var t := (if b.star then "* " else "- ") + b.text;
    MarkedIsGood(if b.star then "* " else "- ", b.text);
    TitleBlank(s);
    hide GoodText, IsSpace, TrimSpace, TrimBlanks, Blank, HasPrefix, IsBullet;
    TrimIndent(b.indent, t);
    NotPrefix(t, "## [", 0);
    NotPrefix(t, "### ", 0);
  }

  lemma TitleBlank(s: State)
    requires Reading(s)
    ensures Blank(s.current.title) <==> s.current.title == ""
  {
    if s.current.title != "" { GoodIsNotBlank(s.current.title); } else { NothingIsBlank(); }
  }

  /** The last item is what it is, and more is added to it. */
  predicate HasLast(s: State, item: string) {
    s.current.items != [] && s.current.items[|s.current.items| - 1] == item && GoodText(item)
  }

  function WithLast(s: State, item: string): State
    requires s.current.items != []
  {
    s.(current := s.current.(items := s.current.items[|s.current.items| - 1 := item]))
  }

  lemma JoinedIsGood(item: string, t: string)
    requires GoodText(item) && GoodText(t)
    ensures GoodText(item + " " + t) && TrimSpace(item + " " + t) == item + " " + t
  {
    var joined := item + " " + t;
    assert joined[0] == item[0] && joined[|joined| - 1] == t[|t| - 1];
    TrimmedStays(joined);
  }

  lemma ReadMore(s: State, m: More, item: string, header: string)
    requires Reading(s) && HasLast(s, item) && GoodMore(m)
    ensures Step(s, m.indent + m.text, header) == WithLast(s, item + " " + m.text)
    ensures GoodText(item + " " + m.text)
  {
    var line := m.indent + m.text;
    JoinedIsGood(item, m.text);
    TrimIndent(m.indent, m.text);
    assert m.text != "";
    FrontIndented(m.indent, m.text);
    hide GoodText, IsSpace, TrimSpace, TrimBlanks, Blank, HasPrefix, Trimmed;
  }

  lemma FrontIndented(indent: string, t: string)
    requires Indented(indent)
    ensures Indented(indent + t)
  {
    var line := indent + t;
    if HasPrefix(indent, "  ") { assert line[..2] == indent[..2]; } else { assert line[..1] == indent[..1]; }
  }

  lemma {:induction false} ReadAllMore(s: State, more: seq<More>, item: string, rest: seq<string>, header: string)
    requires Reading(s) && HasLast(s, item) && forall i :: 0 <= i < |more| ==> GoodMore(more[i])
    ensures Scan(s, MoreLines(more) + rest, header) == Scan(WithLast(s, Joined(item, more)), rest, header)
    decreases |more|
  {
    hide Step, GoodText, GoodMore;
    if more == [] {
      assert MoreLines(more) + rest == rest;
      assert WithLast(s, item) == s;
    } else {
      ReadMore(s, more[0], item, header);
      var t := WithLast(s, item + " " + more[0].text);
      assert MoreLines(more) + rest == [more[0].indent + more[0].text] + (MoreLines(more[1..]) + rest);
      ScanOne(s, more[0].indent + more[0].text, MoreLines(more[1..]) + rest, header);
      ReadAllMore(t, more[1..], item + " " + more[0].text, rest, header);
      assert WithLast(t, Joined(item, more)) == WithLast(s, Joined(item, more));
    }
  }

  lemma ReadNoise(s: State, line: string, header: string)
    requires Reading(s) && Noise(line)
    ensures Step(s, line, header) == s
  {
    TrimTwice(line);
    TrimBlanksMeaning(line);
    if Indented(TrimBlanks(line)) { FrontIndented(TrimBlanks(line), line[|TrimBlanks(line)|..]); }
    assert TrimBlanks(line) + line[|TrimBlanks(line)|..] == line;
    NothingStarts();
    hide GoodText, IsSpace, TrimSpace, TrimBlanks, Blank, HasPrefix;
  }

  lemma NothingStarts()
    ensures !HasPrefix("", "## [") && !HasPrefix("", "### ") && !HasPrefix("", "- ") && !HasPrefix("", "* ")
  {}

  lemma {:induction false} ReadAllNoise(s: State, lines: seq<string>, rest: seq<string>, header: string)
    requires Reading(s) && AllNoise(lines)
    ensures Scan(s, lines + rest, header) == Scan(s, rest, header)
    decreases |lines|
  {
    hide Step, Noise, GoodText;
    if lines == [] {
      assert lines + rest == rest;
    } else {
      ReadNoise(s, lines[0], header);
      assert lines + rest == [lines[0]] + (lines[1..] + rest);
      ScanOne(s, lines[0], lines[1..] + rest, header);
      ReadAllNoise(s, lines[1..], rest, header);
    }
  }

  /** The state after some bullets. */
  function WithItems(s: State, items: seq<string>): State {
    if items == [] then s else s.(current := Section(TitleOf(s), s.current.items + items))
  }

  lemma ReadOneBullet(s: State, b: Bullet, rest: seq<string>, header: string)
    requires Reading(s) && GoodBullet(b)
    ensures Scan(s, [BulletLine(b)] + (MoreLines(b.more) + (b.noise + rest)), header)
      == Scan(WithItems(s, [Joined(b.text, b.more)]), rest, header)
    ensures Reading(WithItems(s, [Joined(b.text, b.more)]))
  {
    GoodNotes();
    ReadBullet(s, b, header);
    hide Step, GoodText, GoodMore, White, AllNoise, Scan;
    var t := s.(current := Section(TitleOf(s), s.current.items + [b.text]));
    var u := WithItems(s, [Joined(b.text, b.more)]);
    ScanOne(s, BulletLine(b), MoreLines(b.more) + (b.noise + rest), header);
    ReadAllMore(t, b.more, b.text, b.noise + rest, header);
    assert WithLast(t, Joined(b.text, b.more)) == u;
    ReadAllNoise(u, b.noise, rest, header);
  }

  lemma {:induction false} ReadBullets(s: State, bs: seq<Bullet>, rest: seq<string>, header: string)
    requires Reading(s) && GoodBullets(bs)
    ensures Scan(s, BulletLines(bs) + rest, header) == Scan(WithItems(s, ItemsOf(bs)), rest, header)
    ensures Reading(WithItems(s, ItemsOf(bs)))
    decreases |bs|
  {
    hide Step, Scan, GoodText, GoodBullet;
    if bs == [] {
      assert BulletLines(bs) + rest == rest;
    } else {
      var b := bs[0];
      ReadOneBullet(s, b, BulletLines(bs[1..]) + rest, header);
      Grouped([BulletLine(b)], MoreLines(b.more), b.noise, BulletLines(bs[1..]), rest);
      var t := WithItems(s, [Joined(b.text, b.more)]);
      ReadBullets(t, bs[1..], rest, header);
      ItemsAdd(s, Joined(b.text, b.more), ItemsOf(bs[1..]));
    }
  }

  lemma ItemsAdd(s: State, item: string, items: seq<string>)
    ensures WithItems(WithItems(s, [item]), items) == WithItems(s, [item] + items)
  {
    assert s.current.items + [item] + items == s.current.items + ([item] + items);
  }

  lemma Grouped(a: seq<string>, b: seq<string>, c: seq<string>, d: seq<string>, rest: seq<string>)
    ensures (a + (b + (c + d))) + rest == a + (b + (c + (d + rest)))
  {}

  /** What a state will have once its current section is flushed. */
  lemma FlushGives(s: State)
    requires Reading(s) && (s.current.title == "" ==> s.current.items == [])
    ensures Flush(s).sections == s.sections + if s.current.items == [] then [] else [s.current]
    ensures Flush(s).inRelease && !Flush(s).done
  {
    TitleBlank(s);
  }

  predicate Ready(s: State) {
    Reading(s) && (s.current.title == "" ==> s.current.items == [])
  }

  lemma ReadPart(s: State, p: Part, rest: seq<string>, header: string) returns (t: State)
    requires Ready(s) && GoodText(p.title) && AllNoise(p.noise) && GoodBullets(p.bullets)
    ensures Scan(s, ["### " + p.title] + (p.noise + (BulletLines(p.bullets) + rest)), header) == Scan(t, rest, header)
    ensures Ready(t)
    ensures Flush(t).sections ==
      Flush(s).sections + if p.bullets == [] then [] else [Section(p.title, ItemsOf(p.bullets))]
  {
    hide Step, Scan, AllNoise, GoodBullets, Flush;
    ReadTitle(s, p.title, header);
    FlushGives(s);
    var u := Flush(s).(current := Section(p.title, []));
    ScanOne(s, "### " + p.title, p.noise + (BulletLines(p.bullets) + rest), header);
    ReadAllNoise(u, p.noise, BulletLines(p.bullets) + rest, header);
    ReadBullets(u, p.bullets, rest, header);
    t := WithItems(u, ItemsOf(p.bullets));
    FlushGives(t);
    assert [] + ItemsOf(p.bullets) == ItemsOf(p.bullets);
  }

  lemma {:induction false} ReadParts(s: State, ps: seq<Part>, rest: seq<string>, header: string) returns (t: State)
    requires Ready(s) && GoodParts(ps)
    ensures Scan(s, PartLines(ps) + rest, header) == Scan(t, rest, header)
    ensures Ready(t) && Flush(t).sections == Flush(s).sections + PartSections(ps)
    decreases |ps|
  {
    hide Step, Scan, Flush, AllNoise, GoodBullets, GoodText, Ready;
    if ps == [] {
      assert PartLines(ps) + rest == rest;
      t := s;
    } else {
      var p := ps[0];
      var u := ReadPart(s, p, PartLines(ps[1..]) + rest, header);
      Grouped(["### " + p.title], p.noise, BulletLines(p.bullets), PartLines(ps[1..]), rest);
      t := ReadParts(u, ps[1..], rest, header);
      var one := if p.bullets == [] then [] else [Section(p.title, ItemsOf(p.bullets))];
      assert Flush(s).sections + one + PartSections(ps[1..]) == Flush(s).sections + (one + PartSections(ps[1..]));
    }
  }

  // ---- The release header ----

  /** A line that begins with the version's header, alone or with a blank and anything behind it, starts the
      release. */
  lemma HeaderStarts(version: string, rest: string)
    requires rest == "" || rest[0] == ' '
    ensures var h := "## [" + version + "]";
      var t := TrimSpace(TrimBlanks(h + rest));
      HasPrefix(t, "## [") && StartsRelease(t, h)
  {
    hide IsSpace, TrimSpace, TrimBlanks, Trimmed;
    var h := "## [" + version + "]";
    TrimTwice(h + rest);
    var i, j := TrimSpaceMeaning(rest);
    if i == j || rest == "" {
      AllSpace(rest, i, j);
      HeaderAlone(h, rest);
    } else {
      HeaderAndMore(h, rest, i, j);
    }
  }

  lemma HeaderAlone(h: string, rest: string)
    requires HasPrefix(h, "## [") && h[|h| - 1] == ']' && forall k :: 0 <= k < |rest| ==> IsSpace(rest[k])
    ensures TrimSpace(h + rest) == h
  {
    PrefixAt(h, "## [", 0);
    assert !IsSpace(h[0]) && !IsSpace(h[|h| - 1]);
    hide IsSpace, TrimSpace;
    TrimSpaceIs("", h, rest);
    assert "" + h + rest == h + rest;
  }

  lemma HeaderAndMore(h: string, rest: string, i: nat, j: nat)
    requires HasPrefix(h, "## [") && i < j <= |rest| && rest[0] == ' ' && TrimSpace(rest) == rest[i..j]
    requires Trimmed(rest[i..j]) && forall k :: j <= k < |rest| ==> IsSpace(rest[k])
    ensures HasPrefix(TrimSpace(h + rest), "## [") && HasPrefix(TrimSpace(h + rest), h + " ")
  {
    var m := h + rest[..j];
    PrefixAt(h, "## [", 0);
    assert !IsSpace('#');
    hide IsSpace, TrimSpace;
    assert m[|m| - 1] == rest[j - 1] && rest[i..j][j - i - 1] == rest[j - 1] && m[0] == '#';
    assert forall k :: 0 <= k < |rest[j..]| ==> rest[j..][k] == rest[j + k];
    TrimSpaceIs("", m, rest[j..]);
    assert "" + m + rest[j..] == h + rest;
    assert m[..|h| + 1] == h + " ";
    assert m[..4] == h[..4];
  }

  lemma AllSpace(s: string, i: nat, j: nat)
    requires i <= j <= |s| && (i == j || s == "")
    requires forall k :: 0 <= k < |s| && (k < i || j <= k) ==> IsSpace(s[k])
    ensures forall k :: 0 <= k < |s| ==> IsSpace(s[k])
  {}

  /** A line of another release, or of anything else: it is neither the header nor the header and a blank. */
  predicate Other(line: string, version: string) {
    var t := TrimSpace(line);
    t != "## [" + version + "]" && !HasPrefix(t, "## [" + version + "] ")
  }

  lemma OtherStartsNot(line: string, version: string)
    requires Other(line, version)
    ensures !StartsRelease(TrimSpace(TrimBlanks(line)), SectionHeader(version))
  {
    TrimTwice(line);
    assert "## [" + version + "] " == SectionHeader(version) + " ";
  }

  // ---- The theorems ----

  function BodyLines(noise: seq<string>, loose: seq<Bullet>, ps: seq<Part>): seq<string> {
    noise + (BulletLines(loose) + PartLines(ps))
  }

  lemma ReadBody(noise: seq<string>, loose: seq<Bullet>, ps: seq<Part>, rest: seq<string>, header: string)
    returns (t: State)
    requires AllNoise(noise) && GoodBullets(loose) && GoodParts(ps)
    ensures Scan(START.(inRelease := true), BodyLines(noise, loose, ps) + rest, header) == Scan(t, rest, header)
    ensures Ready(t) && Flush(t).sections == SectionsOf(loose, ps)
  {
    hide Step, Scan, AllNoise, GoodBullets, GoodParts;
    var s := START.(inRelease := true);
    var bullets, parts := BulletLines(loose), PartLines(ps);
    assert BodyLines(noise, loose, ps) + rest == noise + (bullets + (parts + rest));
    ReadAllNoise(s, noise, bullets + (parts + rest), header);
    ReadBullets(s, loose, parts + rest, header);
    var u := WithItems(s, ItemsOf(loose));
    FlushGives(u);
    hide Flush, GoodText;
    t := ReadParts(u, ps, rest, header);
    assert [] + ItemsOf(loose) == ItemsOf(loose);
    assert [] + [Section("Notes", ItemsOf(loose))] == [Section("Notes", ItemsOf(loose))];
  }

  /** The parse of one release: whatever other lines stand before it, whatever follows its header behind a
      blank, and whatever comes from the next release header on, the sections are those that are written. */
  lemma ReadsRelease(version: string, before: seq<string>, rest: string, noise: seq<string>, loose: seq<Bullet>,
                     ps: seq<Part>, tail: seq<string>)
    requires forall i :: 0 <= i < |before| ==> Other(before[i], version)
    requires rest == "" || rest[0] == ' '
    requires AllNoise(noise) && GoodBullets(loose) && GoodParts(ps)
    requires tail == [] || HasPrefix(TrimSpace(tail[0]), "## [")
    ensures var lines := before + ([("## [" + version + "]") + rest] + (BodyLines(noise, loose, ps) + tail));
      var sections := SectionsOf(loose, ps);
      ParseLines(lines, "## [" + version + "]") == if sections == [] then NoStructuredSection else Ok(sections)
  {
    var header := SectionHeader(version);
    var own := header + rest;
    var body := BodyLines(noise, loose, ps);
    HeaderStarts(version, rest);
    forall i | 0 <= i < |before| ensures !StartsRelease(TrimSpace(TrimBlanks(before[i])), header) {
      OtherStartsNot(before[i], version);
    }
    NotInRelease(START, before, header);
    ScanAppend(START, before, [own] + (body + tail), header);
    ScanOne(START, own, body + tail, header);
    OwnLineStarts(own, header);
    hide Step, Scan, Flush, TrimSpace, TrimBlanks, HasPrefix, StartsRelease;
    var t := ReadBody(noise, loose, ps, tail, header);
    EndsAtTail(t, tail, header);
  }

  lemma OwnLineStarts(own: string, header: string)
    requires var t := TrimSpace(TrimBlanks(own)); HasPrefix(t, "## [") && StartsRelease(t, header)
    ensures Step(START, own, header) == START.(inRelease := true)
  {
    hide TrimSpace, TrimBlanks, HasPrefix, StartsRelease;
  }

  lemma EndsAtTail(t: State, tail: seq<string>, header: string)
    requires Ready(t) && (tail == [] || HasPrefix(TrimSpace(tail[0]), "## ["))
    ensures Flush(Scan(t, tail, header)).sections == Flush(t).sections
  {
    if tail != [] {
      TrimTwice(tail[0]);
      hide TrimSpace, TrimBlanks, HasPrefix;
      assert Step(t, tail[0], header) == Flush(t).(done := true);
    }
  }

  /** The same of the file: its lines may end in a newline or in a carriage return and a newline. */
  lemma ReadsReleaseText(version: string, before: seq<string>, rest: string, noise: seq<string>,
                         loose: seq<Bullet>, ps: seq<Part>, tail: seq<string>, raw: seq<string>)
    requires forall i :: 0 <= i < |before| ==> Other(before[i], version)
    requires rest == "" || rest[0] == ' '
    requires AllNoise(noise) && GoodBullets(loose) && GoodParts(ps)
    requires tail == [] || HasPrefix(TrimSpace(tail[0]), "## [")
    requires var lines := before + ([("## [" + version + "]") + rest] + (BodyLines(noise, loose, ps) + tail));
      && |raw| == |lines|
      && forall i :: 0 <= i < |raw| ==> '\n' !in raw[i] && lines[i] == ChopCR(raw[i])
    ensures var sections := SectionsOf(loose, ps);
      Parse(Unlines(raw), version) == if sections == [] then NoStructuredSection else Ok(sections)
  {
    var header := SectionHeader(version);
    var lines := before + ([header + rest] + (BodyLines(noise, loose, ps) + tail));
    hide ParseLines, Unlines, DropCRs, SplitLines, TrimSpace, HasPrefix, AllNoise, GoodBullets, GoodParts, BodyLines;
    hide SectionsOf, ChopCR;
    LinesBack(raw);
    assert lines == seq(|raw|, i requires 0 <= i < |raw| => ChopCR(raw[i]));
    EmptyLast(lines, header);
    ReadsRelease(version, before, rest, noise, loose, ps, tail);
  }

  /** The empty text after the last newline is no line that matters. */
  lemma EmptyLast(lines: seq<string>, header: string)
    ensures ParseLines(lines + [""], header) == ParseLines(lines, header)
  {
    ScanAppend(START, lines, [""], header);
    var s := Scan(START, lines, header);
    if !s.done {
      assert [""] + [] == [""];
      ScanOne(s, "", [], header);
      EmptyChangesNothing(s, header);
    }
  }

  lemma EmptyChangesNothing(s: State, header: string)
    requires !s.done
    ensures Step(s, "", header) == s
  {
    assert TrimSpace("") == "" == TrimBlanks("");
    NothingStarts();
    hide TrimSpace, TrimBlanks, HasPrefix;
  }
}

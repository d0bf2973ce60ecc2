/** Package mutations reach apt-get on two paths: directly, or through a request file that the agent writes
    and a root helper (a shell script) reads. The argument list must come out the same. */
module PackageRequest {
  import opened Text

  datatype Names = Ok(names: seq<string>) | EmptyName | DashName(name: string) | NoNames

  predicate Acceptable(raw: string) {
    !Blank(raw) && !HasPrefix(TrimSpace(raw), "-")
  }

  /** The first name that spoils the payload. */
  predicate FirstBad(raw: seq<string>, i: int) {
    0 <= i < |raw| && !Acceptable(raw[i]) && forall k :: 0 <= k < i ==> Acceptable(raw[k])
  }

  /** The names that `normalizePackageNames` accepts are all of them, trimmed, in order; one that is blank
      or begins with a dash spoils the payload, the first such being reported, and so does an empty list. */
  method NormalizePackageNames(package: string, packages: seq<string>, names: seq<string>) returns (r: Names)
    ensures var raw := (if package != "" then [package] else []) + packages + names;
      && (r.Ok? <==> raw != [] && forall i :: 0 <= i < |raw| ==>
            TrimSpace(raw[i]) != "" && !HasPrefix(TrimSpace(raw[i]), "-"))
      && (r.Ok? ==> |r.names| == |raw| && forall i :: 0 <= i < |raw| ==> r.names[i] == TrimSpace(raw[i]))
      && (r.Ok? ==> Normalized(r.names))
      && (r == NoNames <==> raw == [])
      && (r.DashName? ==> exists i :: FirstBad(raw, i) && TrimSpace(raw[i]) == r.name && HasPrefix(r.name, "-"))
      && (r == EmptyName ==> exists i :: FirstBad(raw, i) && Blank(raw[i]))
  {
    hide TrimSpace, Normalized;
    var rawNames: seq<string> := [];
    if package != "" {
      rawNames := rawNames + [package];
    }
    rawNames := rawNames + packages;
    rawNames := rawNames + names;
    assert rawNames == (if package != "" then [package] else []) + packages + names;
    var accepted: seq<string> := [];
    for i := 0 to |rawNames|
      invariant |accepted| == i
      invariant forall k :: 0 <= k < i ==> Acceptable(rawNames[k]) && accepted[k] == TrimSpace(rawNames[k])
    {
      var name := TrimSpace(rawNames[i]);
      if name == "" {
        assert Blank(rawNames[i]) && FirstBad(rawNames, i);
        return EmptyName;
      }
      if HasPrefix(name, "-") {
        assert FirstBad(rawNames, i);
        return DashName(name);
      }
      accepted := accepted + [name];
    }
    if accepted == [] {
      return NoNames;
    }
    NormalizedNames(rawNames, accepted);
    return Ok(accepted);
  }

  /** What `normalizePackageNames` lets through. */
  predicate Normalized(names: seq<string>) {
    && names != []
    && forall i :: 0 <= i < |names| ==> names[i] != "" && Trimmed(names[i]) && !HasPrefix(names[i], "-")
  }

  lemma NormalizedNames(raw: seq<string>, names: seq<string>)
    requires raw != [] && |names| == |raw|
    requires forall i :: 0 <= i < |raw| ==> Acceptable(raw[i]) && names[i] == TrimSpace(raw[i])
    ensures Normalized(names)
  {
    hide TrimSpace, Trimmed;
    forall i | 0 <= i < |names| ensures names[i] != "" && Trimmed(names[i]) && !HasPrefix(names[i], "-") {
      TrimSpaceTrims(raw[i]);
    }
  }

  // ---- The request file ----

  function PackageLines(packages: seq<string>): seq<string> {
    if packages == [] then []
    else (if Blank(packages[0]) then [] else [TrimSpace(packages[0])]) + PackageLines(packages[1..])
  }

  function RequestText(operation: string, packages: seq<string>): string {
    Unlines([TrimSpace(operation)] + PackageLines(packages))
  }

  method WritePackageMutationRequest(operation: string, packages: seq<string>) returns (file: string)
    ensures file == RequestText(operation, packages)
  {
    hide TrimSpace, Unlines, PackageLines, Blank;
    file := TrimSpace(operation) + "\n";
    var i := 0;
    assert packages[0..] == packages;
    UnlinesAppend([TrimSpace(operation)], PackageLines(packages));
    UnlinesOne(TrimSpace(operation));
    while i < |packages|
      invariant 0 <= i <= |packages|
      invariant file + Unlines(PackageLines(packages[i..])) == RequestText(operation, packages)
    {
      PackageLinesStep(packages, i);
      var name := TrimSpace(packages[i]);
      i := i + 1;
      if name == "" {
        continue;
      }
      UnlinesAppend([name], PackageLines(packages[i..]));
      UnlinesOne(name);
      file := file + (name + "\n");
    }
    assert packages[i..] == [];
    NothingToWrite();
  }

  lemma PackageLinesStep(packages: seq<string>, i: nat)
    requires i < |packages|
    ensures PackageLines(packages[i..]) ==
      (if TrimSpace(packages[i]) == "" then [] else [TrimSpace(packages[i])]) + PackageLines(packages[i + 1..])
    ensures TrimSpace(packages[i]) == "" ==> PackageLines(packages[i..]) == PackageLines(packages[i + 1..])
  {
    hide TrimSpace;
    assert packages[i..][1..] == packages[i + 1..];
  }

  lemma NothingToWrite()
    ensures Unlines(PackageLines([])) == ""
  {}

  /** The lines are those names that are not blank, trimmed, in order. */
  lemma {:induction false} PackageLinesMeaning(a: seq<string>, b: seq<string>)
    ensures PackageLines(a + b) == PackageLines(a) + PackageLines(b)
    ensures |a| == 1 ==> PackageLines(a) == if TrimSpace(a[0]) == "" then [] else [TrimSpace(a[0])]
    ensures a == [] ==> PackageLines(a) == []
  {
    hide TrimSpace;
    if a == [] {
      assert a + b == b;
    } else {
      assert (a + b)[1..] == a[1..] + b && (a + b)[0] == a[0];
      PackageLinesMeaning(a[1..], b);
    }
  }

  // ---- The helper ----

  datatype Helper = Exec(args: seq<string>) | Exit(code: int)

  /** The lines that `while IFS= read -r line || [ -n "${line}" ]` sees: a newline ends a line, and text
      after the last newline is a line too. */
  function ReadLines(text: string): seq<string> {
    var lines := SplitLines(text);
    if lines[|lines| - 1] == "" then lines[..|lines| - 1] else lines
  }

  predicate PosixSpace(c: char) {
    c in {' ', '\t', '\n', '\r', '\U{000B}', '\U{000C}'}
  }

  /** `tr -d '[:space:]'`. */
  function StripSpaces(s: string): string {
    if s == "" then "" else (if PosixSpace(s[0]) then [] else [s[0]]) + StripSpaces(s[1..])
  }

  predicate Alnum(c: char) {
    'a' <= c <= 'z' || '0' <= c <= '9'
  }

  /** `^[a-z0-9][a-z0-9.+:-]*$`. */
  predicate PackageName(s: string) {
    s != "" && Alnum(s[0]) && forall i :: 0 <= i < |s| ==> Alnum(s[i]) || s[i] in ".+:-"
  }

  /** The grammar, by code points: small letters and digits, and behind the first character also the four signs
      "+", "-", "." and ":". */
  lemma GrammarMeaning(s: string)
    ensures PackageName(s) <==>
      && |s| >= 1
      && forall i :: 0 <= i < |s| ==>
           var k := s[i] as int;
           97 <= k <= 122 || 48 <= k <= 57 || (i > 0 && (k == 43 || k == 45 || k == 46 || k == 58))
  {
    assert forall i :: 0 <= i < |s| ==> (s[i] in ".+:-" <==> s[i] == '.' || s[i] == '+' || s[i] == ':' || s[i] == '-');
  }

  /** White space is taken out wherever it stands, and nothing else is. */
  lemma {:induction false} StripSpacesMeaning(a: string, b: string)
    ensures StripSpaces(a + b) == StripSpaces(a) + StripSpaces(b)
    ensures StripSpaces("") == ""
    ensures |a| == 1 ==> StripSpaces(a) == if 9 <= a[0] as int <= 13 || a[0] as int == 32 then "" else a
  {
    hide PosixSpace, StripSpaces;
    StripNone();
    if a == "" {
      assert a + b == b && "" + StripSpaces(b) == StripSpaces(b);
    } else {
      var rest := a[1..];
      assert a + b == [a[0]] + (rest + b) && a == [a[0]] + rest;
      StripOne(a[0], rest + b);
      StripOne(a[0], rest);
      StripSpacesMeaning(rest, b);
      PosixCodes(a[0]);
      if |a| == 1 { assert rest == "" && a == [a[0]]; }
    }
  }

  lemma StripNone()
    ensures StripSpaces("") == ""
  {}

  lemma StripOne(c: char, s: string)
    ensures StripSpaces([c] + s) == (if PosixSpace(c) then "" else [c]) + StripSpaces(s)
  {
    assert ([c] + s)[1..] == s;
  }

  lemma PosixCodes(c: char)
    ensures PosixSpace(c) <==> 9 <= c as int <= 13 || c as int == 32
  {}

  /** A last line without its newline is read as a line too. */
  lemma LastLineIsRead(lines: seq<string>, last: string)
    requires '\n' !in last && last != "" && forall i :: 0 <= i < |lines| ==> '\n' !in lines[i]
    ensures ReadLines(Unlines(lines) + last) == lines + [last]
    ensures ReadLines(Unlines(lines)) == lines
  {
    SplitUnlinesAndLast(lines, last);
    ReadWritten(lines);
  }

  lemma {:induction false} SplitUnlinesAndLast(lines: seq<string>, last: string)
    requires '\n' !in last && forall i :: 0 <= i < |lines| ==> '\n' !in lines[i]
    ensures SplitLines(Unlines(lines) + last) == lines + [last]
  {
    hide SplitLines;
    if lines == [] {
      assert Unlines([]) + last == last;
      SplitLast(last);
    } else {
      var rest := Unlines(lines[1..]) + last;
      assert Unlines(lines) + last == lines[0] + "\n" + rest;
      SplitLine(lines[0], rest);
      SplitUnlinesAndLast(lines[1..], last);
    }
  }

  /** What the loop makes of the lines after the first: the names, or the exit on one that is none. */
  function Collect(lines: seq<string>, args: seq<string>): Helper {
    if lines == [] then Exec(args)
    else
      var pkg := StripSpaces(lines[0]);
      if pkg == "" then Collect(lines[1..], args)
      else if !PackageName(pkg) then Exit(64)
      else Collect(lines[1..], args + [pkg])
  }

  /** Nothing but names in the grammar and lines of white space. */
  ghost predicate NamesOnly(lines: seq<string>) {
    forall i :: 0 <= i < |lines| ==> StripSpaces(lines[i]) == "" || PackageName(StripSpaces(lines[i]))
  }

  lemma NamesOnlyStep(lines: seq<string>)
    requires lines != []
    ensures NamesOnly(lines) <==>
      (StripSpaces(lines[0]) == "" || PackageName(StripSpaces(lines[0]))) && NamesOnly(lines[1..])
  {
    hide StripSpaces, PackageName;
    var rest := lines[1..];
    assert forall i :: 0 < i < |lines| ==> lines[i] == rest[i - 1];
    assert forall i :: 0 <= i < |rest| ==> rest[i] == lines[i + 1];
  }

  /** Lines of white space are passed over, a name outside the grammar ends the helper with 64, and otherwise
      the names are the lines without their white space, in order. */
  lemma {:induction false} CollectMeaning(lines: seq<string>, args: seq<string>)
    ensures Collect(lines, args) == if NamesOnly(lines) then Exec(args + Stripped(lines)) else Exit(64)
    decreases |lines|
  {
    hide PackageName, StripSpaces;
    if lines == [] {
      assert args + Stripped(lines) == args;
    } else {
      NamesOnlyStep(lines);
      hide NamesOnly;
      var pkg := StripSpaces(lines[0]);
      if pkg == "" {
        CollectMeaning(lines[1..], args);
      } else {
        CollectMeaning(lines[1..], args + [pkg]);
        assert args + [pkg] + Stripped(lines[1..]) == args + Stripped(lines);
      }
    }
  }

  function Stripped(lines: seq<string>): seq<string> {
    if lines == [] then []
    else (if StripSpaces(lines[0]) == "" then [] else [StripSpaces(lines[0])]) + Stripped(lines[1..])
  }

  /** How the helper ends, for every request and host. A bad name comes before all else; then apt-get must be
      there; and then the operation must be one of four, and have names unless it is "update". */
  lemma HelperEnds(operation: string, lines: seq<string>, aptFound: bool)
    ensures var r := HelperOf([operation] + lines, aptFound);
      if !NamesOnly(lines) then r == Exit(64)
      else if !aptFound then r == Exit(1)
      else if operation == "update" then r == Exec(["update"])
      else if operation != "install" && operation != "remove" && operation != "purge" then r == Exit(64)
      else if Stripped(lines) == [] then r == Exit(64)
      else r == Exec([operation, "-y", "--"] + Stripped(lines))
    ensures HelperOf([], aptFound) == if aptFound then Exit(64) else Exit(1)
  {
    hide PackageName, StripSpaces, Collect;
    CollectMeaning(lines, []);
    CollectMeaning([], []);
    assert ([operation] + lines)[1..] == lines;
    assert [] + Stripped(lines) == Stripped(lines);
  }

  function Dispatch(operation: string, args: seq<string>, aptFound: bool): Helper {
    if !aptFound then Exit(1)
    else if operation == "update" then Exec(["update"])
    else if operation in {"install", "remove", "purge"} then
      if args == [] then Exit(64) else Exec([operation, "-y", "--"] + args)
    else Exit(64)
  }

  function HelperOf(lines: seq<string>, aptFound: bool): Helper {
    var names := Collect(if lines == [] then [] else lines[1..], []);
    if names.Exit? then names
    else Dispatch(if lines == [] then "" else lines[0], names.args, aptFound)
  }

  method RunHelper(file: string, aptFound: bool) returns (r: Helper)
    ensures r == HelperOf(ReadLines(file), aptFound)
  {
    hide StripSpaces, PackageName, ReadLines;
    var lines := ReadLines(file);
    var operation := "";
    var args: seq<string> := [];
    var lineNo := 0;
    ghost var rest := if lines == [] then [] else lines[1..];
    while lineNo < |lines|
      invariant 0 <= lineNo <= |lines|
      invariant operation == if lineNo == 0 then "" else lines[0]
      invariant lineNo == 0 ==> args == []
      invariant lineNo > 0 ==> Collect(rest, []) == Collect(lines[lineNo..], args)
    {
      var line := lines[lineNo];
      lineNo := lineNo + 1;
      if lineNo == 1 {
        operation := line;
        continue;
      }
      assert lines[lineNo - 1..][1..] == lines[lineNo..];
      var pkg := StripSpaces(line);
      if pkg == "" {
        continue;
      }
      if !PackageName(pkg) {
        return Exit(64);
      }
      args := args + [pkg];
    }
    assert |lines| > 0 ==> lines[lineNo..] == [];
    r := Dispatch(operation, args, aptFound);
  }

  // ---- Both paths ----

  /** The arguments of the direct command. */
  function DirectArgs(operation: string, packages: seq<string>): seq<string> {
    [operation, "-y", "--"] + packages
  }

  lemma ReadWritten(lines: seq<string>)
    requires forall i :: 0 <= i < |lines| ==> '\n' !in lines[i]
    ensures ReadLines(Unlines(lines)) == lines
  {
    SplitUnlines(lines);
    assert (lines + [""])[..|lines|] == lines;
  }

  lemma {:induction false} NothingToStrip(s: string)
    requires forall i :: 0 <= i < |s| ==> !PosixSpace(s[i])
    ensures StripSpaces(s) == s
  {
    if s != "" { NothingToStrip(s[1..]); }
  }

  /** A package name has no white space of any kind in it. */
  lemma NameHasNoSpace(s: string)
    requires PackageName(s)
    ensures forall i :: 0 <= i < |s| ==> !PosixSpace(s[i]) && !IsSpace(s[i])
    ensures '\n' !in s && Trimmed(s) && StripSpaces(s) == s
  {
    forall i | 0 <= i < |s| ensures !PosixSpace(s[i]) && !IsSpace(s[i]) {}
    NothingToStrip(s);
  }

  lemma {:induction false} CollectNames(names: seq<string>, args: seq<string>)
    requires forall i :: 0 <= i < |names| ==> PackageName(names[i])
    ensures Collect(names, args) == Exec(args + names)
    decreases |names|
  {
    hide PackageName, StripSpaces;
    if names == [] {
      assert args + names == args;
    } else {
      NameHasNoSpace(names[0]);
      NotNothing(names[0]);
      CollectNames(names[1..], args + [names[0]]);
      assert args + [names[0]] + names[1..] == args + names;
    }
  }

  lemma NotNothing(s: string)
    requires PackageName(s)
    ensures s != ""
  {}

  lemma {:induction false} LinesOfNormalized(names: seq<string>)
    requires forall i :: 0 <= i < |names| ==> names[i] != "" && Trimmed(names[i])
    ensures PackageLines(names) == names
  {
    hide TrimSpace, Trimmed;
    if names != [] {
      TrimmedStays(names[0]);
      LinesOfNormalized(names[1..]);
    }
  }

  lemma {:induction false} CollectedAreNames(lines: seq<string>, args: seq<string>)
    requires forall i :: 0 <= i < |args| ==> PackageName(args[i])
    ensures var r := Collect(lines, args); r.Exec? ==> forall i :: 0 <= i < |r.args| ==> PackageName(r.args[i])
    decreases |lines|
  {
    hide PackageName, StripSpaces;
    if lines != [] {
      var pkg := StripSpaces(lines[0]);
      if pkg == "" { CollectedAreNames(lines[1..], args); }
      else if PackageName(pkg) { CollectedAreNames(lines[1..], args + [pkg]); }
    }
  }

  lemma OperationIsTrimmed(operation: string)
    requires operation in {"install", "remove", "purge", "update"}
    ensures TrimSpace(operation) == operation && '\n' !in operation
  {
    assert Trimmed(operation);
    TrimmedStays(operation);
  }

  /** The helper sees the operation and then the names, each on its line. */
  lemma RequestReadsBack(operation: string, packages: seq<string>)
    requires operation in {"install", "remove", "purge"}
    requires forall i :: 0 <= i < |packages| ==> packages[i] != "" && Trimmed(packages[i]) && '\n' !in packages[i]
    ensures ReadLines(RequestText(operation, packages)) == [operation] + packages
  {
    hide TrimSpace, ReadLines, Unlines, Trimmed;
    OperationIsTrimmed(operation);
    LinesOfNormalized(packages);
    var lines := [operation] + packages;
    forall i | 0 <= i < |lines| ensures '\n' !in lines[i] {
      if i > 0 { assert lines[i] == packages[i - 1]; }
    }
    ReadWritten(lines);
  }

  lemma HelperOfLines(operation: string, packages: seq<string>)
    requires operation in {"install", "remove", "purge"} && packages != []
    ensures var r := HelperOf([operation] + packages, true);
      && (Collect(packages, []) == Exec(packages) ==> r == Exec(DirectArgs(operation, packages)))
      && (Collect(packages, []).Exit? ==> r == Collect(packages, []))
  {
    hide Collect;
    assert ([operation] + packages)[1..] == packages;
  }

  /** The request of names that are all in the grammar is read back to the direct argument list. */
  lemma HelperRebuildsArgs(operation: string, packages: seq<string>)
    requires operation in {"install", "remove", "purge"} && packages != []
    requires forall i :: 0 <= i < |packages| ==> PackageName(packages[i])
    ensures HelperOf(ReadLines(RequestText(operation, packages)), true) == Exec([operation, "-y", "--"] + packages)
  {
    hide PackageName, ReadLines, RequestText, Collect, HelperOf, Trimmed;
    forall i | 0 <= i < |packages| ensures packages[i] != "" && Trimmed(packages[i]) && '\n' !in packages[i] {
      NameHasNoSpace(packages[i]);
      NotNothing(packages[i]);
    }
    RequestReadsBack(operation, packages);
    CollectNames(packages, []);
    assert [] + packages == packages;
    HelperOfLines(operation, packages);
  }

  /** For every list that `normalizePackageNames` lets through, both paths run apt-get with the same
      arguments if and only if every name is in the helper's grammar. */
  lemma PathsAgreeIff(operation: string, packages: seq<string>)
    requires operation in {"install", "remove", "purge"} && Normalized(packages)
    ensures HelperOf(ReadLines(RequestText(operation, packages)), true) == Exec(DirectArgs(operation, packages)) <==>
      forall i :: 0 <= i < |packages| ==> PackageName(packages[i])
  {
    var lines := ReadLines(RequestText(operation, packages));
    hide PackageName, HelperOf, ReadLines, RequestText;
    if HelperOf(lines, true) == Exec(DirectArgs(operation, packages)) {
      HelperRunsNamesOnly(lines, operation, packages);
    }
    if forall i :: 0 <= i < |packages| ==> PackageName(packages[i]) {
      HelperRebuildsArgs(operation, packages);
    }
  }

  /** Whatever the file says, what the helper gives to apt-get are names in its grammar. */
  lemma HelperRunsNamesOnly(lines: seq<string>, operation: string, packages: seq<string>)
    requires HelperOf(lines, true) == Exec(DirectArgs(operation, packages)) && packages != []
    ensures forall i :: 0 <= i < |packages| ==> PackageName(packages[i])
  {
    hide Collect;
    var none: seq<string> := [];
    var rest := if lines == [] then none else lines[1..];
    CollectedAreNames(rest, none);
    var collected := Collect(rest, none);
    var args := collected.args;
    assert forall i :: 0 <= i < |args| ==> PackageName(args[i]);
    var direct := DirectArgs(operation, packages);
    assert direct[3..] == packages;
    assert |direct| > 3;
    assert direct == [if lines == [] then "" else lines[0], "-y", "--"] + args;
    assert direct[3..] == args;
    forall i | 0 <= i < |packages| ensures PackageName(packages[i]) {
      assert packages[i] == args[i] && PackageName(args[i]);
    }
  }

  lemma {:induction false} CollectTakesOrExits(names: seq<string>, args: seq<string>)
    requires forall i :: 0 <= i < |names| ==>
      names[i] != "" && forall k :: 0 <= k < |names[i]| ==> !PosixSpace(names[i][k])
    ensures Collect(names, args) == Exec(args + names) || Collect(names, args) == Exit(64)
    decreases |names|
  {
    hide PackageName, StripSpaces, PosixSpace;
    if names == [] {
      assert args + names == args;
    } else {
      NothingToStrip(names[0]);
      CollectTakesOrExits(names[1..], args + [names[0]]);
      assert args + [names[0]] + names[1..] == args + names;
    }
  }

  /** A name without white space inside is never changed on the way: the helper runs exactly the direct
      command or refuses. */
  lemma HelperAgreesOrRefuses(operation: string, packages: seq<string>)
    requires operation in {"install", "remove", "purge"} && Normalized(packages)
    requires forall i, k :: 0 <= i < |packages| && 0 <= k < |packages[i]| ==> !PosixSpace(packages[i][k])
    ensures var r := HelperOf(ReadLines(RequestText(operation, packages)), true);
      r == Exec(DirectArgs(operation, packages)) || r == Exit(64)
  {
    assert PosixSpace('\n');
    hide PackageName, ReadLines, RequestText, Collect, HelperOf, PosixSpace, Trimmed, DirectArgs;
    RequestReadsBack(operation, packages);
    CollectTakesOrExits(packages, []);
    assert [] + packages == packages;
    HelperOfLines(operation, packages);
  }

  /** White space inside a name is lost on the helper path: "a b" is accepted by `normalizePackageNames`,
      given to apt-get as it is on the direct path, and read as the package "ab" by the helper. */
  lemma InnerSpaceIsLost()
    ensures Normalized(["a b"])
    ensures HelperOf(ReadLines(RequestText("install", ["a b"])), true) == Exec(DirectArgs("install", ["ab"]))
  {
    var name := "a b";
    NormalInner();
    StripInner();
    hide StripSpaces, PackageName, Unlines, SplitLines, TrimSpace, IsSpace, Trimmed, HasPrefix;
    LinesOfNormalized([name]);
    OperationIsTrimmed("install");
    var lines := ["install", name];
    assert [TrimSpace("install")] + PackageLines([name]) == lines;
    ReadWritten(lines);
    assert lines[1..] == [name] && [name][1..] == [];
    assert Collect([name], []) == Collect([], [] + ["ab"]);
  }

  lemma NormalInner()
    ensures Normalized(["a b"])
  {
    var name := "a b";
    assert name[0] == 'a' && name[2] == 'b';
    assert name[..1] == "a" != "-";
  }

  lemma StripInner()
    ensures StripSpaces("a b") == "ab" && PackageName("ab")
  {
    assert "a b"[1..] == " b" && " b"[1..] == "b" && "b"[1..] == "";
    assert StripSpaces("b") == "b" && StripSpaces(" b") == "b";
    assert "ab"[0] == 'a' && "ab"[1] == 'b';
  }

  /** `apt-get update` goes through the helper unchanged. */
  lemma UpdateIsPassedOn()
    ensures HelperOf(ReadLines(RequestText("update", [])), true) == Exec(["update"])
  {
    OperationIsTrimmed("update");
    assert ["update"] + PackageLines([]) == ["update"];
    ReadWritten(["update"]);
    assert ["update"][1..] == [];
  }
}

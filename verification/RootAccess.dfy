/** The root-access reconciler: it compares the profile the server wants with the one it has recorded as
    applied, runs the helper when they differ, and persists what came of it. State writes are taken to
    succeed and snapshots to be handled one after the other. */
module RootAccess {
  import opened Text
  import opened Wrappers

  const OFF: string := "off"
  const REVISION: int := 1
  const NOT_LINUX: string := "root access profiles " + "are only supported on linux hosts"
  const NO_HELPER: string := "root profile helper is not installed"

  datatype Record = Record(profile: string, appliedAt: string, error: string, revision: int)

  datatype Disk = Missing | Unreadable | Saved(record: Record)

  /** The host at the time of one apply: what kind it is, whether the helper is there, and what becomes of
      the helper's run (an error with its output, or success). */
  datatype Host = Host(linux: bool, helperInstalled: bool, outcome: Outcome, now: string)

  datatype Outcome = Succeeds | Fails(error: string, output: string)

  // ---- The reconciler as functions ----

  /** A record that needs no further apply for its profile. */
  predicate Clean(r: Record) {
    Blank(r.error) && r.revision >= REVISION
  }

  /** `NewManager` and `load`. */
  function Loaded(disk: Disk): Record {
    match disk
    case Saved(r) =>
      Record(if Blank(r.profile) then OFF else r.profile, r.appliedAt, r.error,
             if r.revision < 0 then 0 else r.revision)
    case _ => Record(OFF, "", "", REVISION)
  }

  predicate Wanted(profile: string) {
    !Blank(profile)
  }

  predicate IsNoOp(r: Record, profile: string) {
    !Wanted(profile) || (r.profile == profile && Clean(r))
  }

  /** Whether an apply records the profile without running the helper. */
  predicate BooksOnly(profile: string, host: Host) {
    profile == OFF && (!host.linux || !host.helperInstalled)
  }

  predicate RunsHelper(host: Host) {
    host.linux && host.helperInstalled
  }

  predicate ApplySucceeds(profile: string, host: Host) {
    BooksOnly(profile, host) || (RunsHelper(host) && host.outcome.Succeeds?)
  }

  function ErrorText(host: Host): string {
    if !host.linux then NOT_LINUX
    else if !host.helperInstalled then NO_HELPER
    else match host.outcome
      case Succeeds => ""
      case Fails(error, output) => TrimSpace(error + ": " + TrimSpace(output))
  }

  /** `updateState`: what is written, and what the memory then is. */
  function Normalized(r: Record): Record {
    r.(profile := if Blank(r.profile) then OFF else r.profile, revision := REVISION)
  }

  function Applied(r: Record, profile: string, host: Host): Record {
    if ApplySucceeds(profile, host) then Normalized(Record(profile, host.now, "", r.revision))
    else Normalized(r.(error := ErrorText(host)))
  }

  /** The manager, its file, and the host: `installed` is the profile of the helper's last success, and
      `applies` counts the calls of the apply function. */
  datatype World = World(memory: Record, disk: Disk, installed: string, applies: nat)

  datatype Event = Snapshot(profile: string, host: Host) | Restart

  function Handle(w: World, profile: string, host: Host): World {
    if IsNoOp(w.memory, profile) then w
    else
      var r := Applied(w.memory, profile, host);
      World(r, Saved(r), if RunsHelper(host) && host.outcome.Succeeds? then profile else w.installed, w.applies + 1)
  }

  function Step(w: World, e: Event): World {
    match e
    case Snapshot(profile, host) => Handle(w, profile, host)
    case Restart => w.(memory := Loaded(w.disk))
  }

  function Run(w: World, events: seq<Event>): World
    decreases |events|
  {
    if events == [] then w else Run(Step(w, events[0]), events[1..])
  }

  // ---- The manager ----

  class Manager {
    var state: Record
    var disk: Disk
    ghost var installed: string
    ghost var applies: nat

    ghost function View(): World
      reads this
    {
      World(state, disk, installed, applies)
    }

    constructor (disk: Disk, ghost installed: string)
      ensures View() == World(Loaded(disk), disk, installed, 0)
    {
      this.disk, this.installed, this.applies := disk, installed, 0;
      state := Record(OFF, "", "", REVISION);
      new;
      Load();
    }

    method Load()
      requires state == Record(OFF, "", "", REVISION)
      modifies this`state
      ensures state == Loaded(disk)
    {
      if disk.Saved? {
        var loaded := disk.record;
        if Blank(loaded.profile) {
          loaded := loaded.(profile := OFF);
        }
        if loaded.revision < 0 {
          loaded := loaded.(revision := 0);
        }
        state := loaded;
      }
    }

    method UpdateState(changed: Record)
      modifies this`state, this`disk
      ensures state == Normalized(changed) && disk == Saved(state)
    {
      var next := changed;
      if Blank(next.profile) {
        next := next.(profile := OFF);
      }
      next := next.(revision := REVISION);
      disk := Saved(next);
      state := next;
    }

    method ApplyProfile(profile: string, host: Host) returns (ok: bool)
      modifies this
      ensures ok <==> ApplySucceeds(profile, host)
      ensures View() == World(Applied(old(state), profile, host), Saved(state),
        if RunsHelper(host) && host.outcome.Succeeds? then profile else old(installed), old(applies) + 1)
    {
      applies := applies + 1;
      var done := state.(profile := profile, appliedAt := host.now, error := "");
      if !host.linux {
        if profile == OFF {
          UpdateState(done);
          return true;
        }
        UpdateState(state.(error := NOT_LINUX));
        return false;
      }
      if !host.helperInstalled {
        if profile == OFF {
          UpdateState(done);
          return true;
        }
        UpdateState(state.(error := NO_HELPER));
        return false;
      }
      if host.outcome.Fails? {
        UpdateState(state.(error := TrimSpace(host.outcome.error + ": " + TrimSpace(host.outcome.output))));
        return false;
      }
      installed := profile;
      UpdateState(done);
      return true;
    }

    method HandleDesiredSnapshot(profile: string, host: Host)
      modifies this
      ensures View() == Handle(old(View()), profile, host)
    {
      if Blank(profile) {
        return;
      }
      var current := state;
      if current.profile == profile && Blank(current.error) && current.revision >= REVISION {
        return;
      }
      var ok := ApplyProfile(profile, host);
    }
  }

  // ---- What holds over every run ----

  /** The memory is what a restart would load; after the first apply it is the file itself. */
  predicate Consistent(w: World) {
    && w.memory == Loaded(w.disk)
    && !Blank(w.memory.profile)
    && (w.applies > 0 ==> w.disk == Saved(w.memory) && w.memory.revision == REVISION)
  }

  lemma OffIsNotBlank()
    ensures !Blank(OFF)
  {
    assert OFF[0] == 'o';
    NotBlank(OFF, 0);
  }

  lemma StepConsistent(w: World, e: Event)
    requires Consistent(w)
    ensures Consistent(Step(w, e))
  {
    hide TrimSpace, Blank, ErrorText;
    OffIsNotBlank();
  }

  lemma {:induction false} RunConsistent(w: World, events: seq<Event>)
    requires Consistent(w)
    ensures Consistent(Run(w, events))
    decreases |events|
  {
    hide Step, Consistent;
    if events != [] {
      StepConsistent(w, events[0]);
      RunConsistent(Step(w, events[0]), events[1..]);
    }
  }

  function Fresh(disk: Disk, installed: string): World {
    World(Loaded(disk), disk, installed, 0)
  }

  /** Memory and file agree: in every reachable state a restart changes nothing, and once anything was
      applied the file holds exactly what is in memory. */
  lemma MemoryIsPersisted(disk: Disk, installed: string, events: seq<Event>)
    ensures var w := Run(Fresh(disk, installed), events);
      && Step(w, Restart) == w
      && (w.applies > 0 ==> w.disk == Saved(w.memory))
  {
    OffIsNotBlank();
    hide Step, Blank;
    RunConsistent(Fresh(disk, installed), events);
    assert Consistent(Run(Fresh(disk, installed), events));
    RestartIsQuiet(Run(Fresh(disk, installed), events));
  }

  lemma RestartIsQuiet(w: World)
    requires Consistent(w)
    ensures Step(w, Restart) == w
  {}

  /** Restarts can be left out of a run: they never change the memory, the file or what gets applied. */
  function WithoutRestarts(events: seq<Event>): seq<Event> {
    if events == [] then []
    else (if events[0].Restart? then [] else [events[0]]) + WithoutRestarts(events[1..])
  }

  lemma {:induction false} RestartsDoNotMatter(w: World, events: seq<Event>)
    requires Consistent(w)
    ensures Run(w, events) == Run(w, WithoutRestarts(events))
    decreases |events|
  {
    hide Step, Consistent;
    if events != [] {
      StepConsistent(w, events[0]);
      RestartsDoNotMatter(Step(w, events[0]), events[1..]);
      if events[0].Restart? {
        RestartIsQuiet(w);
        assert WithoutRestarts(events) == WithoutRestarts(events[1..]);
      } else {
        assert WithoutRestarts(events)[1..] == WithoutRestarts(events[1..]);
      }
    }
  }

  /** A success makes the same snapshot a no-op, also after a restart; a failure leaves an error that makes
      the next wanted snapshot, of this profile or another, run the apply function again. */
  lemma SuccessSettlesFailureRetries(w: World, profile: string, host: Host, next: string, later: Host)
    requires Consistent(w) && !IsNoOp(w.memory, profile)
    ensures var v := Handle(w, profile, host);
      && (ApplySucceeds(profile, host) ==>
            v.memory.profile == profile && Clean(v.memory)
            && Handle(v, profile, later) == v && Handle(Step(v, Restart), profile, later) == v)
      && (!ApplySucceeds(profile, host) ==>
            v.memory.profile == w.memory.profile && !Clean(v.memory) && v.installed == w.installed
            && (Wanted(next) ==> Handle(v, next, later).applies == v.applies + 1))
  {
    hide TrimSpace, ErrorText;
    var v := Handle(w, profile, host);
    StepConsistent(w, Snapshot(profile, host));
    RestartIsQuiet(v);
    EmptyIsBlank();
    if !ApplySucceeds(profile, host) { ErrorIsNotBlank(host, profile); }
  }

  lemma EmptyIsBlank()
    ensures Blank("")
  {}

  /** A recorded failure always has a text that is not blank. */
  lemma ErrorIsNotBlank(host: Host, profile: string)
    requires !ApplySucceeds(profile, host)
    ensures !Blank(ErrorText(host))
  {
    hide TrimSpace, Trimmed;
    var e := ErrorText(host);
    if !host.linux {
      assert e[0] == "root access profiles "[0] == 'r';
      NotBlank(e, 0);
    } else if !host.helperInstalled {
      assert e[0] == 'r';
      NotBlank(e, 0);
    } else {
      var raw := host.outcome.error + ": " + TrimSpace(host.outcome.output);
      assert raw[|host.outcome.error|] == ':';
      NotBlank(raw, |host.outcome.error|);
      TrimSpaceTrims(raw);
      TrimmedStays(e);
    }
  }

  /** A fresh agent: without a state file, or with one that does not decode, it is off and clean; otherwise it
      is what the file says, a blank profile read as off and a negative revision as none. */
  lemma LoadedMeans(disk: Disk)
    ensures var r := Loaded(disk);
      match disk
      case Missing => r == Record("off", "", "", 1)
      case Unreadable => r == Record("off", "", "", 1)
      case Saved(f) =>
        && r.appliedAt == f.appliedAt && r.error == f.error
        && r.profile == (if TrimSpace(f.profile) == "" then "off" else f.profile)
        && r.revision == (if f.revision < 0 then 0 else f.revision)
  {}

  /** When a snapshot is passed over: it names no profile, or the one recorded, without an error and at the
      current revision. Every other one is applied. */
  lemma PassedOverIff(w: World, profile: string, host: Host)
    ensures var passed := TrimSpace(profile) == ""
      || (w.memory.profile == profile && TrimSpace(w.memory.error) == "" && w.memory.revision >= 1);
      var v := Handle(w, profile, host);
      if passed then v == w else v.applies == w.applies + 1
  {}

  /** What an apply leaves behind, on each kind of host. A success records the profile and its time and clears
      the error; a failure leaves profile and time as they were and records what went wrong. */
  lemma AppliedMeans(r: Record, profile: string, host: Host)
    requires TrimSpace(profile) != "" && TrimSpace(r.profile) != ""
    ensures var v := Applied(r, profile, host);
      var success := Record(profile, host.now, "", 1);
      var failure := r.(revision := 1);
      if !host.linux then
        v == if profile == "off" then success
             else failure.(error := "root access profiles " + "are only supported on linux hosts")
      else if !host.helperInstalled then
        v == if profile == "off" then success else failure.(error := "root profile helper is not installed")
      else v == match host.outcome
        case Succeeds => success
        case Fails(error, output) => failure.(error := TrimSpace(error + ": " + TrimSpace(output)))
  {}

  /** The recorded text of a failed helper: its error, and what it has put out without the white space around
      it. */
  lemma HelperErrorText(error: string, a: string, output: string, b: string, now: string)
    requires error != "" && Trimmed(error) && Trimmed(output) && output != ""
    requires forall k :: 0 <= k < |a| ==> IsSpace(a[k])
    requires forall k :: 0 <= k < |b| ==> IsSpace(b[k])
    ensures ErrorText(Host(true, true, Fails(error, a + output + b), now)) == error + ": " + output
  {
    hide IsSpace, TrimSpace;
    TrimSpaceIs(a, output, b);
    var text := error + ": " + output;
    assert text[0] == error[0] && text[|text| - 1] == output[|output| - 1];
    TrimmedStays(text);
  }

  /** What a clean state says about the host: the profile of the helper's last success. */
  predicate Truthful(w: World) {
    Clean(w.memory) ==> w.memory.profile == w.installed
  }

  /** Handling a snapshot keeps the state truthful, except exactly when it books "off" without a helper to
      run while another profile is installed. */
  lemma TruthfulUnlessBooked(w: World, profile: string, host: Host)
    requires Consistent(w) && Truthful(w)
    ensures Truthful(Handle(w, profile, host)) <==>
      !(!IsNoOp(w.memory, profile) && BooksOnly(profile, host) && w.installed != OFF)
  {
    hide TrimSpace, ErrorText;
    EmptyIsBlank();
    OffIsNotBlank();
    if !IsNoOp(w.memory, profile) && !ApplySucceeds(profile, host) { ErrorIsNotBlank(host, profile); }
  }

  /** The exception does occur: a host gets "all", loses its helper, and books "off". */
  lemma BookedOffIsUntruthful(now: string, later: string)
    ensures var first := Snapshot("all", Host(true, true, Succeeds, now));
      var second := Snapshot(OFF, Host(true, false, Succeeds, later));
      var w := Run(Fresh(Missing, OFF), [first, second]);
      Clean(w.memory) && w.memory.profile == OFF && w.installed == "all" && !Truthful(w)
  {
    var first := Snapshot("all", Host(true, true, Succeeds, now));
    var second := Snapshot(OFF, Host(true, false, Succeeds, later));
    assert [first, second][1..] == [second] && [second][1..] == [];
    EmptyIsBlank();
    OffIsNotBlank();
    NotBlank("all", 0);
    hide TrimSpace, Blank;
    var w0 := Fresh(Missing, OFF);
    assert OFF != "all" by { assert OFF[0] == 'o'; }
    var w1 := Step(w0, first);
    assert w1.memory.profile == "all" && w1.installed == "all";
    var w2 := Step(w1, second);
    assert Run(w1, [second]) == Run(w2, []);
  }

  /** On a host that always has its helper, a clean state names the profile last installed, over every run. */
  lemma {:induction false} CleanNamesInstalled(w: World, events: seq<Event>)
    requires Consistent(w) && Truthful(w)
    requires forall i :: 0 <= i < |events| && events[i].Snapshot? ==> RunsHelper(events[i].host)
    ensures Truthful(Run(w, events)) && Consistent(Run(w, events))
    decreases |events|
  {
    hide Handle, Consistent, Truthful;
    if events != [] {
      var e := events[0];
      StepConsistent(w, e);
      if e.Snapshot? {
        assert !BooksOnly(e.profile, e.host);
        TruthfulUnlessBooked(w, e.profile, e.host);
      } else {
        RestartIsQuiet(w);
      }
      CleanNamesInstalled(Step(w, e), events[1..]);
    }
  }

  // ---- What a profile allows ----

  predicate AllowsOperational(p: string) {
    p in {"operational", "operational_task", "operational_terminal", "all"}
  }

  predicate AllowsTask(p: string) {
    p in {"task", "operational_task", "task_terminal", "all"}
  }

  predicate AllowsTerminal(p: string) {
    p in {"terminal", "operational_terminal", "task_terminal", "all"}
  }

  datatype Right = Operational | Task | Terminal

  predicate Allows(p: string, right: Right) {
    match right
    case Operational => AllowsOperational(p)
    case Task => AllowsTask(p)
    case Terminal => AllowsTerminal(p)
  }

  /** The `case` of the root profile helper: the parts it appends for a profile, or the exit on another text. */
  function PartsOf(p: string): Option<set<Right>> {
    if p == OFF then Some({})
    else if p == "operational" then Some({Operational})
    else if p == "task" then Some({Task})
    else if p == "terminal" then Some({Terminal})
    else if p == "operational_task" then Some({Operational, Task})
    else if p == "operational_terminal" then Some({Operational, Terminal})
    else if p == "task_terminal" then Some({Task, Terminal})
    else if p == "all" then Some({Operational, Task, Terminal})
    else None
  }

  /** What the rules file then grants. The operational part writes a rule for each binary it finds, and `found`
      says that there is one; the other two parts always write theirs. Without any rule the helper fails,
      except for "off", which removes the file. */
  function HelperGrants(p: string, found: bool): Option<set<Right>> {
    match PartsOf(p)
    case None => None
    case Some(parts) =>
      var granted := if found then parts else parts - {Operational};
      if p != OFF && granted == {} then None else Some(granted)
  }

  predicate Grants(p: string, found: bool, right: Right) {
    HelperGrants(p, found).Some? && right in HelperGrants(p, found).value
  }

  lemma AllowsItsParts(p: string, right: Right)
    ensures Allows(p, right) <==> PartsOf(p).Some? && right in PartsOf(p).value
  {}

  /** The agent allows itself a right for a profile if and only if the helper grants it, but for one case: the
      operational right of a host on which the helper finds no operational binary. */
  lemma AgentAndHelperAgree(p: string, found: bool, right: Right)
    ensures (Allows(p, right) <==> Grants(p, found, right)) <==> (found || right != Operational || !Allows(p, right))
    ensures Grants(p, found, right) ==> Allows(p, right)
  {
    hide Allows, PartsOf;
    AllowsItsParts(p, right);
    if PartsOf(p).Some? && right in PartsOf(p).value {
      AllowsItsParts(OFF, right);
      NothingForOff();
    }
  }

  lemma NothingForOff()
    ensures PartsOf(OFF) == Some({})
  {}

  /** The exception does occur: an agent that has applied "all" where the helper finds no operational binary. */
  lemma AllowedButNotGranted(now: string)
    ensures var w := Run(Fresh(Missing, OFF), [Snapshot("all", Host(true, true, Succeeds, now))]);
      && Clean(w.memory) && w.memory.profile == w.installed == "all" && HelperGrants(w.installed, false).Some?
      && Allows(w.memory.profile, Operational) && !Grants(w.installed, false, Operational)
  {
    var e := Snapshot("all", Host(true, true, Succeeds, now));
    assert [e][1..] == [];
    EmptyIsBlank();
    NotBlank("all", 0);
    hide TrimSpace, Blank;
    assert OFF != "all" by { assert OFF[0] == 'o'; }
    var w := Step(Fresh(Missing, OFF), e);
    assert Run(Fresh(Missing, OFF), [e]) == Run(w, []);
    assert Task in ({Operational, Task, Terminal} - {Operational});
  }

  /** The profiles that name one right allow that one. */
  lemma NamedRights(right: Right)
    ensures Allows("operational", right) <==> right == Operational
    ensures Allows("task", right) <==> right == Task
    ensures Allows("terminal", right) <==> right == Terminal
    ensures Allows("all", right) && !Allows("off", right)
    ensures Allows("operational_task", right) <==> right != Terminal
    ensures Allows("operational_terminal", right) <==> right != Task
    ensures Allows("task_terminal", right) <==> right != Operational
  {}

  /** Two profiles that the helper takes and that mean the same rights are one. */
  lemma ProfileIsItsRights(p: string, q: string)
    requires PartsOf(p).Some? && PartsOf(q).Some?
    requires forall right :: Allows(p, right) <==> Allows(q, right)
    ensures p == q
  {
    assert Allows(p, Operational) <==> Allows(q, Operational);
    assert Allows(p, Task) <==> Allows(q, Task);
    assert Allows(p, Terminal) <==> Allows(q, Terminal);
  }

  /** Over every run on a host that always has its helper: what a clean agent allows itself is what the rules
      grant that the helper has last installed, with the one exception above. */
  lemma CleanAllowsWhatIsGranted(w: World, events: seq<Event>, found: bool, right: Right)
    requires Consistent(w) && Truthful(w)
    requires forall i :: 0 <= i < |events| && events[i].Snapshot? ==> RunsHelper(events[i].host)
    ensures var v := Run(w, events);
      Clean(v.memory) && (found || right != Operational) ==>
        (Allows(v.memory.profile, right) <==> Grants(v.installed, found, right))
  {
    hide Allows, Grants, Clean, Consistent, Run;
    CleanNamesInstalled(w, events);
    var v := Run(w, events);
    AgentAndHelperAgree(v.installed, found, right);
  }
}

/** The release catalog: one manifest is merged into the list of earlier ones, a version is listed once,
    and the list is sorted newest first. A publication time is the instant its RFC 3339 timestamp
    (section 5.6) denotes, if it parses. */
module Catalog {
  import opened Wrappers

  /** `rest` stands for the fields that the merge only carries along. */
  datatype Manifest = Manifest(version: string, publishedAt: Option<int>, commit: string, rest: int)

  // ---- Go's order on strings ----

  predicate Less(a: string, b: string) {
    b != "" && (a == "" || a[0] < b[0] || (a[0] == b[0] && Less(a[1..], b[1..])))
  }

  /** The order of strings: at the first place where they differ the lower character is less, and a beginning
      is less than what it begins. */
  ghost predicate LessAt(a: string, b: string, k: nat) {
    && k <= |a| && k < |b| && a[..k] == b[..k] && (k == |a| || a[k] < b[k])
  }

  lemma {:induction false} LessMeans(a: string, b: string)
    ensures Less(a, b) <==> exists k: nat :: LessAt(a, b, k)
  {
    if b == "" {
    } else if a == "" || a[0] < b[0] {
      assert LessAt(a, b, 0);
    } else if a[0] == b[0] {
      LessMeans(a[1..], b[1..]);
      if k: nat :| LessAt(a[1..], b[1..], k) {
        assert a[..k + 1] == [a[0]] + a[1..][..k] && b[..k + 1] == [b[0]] + b[1..][..k];
        assert LessAt(a, b, k + 1);
      }
      if k: nat :| LessAt(a, b, k) {
        assert k > 0 && a[..k][1..] == a[1..][..k - 1] && b[..k][1..] == b[1..][..k - 1];
        assert LessAt(a[1..], b[1..], k - 1);
      }
    } else {
      forall k: nat ensures !LessAt(a, b, k) {
        if 0 < k <= |a| && k < |b| { assert a[..k][0] == a[0] && b[..k][0] == b[0]; }
      }
    }
  }

  lemma {:induction false} LessIsTotal(a: string, b: string)
    ensures a == b || Less(a, b) || Less(b, a)
    ensures !(Less(a, b) && Less(b, a))
    ensures a == b ==> !Less(a, b)
  {
    if a != "" && b != "" {
      LessIsTotal(a[1..], b[1..]);
      if a[0] == b[0] && a[1..] == b[1..] { assert a == [a[0]] + a[1..] && b == [b[0]] + b[1..]; }
    }
  }

  lemma {:induction false} LessIsTransitive(a: string, b: string, c: string)
    requires Less(a, b) && Less(b, c)
    ensures Less(a, c)
  {
    if a != "" && a[0] == b[0] == c[0] { LessIsTransitive(a[1..], b[1..], c[1..]); }
  }

  // ---- The comparison of the sort ----

  /** The left manifest goes before the right one. */
  predicate Before(left: Manifest, right: Manifest) {
    if left.publishedAt.Some? && right.publishedAt.Some? && left.publishedAt.value != right.publishedAt.value
    then left.publishedAt.value > right.publishedAt.value
    else if left.version != right.version then Less(right.version, left.version)
    else Less(right.commit, left.commit)
  }

  predicate Dated(ms: seq<Manifest>) {
    forall i :: 0 <= i < |ms| ==> ms[i].publishedAt.Some?
  }

  predicate DistinctVersions(ms: seq<Manifest>) {
    forall i, j :: 0 <= i < j < |ms| ==> ms[i].version != ms[j].version
  }

  /** Newest first, and among releases of one instant the greater version first. */
  ghost predicate Sorted(ms: seq<Manifest>) {
    forall i, j :: 0 <= i < j < |ms| ==> Before(ms[i], ms[j])
  }

  lemma BeforeIsStrict(a: Manifest, b: Manifest)
    requires a.version != b.version
    ensures Before(a, b) != Before(b, a)
  {
    LessIsTotal(a.version, b.version);
  }

  lemma BeforeIsTransitive(a: Manifest, b: Manifest, c: Manifest)
    requires a.publishedAt.Some? && b.publishedAt.Some? && c.publishedAt.Some?
    requires a.version != b.version && b.version != c.version && a.version != c.version
    requires Before(a, b) && Before(b, c)
    ensures Before(a, c)
  {
    if Less(b.version, a.version) && Less(c.version, b.version) {
      LessIsTransitive(c.version, b.version, a.version);
    }
  }

  /** With timestamps that do not parse the comparison is no order: it can go round in a circle. */
  lemma MixedTimestampsCycle(a: string, b: string, c: string, t: int)
    requires Less(c, b) && Less(b, a)
    ensures var x := Manifest(a, Some(t), "", 0);
      var y := Manifest(b, None, "", 0);
      var z := Manifest(c, Some(t + 1), "", 0);
      Before(x, y) && Before(y, z) && Before(z, x)
  {
    LessIsTotal(b, a);
    LessIsTotal(c, b);
  }

  // ---- The merge ----

  /** Those of the manifests that are the first of their version, leaving out the versions in `seen`. */
  function Firsts(ms: seq<Manifest>, seen: set<string>): (r: seq<Manifest>)
    ensures forall i :: 0 <= i < |r| ==> r[i] in ms && r[i].version !in seen
    ensures DistinctVersions(r)
  {
    if ms == [] then []
    else if ms[0].version in seen then Firsts(ms[1..], seen)
    else [ms[0]] + Firsts(ms[1..], seen + {ms[0].version})
  }

  /** `sort.SliceStable` is modelled by insertion from the right, which keeps equal elements in place. */
  function Insert(m: Manifest, ms: seq<Manifest>): (r: seq<Manifest>)
    ensures multiset(r) == multiset(ms) + multiset{m}
  {
    if ms == [] || !Before(ms[0], m) then
      assert [m] + ms[..] == [m] + ms;
      [m] + ms
    else
      assert ms == [ms[0]] + ms[1..];
      [ms[0]] + Insert(m, ms[1..])
  }

  function Sort(ms: seq<Manifest>): (r: seq<Manifest>)
    ensures multiset(r) == multiset(ms)
  {
    if ms == [] then []
    else
      assert ms == [ms[0]] + ms[1..];
      Insert(ms[0], Sort(ms[1..]))
  }

  function Merged(existing: seq<Manifest>, manifest: Manifest): seq<Manifest> {
    Sort([manifest] + Firsts(existing, {manifest.version}))
  }

  /** The new manifest and the first of every other version, sorted; which order that is, is promised only
      where the comparison is one. */
  method MergeCatalog(existing: seq<Manifest>, manifest: Manifest) returns (merged: seq<Manifest>)
    ensures multiset(merged) == multiset([manifest] + Firsts(existing, {manifest.version}))
    ensures Dated(existing) && manifest.publishedAt.Some? ==> merged == Merged(existing, manifest)
  {
    merged := [manifest];
    var seen := {manifest.version};
    var i := 0;
    assert existing[0..] == existing;
    while i < |existing|
      invariant 0 <= i <= |existing|
      invariant merged + Firsts(existing[i..], seen) == [manifest] + Firsts(existing, {manifest.version})
    {
      var release := existing[i];
      assert existing[i..][1..] == existing[i + 1..];
      if release.version !in seen {
        seen := seen + {release.version};
        merged := merged + [release];
      }
      i := i + 1;
    }
    assert existing[i..] == [] && merged + [] == merged;
    merged := Sort(merged);
  }

  // ---- Sorting ----

  /** A dated list whose versions are all different, also from that of `m`. */
  ghost predicate Mergeable(m: Manifest, ms: seq<Manifest>) {
    m.publishedAt.Some? && Dated(ms) && DistinctVersions(ms) && forall i :: 0 <= i < |ms| ==> ms[i].version != m.version
  }

  lemma {:induction false} InsertSorts(m: Manifest, ms: seq<Manifest>)
    requires Mergeable(m, ms) && Sorted(ms)
    ensures Sorted(Insert(m, ms)) && Dated(Insert(m, ms)) && DistinctVersions(Insert(m, ms))
    ensures forall x :: x in Insert(m, ms) <==> x == m || x in ms
  {
    hide Before;
    if ms == [] {
    } else if !Before(ms[0], m) {
      BeforeIsStrict(ms[0], m);
      forall j | 0 < j < |ms| ensures Before(m, ms[j]) {
        BeforeIsTransitive(m, ms[0], ms[j]);
      }
    } else {
      InsertSorts(m, ms[1..]);
      var r := Insert(m, ms[1..]);
      forall j | 0 <= j < |r| ensures Before(ms[0], r[j]) && ms[0].version != r[j].version && r[j].publishedAt.Some? {
        assert r[j] == m || r[j] in ms[1..];
        if r[j] != m {
          var k :| 0 <= k < |ms[1..]| && ms[1..][k] == r[j];
          assert ms[k + 1] == r[j];
        }
      }
      assert ms == [ms[0]] + ms[1..];
    }
  }

  lemma {:induction false} SortSorts(ms: seq<Manifest>)
    requires Dated(ms) && DistinctVersions(ms)
    ensures Sorted(Sort(ms)) && Dated(Sort(ms)) && DistinctVersions(Sort(ms))
    ensures forall x :: x in Sort(ms) <==> x in ms
  {
    if ms != [] {
      SortSorts(ms[1..]);
      var r := Sort(ms[1..]);
      forall i | 0 <= i < |r| ensures r[i].version != ms[0].version {
        assert r[i] in ms[1..];
        var k :| 0 <= k < |ms[1..]| && ms[1..][k] == r[i];
        assert ms[k + 1] == r[i];
      }
      InsertSorts(ms[0], r);
      assert ms == [ms[0]] + ms[1..];
    }
  }

  lemma InTail(ms: seq<Manifest>, x: Manifest)
    requires ms != [] && DistinctVersions(ms)
    ensures x in ms[1..] <==> x in ms && x != ms[0]
  {
    if x in ms[1..] {
      var k :| 0 <= k < |ms[1..]| && ms[1..][k] == x;
      assert ms[k + 1] == x;
    }
    if x in ms && x != ms[0] {
      var k :| 0 <= k < |ms| && ms[k] == x;
      assert ms[1..][k - 1] == x;
    }
  }

  /** A sorted list of different versions is determined by its elements. */
  lemma {:induction false} SortedIsUnique(a: seq<Manifest>, b: seq<Manifest>)
    requires Sorted(a) && Sorted(b) && DistinctVersions(a) && DistinctVersions(b)
    requires forall x :: x in a <==> x in b
    ensures a == b
  {
    hide Before;
    assert a != [] ==> a[0] in a;
    assert b != [] ==> b[0] in b;
    if a != [] {
      assert a[0] in b && b != [];
      if a[0] != b[0] {
        var j :| 0 <= j < |b| && b[j] == a[0];
        assert b[0] in a;
        var k :| 0 <= k < |a| && a[k] == b[0];
        BeforeIsStrict(a[0], b[0]);
      }
      forall x ensures x in a[1..] <==> x in b[1..] {
        InTail(a, x);
        InTail(b, x);
      }
      SortedIsUnique(a[1..], b[1..]);
    }
  }

  // ---- What the firsts are ----

  /** `m` is in the list, and no earlier element is of its version. */
  ghost predicate FirstOf(m: Manifest, ms: seq<Manifest>) {
    exists i :: 0 <= i < |ms| && ms[i] == m && forall k :: 0 <= k < i ==> ms[k].version != m.version
  }

  lemma FirstOfTail(m: Manifest, ms: seq<Manifest>)
    requires ms != []
    ensures FirstOf(m, ms) <==> ms[0] == m || (ms[0].version != m.version && FirstOf(m, ms[1..]))
  {
    if FirstOf(m, ms) {
      var i :| 0 <= i < |ms| && ms[i] == m && forall k :: 0 <= k < i ==> ms[k].version != m.version;
      if i > 0 {
        assert ms[1..][i - 1] == m;
        assert forall k :: 0 <= k < i - 1 ==> ms[1..][k] == ms[k + 1];
      }
    }
    if ms[0].version != m.version && FirstOf(m, ms[1..]) {
      var i :| 0 <= i < |ms[1..]| && ms[1..][i] == m && forall k :: 0 <= k < i ==> ms[1..][k].version != m.version;
      assert ms[i + 1] == m;
      forall k | 0 <= k < i + 1 ensures ms[k].version != m.version {
        if k > 0 { assert ms[1..][k - 1] == ms[k]; }
      }
    }
  }

  lemma {:induction false} FirstsAre(ms: seq<Manifest>, seen: set<string>, m: Manifest)
    ensures m in Firsts(ms, seen) <==> FirstOf(m, ms) && m.version !in seen
    decreases |ms|
  {
    if ms == [] {
    } else {
      FirstOfTail(m, ms);
      if ms[0].version in seen {
        FirstsAre(ms[1..], seen, m);
      } else {
        FirstsAre(ms[1..], seen + {ms[0].version}, m);
        var r := Firsts(ms[1..], seen + {ms[0].version});
        assert m in [ms[0]] + r <==> m == ms[0] || m in r;
      }
    }
  }

  /** In a list of different versions every element is the first of its version. */
  lemma DistinctAreFirsts(ms: seq<Manifest>, m: Manifest)
    requires DistinctVersions(ms)
    ensures FirstOf(m, ms) <==> m in ms
  {
    if m in ms {
      var i :| 0 <= i < |ms| && ms[i] == m;
      assert forall k :: 0 <= k < i ==> ms[k].version != m.version;
    }
  }

  // ---- The theorems ----

  /** The merged catalog, when every timestamp parses: different versions, newest first and then by version,
      and in it exactly the new manifest and, of every other version, the first occurrence. */
  lemma MergedIsCanonical(existing: seq<Manifest>, manifest: Manifest)
    requires Dated(existing) && manifest.publishedAt.Some?
    ensures var r := Merged(existing, manifest);
      && DistinctVersions(r) && Dated(r) && Sorted(r)
      && forall x :: x in r <==> x == manifest || (FirstOf(x, existing) && x.version != manifest.version)
  {
    var firsts := Firsts(existing, {manifest.version});
    forall i | 0 <= i < |firsts| ensures firsts[i].publishedAt.Some? {
      assert firsts[i] in existing;
    }
    var all := [manifest] + firsts;
    SortSorts(all);
    forall x
      ensures x in Merged(existing, manifest) <==>
        x == manifest || (FirstOf(x, existing) && x.version != manifest.version)
    {
      FirstsAre(existing, {manifest.version}, x);
      assert x in all <==> x == manifest || x in firsts;
    }
  }

  /** The stated order, spelled out: an earlier place means a later instant, or the same and a greater version. */
  lemma SortedMeans(ms: seq<Manifest>, i: nat, j: nat)
    requires Sorted(ms) && Dated(ms) && DistinctVersions(ms) && i < j < |ms|
    ensures ms[i].publishedAt.value >= ms[j].publishedAt.value
    ensures ms[i].publishedAt.value == ms[j].publishedAt.value ==> Less(ms[j].version, ms[i].version)
  {
    assert Before(ms[i], ms[j]);
  }

  /** A catalog of different versions that is merged with is found again in full, but for the new version. */
  lemma MergeIntoDistinct(existing: seq<Manifest>, manifest: Manifest)
    requires Dated(existing) && DistinctVersions(existing) && manifest.publishedAt.Some?
    ensures forall x :: x in Merged(existing, manifest) <==>
      x == manifest || (x in existing && x.version != manifest.version)
  {
    MergedIsCanonical(existing, manifest);
    forall x { DistinctAreFirsts(existing, x); }
  }

  /** Publishing the same manifest again changes nothing. */
  lemma MergeIsIdempotent(existing: seq<Manifest>, manifest: Manifest)
    requires Dated(existing) && manifest.publishedAt.Some?
    ensures Merged(Merged(existing, manifest), manifest) == Merged(existing, manifest)
  {
    hide Sorted, DistinctVersions, Dated, Merged;
    var once := Merged(existing, manifest);
    MergedIsCanonical(existing, manifest);
    MergedIsCanonical(once, manifest);
    MergeIntoDistinct(once, manifest);
    forall x ensures x in Merged(once, manifest) <==> x in once {
      if x in once && x.version == manifest.version { OneOfVersion(once, x, manifest); }
    }
    SortedIsUnique(Merged(once, manifest), once);
  }

  lemma OneOfVersion(ms: seq<Manifest>, x: Manifest, y: Manifest)
    requires DistinctVersions(ms) && x in ms && y in ms && x.version == y.version
    ensures x == y
  {
    var i :| 0 <= i < |ms| && ms[i] == x;
    var j :| 0 <= j < |ms| && ms[j] == y;
  }

  /** Two releases of different versions can be published in either order. */
  lemma MergeCommutes(existing: seq<Manifest>, m: Manifest, n: Manifest)
    requires Dated(existing) && m.publishedAt.Some? && n.publishedAt.Some? && m.version != n.version
    ensures Merged(Merged(existing, m), n) == Merged(Merged(existing, n), m)
  {
    hide Sorted, DistinctVersions, Dated, Merged, FirstOf;
    MergedIsCanonical(existing, m);
    MergedIsCanonical(existing, n);
    var a, b := Merged(existing, m), Merged(existing, n);
    MergeIntoDistinct(a, n);
    MergeIntoDistinct(b, m);
    MergedIsCanonical(a, n);
    MergedIsCanonical(b, m);
    SortedIsUnique(Merged(a, n), Merged(b, m));
  }
}

/** The pinned version matrix: what it should be, given tags, the SNAPSHOT label and an image probe. */
module Matrix {
  import opened Collections
  import opened Text
  import opened Sorting
  import opened Versions

  /** Whether the images of a version exist; None when the registry could not be asked. */
  type Probe = string -> Option<bool>

  function MinorOf(v: string): (int, int) {
    Minor(ParseLoose(v))
  }

  // ---- Searching the pinned list ----

  /** The first pinned release of a minor, or "". */
  function PinnedGA(pinned: seq<string>, minor: (int, int)): string {
    if pinned == [] then ""
    else if !IsSnapshot(pinned[0]) && MinorOf(pinned[0]) == minor then pinned[0]
    else PinnedGA(pinned[1..], minor)
  }

  /** `pinnedGAForMinor`. */
  method PinnedGAForMinor(pinned: seq<string>, version: string) returns (r: string)
    ensures r == PinnedGA(pinned, MinorOf(version))
  {
    var want := MinorOf(version);
    for i := 0 to |pinned|
      invariant PinnedGA(pinned, want) == PinnedGA(pinned[i..], want)
    {
      assert pinned[i..][0] == pinned[i] && pinned[i..][1..] == pinned[i + 1..];
      if IsSnapshot(pinned[i]) {
        continue;
      }
      if MinorOf(pinned[i]) == want {
        return pinned[i];
      }
    }
    return "";
  }

  /** The first pinned SNAPSHOT whose minor no release covers, or "". */
  function PinnedSnapshot(ga: seq<string>, pinned: seq<string>): string {
    if pinned == [] then ""
    else if IsSnapshot(pinned[0]) && PinnedGA(ga, MinorOf(pinned[0])) == "" then pinned[0]
    else PinnedSnapshot(ga, pinned[1..])
  }

  /** `pinnedSnapshotUncoveredBy`. */
  method PinnedSnapshotUncoveredBy(ga: seq<string>, pinned: seq<string>) returns (r: string)
    ensures r == PinnedSnapshot(ga, pinned)
  {
    for i := 0 to |pinned|
      invariant PinnedSnapshot(ga, pinned) == PinnedSnapshot(ga, pinned[i..])
    {
      assert pinned[i..][0] == pinned[i] && pinned[i..][1..] == pinned[i + 1..];
      if IsSnapshot(pinned[i]) {
        var cover := PinnedGAForMinor(ga, pinned[i]);
        if cover == "" {
          return pinned[i];
        }
      }
    }
    return "";
  }

  /** A release of this minor is in the list. */
  predicate Covers(s: string, minor: (int, int)) {
    !IsSnapshot(s) && MinorOf(s) == minor
  }

  lemma {:induction false} PinnedGAFinds(pinned: seq<string>, minor: (int, int))
    requires minor != (0, 0)
    ensures var r := PinnedGA(pinned, minor);
            if r != "" then r in pinned && Covers(r, minor) else forall p :: p in pinned ==> !Covers(p, minor)
  {
    if pinned != [] {
      if pinned[0] == "" {
        EmptyIsZero();
      }
      PinnedGAFinds(pinned[1..], minor);
      assert forall p :: p in pinned ==> p == pinned[0] || p in pinned[1..];
    }
  }

  lemma EmptyIsZero()
    ensures MinorOf("") == (0, 0)
  {
    assert TrimSuffix("", SNAPSHOT) == "" && TrimPrefix("", "v") == "";
    assert Split("", '.') == [""];
  }

  lemma PinnedGAOnly(pinned: seq<string>, minor: (int, int), p: string)
    requires minor != (0, 0) && p in pinned && Covers(p, minor)
    requires forall q :: q in pinned && Covers(q, minor) ==> q == p
    ensures PinnedGA(pinned, minor) == p
  {
    PinnedGAFinds(pinned, minor);
  }

  ghost predicate Uncovered(ga: seq<string>, s: string) {
    IsSnapshot(s) && PinnedGA(ga, MinorOf(s)) == ""
  }

  lemma {:induction false} PinnedSnapshotFinds(ga: seq<string>, pinned: seq<string>)
    ensures var r := PinnedSnapshot(ga, pinned);
            if r != "" then r in pinned && Uncovered(ga, r) else forall p :: p in pinned ==> !Uncovered(ga, p)
  {
    if pinned != [] {
      PinnedSnapshotFinds(ga, pinned[1..]);
      assert forall p :: p in pinned ==> p == pinned[0] || p in pinned[1..];
    }
  }

  // ---- The desired list ----

  function NonEmpty(s: string): Option<string> {
    if s == "" then None else Some(s)
  }

  /** What a minor with newest patch `v` contributes. */
  function Choice(v: string, pinned: seq<string>, probe: Probe): Option<string> {
    if v in pinned then Some(v)
    else if probe(v) == Some(true) then Some(v)
    else NonEmpty(PinnedGA(pinned, MinorOf(v)))
  }

  function Kept(s: Option<string>): seq<string> {
    if s.None? then [] else [s.value]
  }

  function Releases(computed: seq<string>, pinned: seq<string>, probe: Probe): seq<string> {
    if computed == [] then []
    else Releases(computed[..|computed| - 1], pinned, probe) + Kept(Choice(computed[|computed| - 1], pinned, probe))
  }

  function SnapshotChoice(ga: seq<string>, pinned: seq<string>, snapshot: string): Option<string> {
    var snap := PinnedSnapshot(ga, pinned);
    if snap != "" then Some(snap) else NonEmpty(snapshot)
  }

  function DesiredList(computed: seq<string>, snapshot: string, pinned: seq<string>, probe: Probe): seq<string> {
    var ga := Releases(computed, pinned, probe);
    ga + Kept(SnapshotChoice(ga, pinned, snapshot))
  }

  /** The order of the artifact: releases before SNAPSHOTs, each by version. */
  predicate MatrixLess(a: string, b: string) {
    if IsSnapshot(a) != IsSnapshot(b) then !IsSnapshot(a) else VersionLess(a, b)
  }

  predicate MatrixLeq(a: string, b: string) {
    !MatrixLess(b, a)
  }

  lemma MatrixOrder()
    ensures TotalPreorder(MatrixLeq)
  {
    forall a, b, c | MatrixLeq(a, b) && MatrixLeq(b, c)
      ensures MatrixLeq(a, c)
    {
      var x, y, z := ParseLoose(a), ParseLoose(b), ParseLoose(c);
      assert !Less(y, x) && !Less(z, y) ==> !Less(z, x);
    }
    forall a, b
      ensures MatrixLeq(a, b) || MatrixLeq(b, a)
    {
      var x, y := ParseLoose(a), ParseLoose(b);
      assert !Less(x, y) || !Less(y, x);
    }
  }

  /** `SortVersions`. */
  method SortVersions(versions: seq<string>) returns (out: seq<string>)
    ensures multiset(out) == multiset(versions) && Sorted(out, MatrixLeq)
  {
    MatrixOrder();
    out := Sort(versions, MatrixLeq);
  }

  ghost predicate DesiredFrom(computed: seq<string>, tags: seq<string>, snapshot: string, pinned: seq<string>,
      probe: Probe, out: seq<string>) {
    && IsLatest(tags, computed) && computed != []
    && Answered(computed, pinned, probe)
    && multiset(out) == multiset(DesiredList(computed, snapshot, pinned, probe))
    && Sorted(out, MatrixLeq)
  }

  /** `out` is a successful result for these inputs. */
  ghost predicate Desired(tags: seq<string>, snapshot: string, pinned: seq<string>, probe: Probe, out: seq<string>) {
    exists computed :: DesiredFrom(computed, tags, snapshot, pinned, probe, out)
  }

  /** No probe that is needed fails. */
  ghost predicate Answered(computed: seq<string>, pinned: seq<string>, probe: Probe) {
    forall v :: v in computed && v !in pinned ==> probe(v).Some?
  }

  /** Something supported is tagged, and the registry answers for every newest patch not yet pinned. */
  ghost predicate Succeeds(tags: seq<string>, pinned: seq<string>, probe: Probe) {
    && (exists tag :: tag in tags && GATag(tag).Some?)
    && (forall s :: IsLatestString(tags, s) && s !in pinned ==> probe(s).Some?)
  }

  /** The loop of `ComputeDesired` over the minors. */
  method ChooseReleases(computed: seq<string>, pinned: seq<string>, probe: Probe) returns (r: Option<seq<string>>)
    ensures r.Some? <==> Answered(computed, pinned, probe)
    ensures r.Some? ==> r.value == Releases(computed, pinned, probe)
  {
    var out := [];
    for i := 0 to |computed|
      invariant Answered(computed[..i], pinned, probe)
      invariant out == Releases(computed[..i], pinned, probe)
    {
      var version := computed[i];
      OneMore(computed, i);
      if version in pinned {
        out := out + [version];
        continue;
      }
      var ok := probe(version);
      if ok.None? {
        return None;
      }
      if ok.value {
        out := out + [version];
        continue;
      }
      var prev := PinnedGAForMinor(pinned, version);
      if prev != "" {
        out := out + [prev];
      }
    }
    assert computed[..|computed|] == computed;
    return Some(out);
  }

  lemma SomethingTagged(tags: seq<string>, computed: seq<string>)
    requires IsLatest(tags, computed)
    ensures computed != [] <==> exists tag :: tag in tags && GATag(tag).Some?
  {
    if computed != [] {
      assert IsLatestString(tags, computed[0]);
      LatestReads(tags, computed[0]);
      assert IsBest(tags, ParseLoose(computed[0]));
    }
    if tag :| tag in tags && GATag(tag).Some? {
      var s := TaggedHasLatest(tags, tag);
      assert s in computed;
    }
  }

  /** `ComputeDesired`: fails exactly when nothing supported is tagged or a probe it needs fails. */
  method ComputeDesired(tags: seq<string>, snapshot: string, pinned: seq<string>, probe: Probe)
    returns (r: Option<seq<string>>)
    ensures r.Some? <==> Succeeds(tags, pinned, probe)
    ensures r.Some? ==> Desired(tags, snapshot, pinned, probe, r.value)
  {
    var computed := LatestPatchPerMinor(tags);
    SomethingTagged(tags, computed);
    if computed == [] {
      return None;
    }
    var ga := ChooseReleases(computed, pinned, probe);
    if ga.None? {
      return None;
    }
    var out := ga.value;
    var snap := PinnedSnapshotUncoveredBy(out, pinned);
    if snap != "" {
      out := out + [snap];
    } else if snapshot != "" {
      out := out + [snapshot];
    }
    assert out == DesiredList(computed, snapshot, pinned, probe);
    var sorted := SortVersions(out);
    assert DesiredFrom(computed, tags, snapshot, pinned, probe, sorted);
    return Some(sorted);
  }

  // ---- What the releases are ----

  /** `g` is what `v` contributed. */
  ghost predicate ChosenFor(computed: seq<string>, pinned: seq<string>, probe: Probe, v: string, g: string) {
    v in computed && Choice(v, pinned, probe) == Some(g)
  }

  lemma {:induction false} ReleasesAre(computed: seq<string>, pinned: seq<string>, probe: Probe, g: string)
    ensures g in Releases(computed, pinned, probe) <==> exists v :: ChosenFor(computed, pinned, probe, v, g)
    decreases |computed|
  {
    if computed != [] {
      var n := |computed| - 1;
      ReleasesAre(computed[..n], pinned, probe, g);
      assert computed == computed[..n] + [computed[n]];
      if v :| ChosenFor(computed, pinned, probe, v, g) {
        assert v != computed[n] ==> ChosenFor(computed[..n], pinned, probe, v, g);
      }
      if v :| ChosenFor(computed[..n], pinned, probe, v, g) {
        assert ChosenFor(computed, pinned, probe, v, g);
      }
      if Choice(computed[n], pinned, probe) == Some(g) {
        assert ChosenFor(computed, pinned, probe, computed[n], g);
      }
    }
  }

  lemma ChoiceCovers(tags: seq<string>, v: string, pinned: seq<string>, probe: Probe)
    requires IsLatestString(tags, v)
    ensures MinorOf(v) != (0, 0) && Covers(v, MinorOf(v))
    ensures var c := Choice(v, pinned, probe); c.Some? ==> Covers(c.value, MinorOf(v)) && c.value != ""
    ensures Choice(v, pinned, probe).None? ==> forall p :: p in pinned ==> !Covers(p, MinorOf(v))
  {
    LatestReads(tags, v);
    PinnedGAFinds(pinned, MinorOf(v));
  }

  /** Every release in the list stands for a tagged minor, and each minor has at most one. */
  lemma ReleasesApart(computed: seq<string>, tags: seq<string>, pinned: seq<string>, probe: Probe, g: string, h: string)
    requires IsLatest(tags, computed)
    requires g in Releases(computed, pinned, probe) && h in Releases(computed, pinned, probe)
    ensures !IsSnapshot(g) && MinorOf(g) != (0, 0)
    ensures MinorOf(g) == MinorOf(h) ==> g == h
  {
    ReleasesAre(computed, pinned, probe, g);
    ReleasesAre(computed, pinned, probe, h);
    var v :| ChosenFor(computed, pinned, probe, v, g);
    var w :| ChosenFor(computed, pinned, probe, w, h);
    ChoiceCovers(tags, v, pinned, probe);
    ChoiceCovers(tags, w, pinned, probe);
    if MinorOf(g) == MinorOf(h) {
      LatestApart(tags, v, w);
    }
  }

  lemma {:induction false} ReleasesDistinct(computed: seq<string>, tags: seq<string>, pinned: seq<string>, probe: Probe)
    requires Distinct(computed) && forall v :: v in computed ==> IsLatestString(tags, v)
    ensures Distinct(Releases(computed, pinned, probe))
    decreases |computed|
  {
    if computed != [] {
      var n := |computed| - 1;
      var rest, c := Releases(computed[..n], pinned, probe), Choice(computed[n], pinned, probe);
      ReleasesDistinct(computed[..n], tags, pinned, probe);
      if c.Some? {
        ReleasesAre(computed[..n], pinned, probe, c.value);
        forall v | ChosenFor(computed[..n], pinned, probe, v, c.value)
          ensures v == computed[n]
        {
          ChoiceCovers(tags, v, pinned, probe);
          ChoiceCovers(tags, computed[n], pinned, probe);
          LatestApart(tags, v, computed[n]);
        }
        assert computed[n] !in computed[..n];
        assert c.value !in Elements(rest);
        AppendDistinct(rest, c.value);
      }
    }
  }

  /** An empty label or a SNAPSHOT label, as the label parser guarantees. */
  predicate SnapshotLabel(snapshot: string) {
    snapshot == "" || IsSnapshot(snapshot)
  }

  lemma SnapshotIsOne(ga: seq<string>, pinned: seq<string>, snapshot: string)
    requires SnapshotLabel(snapshot)
    ensures var c := SnapshotChoice(ga, pinned, snapshot); c.Some? ==> IsSnapshot(c.value)
  {
    PinnedSnapshotFinds(ga, pinned);
  }

  /** Membership of a result: its releases and perhaps one SNAPSHOT. */
  lemma ResultMembers(computed: seq<string>, tags: seq<string>, snapshot: string, pinned: seq<string>, probe: Probe,
      out: seq<string>, x: string)
    requires DesiredFrom(computed, tags, snapshot, pinned, probe, out) && SnapshotLabel(snapshot)
    ensures var ga := Releases(computed, pinned, probe);
            && (x in out <==> x in ga || SnapshotChoice(ga, pinned, snapshot) == Some(x))
            && (x in out && IsSnapshot(x) <==> SnapshotChoice(ga, pinned, snapshot) == Some(x))
            && (x in out && !IsSnapshot(x) <==> x in ga)
  {
    var ga := Releases(computed, pinned, probe);
    MultisetMembers(out, DesiredList(computed, snapshot, pinned, probe));
    SnapshotIsOne(ga, pinned, snapshot);
    if x in ga {
      ReleasesApart(computed, tags, pinned, probe, x, x);
    }
  }

  // ---- Main results ----

  /** Both SNAPSHOTs, or both releases of one minor. */
  ghost predicate SamePlace(x: string, y: string) {
    IsSnapshot(x) == IsSnapshot(y) && (IsSnapshot(x) || MinorOf(x) == MinorOf(y))
  }

  /** At most one release per minor and at most one SNAPSHOT, none of them twice. */
  lemma OnePerMinor(tags: seq<string>, snapshot: string, pinned: seq<string>, probe: Probe, out: seq<string>)
    requires Desired(tags, snapshot, pinned, probe, out) && SnapshotLabel(snapshot)
    ensures Distinct(out)
    ensures forall x, y :: x in out && y in out && SamePlace(x, y) ==> x == y
  {
    var computed :| DesiredFrom(computed, tags, snapshot, pinned, probe, out);
    forall x, y | x in out && y in out && SamePlace(x, y)
      ensures x == y
    {
      ResultApart(computed, tags, snapshot, pinned, probe, out, x, y);
    }
    ResultDistinct(computed, tags, snapshot, pinned, probe, out);
  }

  lemma ResultApart(computed: seq<string>, tags: seq<string>, snapshot: string, pinned: seq<string>, probe: Probe,
      out: seq<string>, x: string, y: string)
    requires DesiredFrom(computed, tags, snapshot, pinned, probe, out) && SnapshotLabel(snapshot)
    requires x in out && y in out && SamePlace(x, y)
    ensures x == y
  {
    ResultMembers(computed, tags, snapshot, pinned, probe, out, x);
    ResultMembers(computed, tags, snapshot, pinned, probe, out, y);
    if !IsSnapshot(x) {
      ReleasesApart(computed, tags, pinned, probe, x, y);
    }
  }

  lemma ResultDistinct(computed: seq<string>, tags: seq<string>, snapshot: string, pinned: seq<string>, probe: Probe,
      out: seq<string>)
    requires DesiredFrom(computed, tags, snapshot, pinned, probe, out) && SnapshotLabel(snapshot)
    ensures Distinct(out)
  {
    var ga := Releases(computed, pinned, probe);
    var c := SnapshotChoice(ga, pinned, snapshot);
    ReleasesDistinct(computed, tags, pinned, probe);
    SnapshotIsOne(ga, pinned, snapshot);
    if c.Some? {
      if c.value in ga {
        ReleasesApart(computed, tags, pinned, probe, c.value, c.value);
      }
      AppendDistinct(ga, c.value);
    }
    var list := DesiredList(computed, snapshot, pinned, probe);
    DistinctMultiset(list);
    DistinctFromMultiset(out, Elements(list));
  }

  /** A release of this minor is tagged. */
  ghost predicate Tagged(tags: seq<string>, minor: (int, int)) {
    exists tag :: tag in tags && GATag(tag).Some? && Minor(GATag(tag).value) == minor
  }

  /** A minor that is still tagged and has a pinned release never loses its release. */
  lemma NoCoverageLost(tags: seq<string>, snapshot: string, pinned: seq<string>, probe: Probe, out: seq<string>,
      p: string)
    requires Desired(tags, snapshot, pinned, probe, out) && SnapshotLabel(snapshot)
    requires p in pinned && !IsSnapshot(p) && Tagged(tags, MinorOf(p))
    ensures exists g :: g in out && Covers(g, MinorOf(p))
  {
    var computed :| DesiredFrom(computed, tags, snapshot, pinned, probe, out);
    var tag :| tag in tags && GATag(tag).Some? && Minor(GATag(tag).value) == MinorOf(p);
    var v := TaggedHasLatest(tags, tag);
    assert v in computed;
    ChoiceCovers(tags, v, pinned, probe);
    assert Covers(p, MinorOf(v));
    var g := Choice(v, pinned, probe).value;
    ReleasesAre(computed, pinned, probe, g);
    assert ChosenFor(computed, pinned, probe, v, g);
    ResultMembers(computed, tags, snapshot, pinned, probe, out, g);
  }

  /** A release that was not pinned before is the newest patch of its minor and passed the probe. */
  lemma NewReleasesProbed(tags: seq<string>, snapshot: string, pinned: seq<string>, probe: Probe, out: seq<string>,
      g: string)
    requires Desired(tags, snapshot, pinned, probe, out) && SnapshotLabel(snapshot)
    requires g in out && !IsSnapshot(g) && g !in pinned
    ensures probe(g) == Some(true) && IsLatestString(tags, g)
  {
    var computed :| DesiredFrom(computed, tags, snapshot, pinned, probe, out);
    ResultMembers(computed, tags, snapshot, pinned, probe, out, g);
    ReleasesAre(computed, pinned, probe, g);
    var v :| ChosenFor(computed, pinned, probe, v, g);
    assert IsLatestString(tags, v);
    FreshChoice(tags, v, pinned, probe, g);
  }

  lemma FreshChoice(tags: seq<string>, v: string, pinned: seq<string>, probe: Probe, g: string)
    requires IsLatestString(tags, v) && Choice(v, pinned, probe) == Some(g) && g !in pinned
    ensures v == g && probe(g) == Some(true)
  {
    LatestReads(tags, v);
    assert MinorOf(v) != (0, 0);
    PinnedGAFinds(pinned, MinorOf(v));
  }

  /** Against its own result every minor makes the same choice, with no probe that was not made before. */
  lemma SameChoice(computed: seq<string>, tags: seq<string>, snapshot: string, pinned: seq<string>, probe: Probe,
      out: seq<string>, v: string)
    requires DesiredFrom(computed, tags, snapshot, pinned, probe, out) && SnapshotLabel(snapshot) && v in computed
    ensures Choice(v, out, probe) == Choice(v, pinned, probe)
    ensures v !in out ==> probe(v).Some?
  {
    assert IsLatestString(tags, v);
    var ga, c, minor := Releases(computed, pinned, probe), Choice(v, pinned, probe), MinorOf(v);
    ChoiceCovers(tags, v, pinned, probe);
    forall q | q in out && Covers(q, minor)
      ensures c == Some(q)
    {
      OnlyChoice(computed, tags, snapshot, pinned, probe, out, v, q);
    }
    PinnedGAFinds(out, minor);
    if c.Some? {
      assert ChosenFor(computed, pinned, probe, v, c.value);
      ReleasesAre(computed, pinned, probe, c.value);
      ResultMembers(computed, tags, snapshot, pinned, probe, out, c.value);
      PinnedGAOnly(out, minor, c.value);
    }
  }

  lemma OnlyChoice(computed: seq<string>, tags: seq<string>, snapshot: string, pinned: seq<string>, probe: Probe,
      out: seq<string>, v: string, q: string)
    requires DesiredFrom(computed, tags, snapshot, pinned, probe, out) && SnapshotLabel(snapshot) && v in computed
    requires q in out && Covers(q, MinorOf(v))
    ensures Choice(v, pinned, probe) == Some(q)
  {
    ResultMembers(computed, tags, snapshot, pinned, probe, out, q);
    ReleasesAre(computed, pinned, probe, q);
    var w :| ChosenFor(computed, pinned, probe, w, q);
    assert IsLatestString(tags, v) && IsLatestString(tags, w);
    ChoiceCovers(tags, w, pinned, probe);
    LatestApart(tags, v, w);
  }

  lemma {:induction false} SameReleases(computed: seq<string>, a: seq<string>, b: seq<string>, probe: Probe)
    requires forall v :: v in computed ==> Choice(v, a, probe) == Choice(v, b, probe)
    ensures Releases(computed, a, probe) == Releases(computed, b, probe)
    decreases |computed|
  {
    if computed != [] {
      SameReleases(computed[..|computed| - 1], a, b, probe);
    }
  }

  lemma SameSnapshot(computed: seq<string>, tags: seq<string>, snapshot: string, pinned: seq<string>, probe: Probe,
      out: seq<string>)
    requires DesiredFrom(computed, tags, snapshot, pinned, probe, out) && SnapshotLabel(snapshot)
    ensures var ga := Releases(computed, pinned, probe);
            SnapshotChoice(ga, out, snapshot) == SnapshotChoice(ga, pinned, snapshot)
  {
    var ga := Releases(computed, pinned, probe);
    var c := SnapshotChoice(ga, pinned, snapshot);
    PinnedSnapshotFinds(ga, pinned);
    PinnedSnapshotFinds(ga, out);
    var again := PinnedSnapshot(ga, out);
    ResultMembers(computed, tags, snapshot, pinned, probe, out, again);
    if c.Some? {
      ResultMembers(computed, tags, snapshot, pinned, probe, out, c.value);
    }
  }

  /** Fed its own result, the computation succeeds again and returns the same list. */
  lemma Idempotent(tags: seq<string>, snapshot: string, pinned: seq<string>, probe: Probe, out: seq<string>,
      again: seq<string>)
    requires Desired(tags, snapshot, pinned, probe, out) && SnapshotLabel(snapshot)
    ensures Succeeds(tags, out, probe)
    ensures Desired(tags, snapshot, out, probe, again) ==> again == out
  {
    var computed :| DesiredFrom(computed, tags, snapshot, pinned, probe, out);
    forall v | v in computed
      ensures Choice(v, out, probe) == Choice(v, pinned, probe)
      ensures v !in out ==> probe(v).Some?
    {
      SameChoice(computed, tags, snapshot, pinned, probe, out, v);
    }
    SomethingTagged(tags, computed);
    SameReleases(computed, out, pinned, probe);
    SameSnapshot(computed, tags, snapshot, pinned, probe, out);
    if Desired(tags, snapshot, out, probe, again) {
      var computed' :| DesiredFrom(computed', tags, snapshot, out, probe, again);
      LatestUnique(tags, computed, computed');
      assert multiset(again) == multiset(out);
      ResultSeparates(tags, snapshot, pinned, probe, out);
      SortedUnique(out, again, MatrixLeq);
    }
  }

  lemma TiesSharePlace(x: string, y: string)
    requires MatrixLeq(x, y) && MatrixLeq(y, x)
    ensures SamePlace(x, y)
  {
    assert !Less(ParseLoose(x), ParseLoose(y)) && !Less(ParseLoose(y), ParseLoose(x)) ==>
             ParseLoose(x) == ParseLoose(y);
  }

  /** The artifact's order tells the entries of a result apart, so it has one sorted form. */
  lemma ResultSeparates(tags: seq<string>, snapshot: string, pinned: seq<string>, probe: Probe, out: seq<string>)
    requires Desired(tags, snapshot, pinned, probe, out) && SnapshotLabel(snapshot)
    ensures Separates(out, MatrixLeq)
  {
    OnePerMinor(tags, snapshot, pinned, probe, out);
    forall x, y | x in out && y in out && MatrixLeq(x, y) && MatrixLeq(y, x)
      ensures x == y
    {
      TiesSharePlace(x, y);
    }
  }
}

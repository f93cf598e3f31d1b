/** Which release each tagged minor gets, and which SNAPSHOT, read off the inputs. */
module ReleaseChoice {
  import opened Text
  import opened Versions
  import opened Matrix

  /** `p` is the first pinned release of the minor. */
  ghost predicate FirstPinned(pinned: seq<string>, minor: (int, int), p: string) {
    exists i :: 0 <= i < |pinned| && pinned[i] == p && Covers(p, minor) &&
                forall j :: 0 <= j < i ==> !Covers(pinned[j], minor)
  }

  lemma {:induction false} SearchIsFirst(pinned: seq<string>, minor: (int, int), p: string)
    requires minor != (0, 0)
    ensures PinnedGA(pinned, minor) == p && p != "" <==> FirstPinned(pinned, minor, p)
  {
    if pinned != [] {
      SearchIsFirst(pinned[1..], minor, p);
      if Covers("", minor) {
        EmptyIsZero();
      }
      FirstOfTail(pinned, minor, p);
    }
  }

  lemma FirstOfTail(pinned: seq<string>, minor: (int, int), p: string)
    requires pinned != []
    ensures FirstPinned(pinned, minor, p) <==>
            if Covers(pinned[0], minor) then p == pinned[0] else FirstPinned(pinned[1..], minor, p)
  {
    if i :| 0 <= i < |pinned| && pinned[i] == p && Covers(p, minor) &&
            forall j :: 0 <= j < i ==> !Covers(pinned[j], minor) {
      if i > 0 {
        assert pinned[1..][i - 1] == p;
      }
    }
    if i :| 0 <= i < |pinned[1..]| && pinned[1..][i] == p && Covers(p, minor) &&
            forall j :: 0 <= j < i ==> !Covers(pinned[1..][j], minor) {
      assert pinned[i + 1] == p;
      assert !Covers(pinned[0], minor) ==> forall j :: 0 <= j < i + 1 ==> !Covers(pinned[j], minor) by {
        forall j | 0 < j < i + 1
          ensures !Covers(pinned[j], minor)
        {
          assert pinned[j] == pinned[1..][j - 1];
        }
      }
    }
  }

  /** The release of a tagged minor with newest patch `v`. */
  ghost predicate ReleaseOf(v: string, pinned: seq<string>, probe: Probe, g: string) {
    if v in pinned || probe(v) == Some(true) then g == v else FirstPinned(pinned, MinorOf(v), g)
  }

  lemma ChoiceIs(tags: seq<string>, v: string, pinned: seq<string>, probe: Probe, g: string)
    requires IsLatestString(tags, v)
    ensures Choice(v, pinned, probe) == Some(g) <==> ReleaseOf(v, pinned, probe, g)
  {
    ChoiceCovers(tags, v, pinned, probe);
    SearchIsFirst(pinned, MinorOf(v), g);
  }

  /** In a result the minor with newest patch `v` has exactly this release: `v` if it is pinned or its images exist,
      else the first pinned release of the minor, if there is one. */
  lemma MinorHas(tags: seq<string>, snapshot: string, pinned: seq<string>, probe: Probe, out: seq<string>, v: string,
      g: string)
    requires Desired(tags, snapshot, pinned, probe, out) && SnapshotLabel(snapshot) && IsLatestString(tags, v)
    ensures g in out && Covers(g, MinorOf(v)) <==> ReleaseOf(v, pinned, probe, g)
  {
    var computed :| DesiredFrom(computed, tags, snapshot, pinned, probe, out);
    assert v in computed;
    ChoiceIs(tags, v, pinned, probe, g);
    if g in out && Covers(g, MinorOf(v)) {
      OnlyChoice(computed, tags, snapshot, pinned, probe, out, v, g);
    }
    if ReleaseOf(v, pinned, probe, g) {
      ChoiceCovers(tags, v, pinned, probe);
      ReleasesAre(computed, pinned, probe, g);
      assert ChosenFor(computed, pinned, probe, v, g);
      ResultMembers(computed, tags, snapshot, pinned, probe, out, g);
    }
  }

  /** The newest patch of a minor is adopted if and only if it is pinned or its images exist. */
  lemma NewestAdoptedIff(tags: seq<string>, snapshot: string, pinned: seq<string>, probe: Probe, out: seq<string>,
      v: string)
    requires Desired(tags, snapshot, pinned, probe, out) && SnapshotLabel(snapshot) && IsLatestString(tags, v)
    ensures v in out <==> v in pinned || probe(v) == Some(true)
  {
    ChoiceCovers(tags, v, pinned, probe);
    MinorHas(tags, snapshot, pinned, probe, out, v, v);
  }

  /** A minor has no release if and only if its newest patch has no images and none of it is pinned. */
  lemma MinorLostIff(tags: seq<string>, snapshot: string, pinned: seq<string>, probe: Probe, out: seq<string>,
      v: string)
    requires Desired(tags, snapshot, pinned, probe, out) && SnapshotLabel(snapshot) && IsLatestString(tags, v)
    ensures (exists g :: g in out && Covers(g, MinorOf(v))) <==>
            probe(v) == Some(true) || exists p :: p in pinned && Covers(p, MinorOf(v))
  {
    ChoiceCovers(tags, v, pinned, probe);
    var c := Choice(v, pinned, probe);
    if c.Some? {
      ChoiceIs(tags, v, pinned, probe, c.value);
      MinorHas(tags, snapshot, pinned, probe, out, v, c.value);
      if probe(v) != Some(true) && v !in pinned {
        PinnedGAFinds(pinned, MinorOf(v));
      }
    } else {
      forall g | g in out
        ensures !Covers(g, MinorOf(v))
      {
        MinorHas(tags, snapshot, pinned, probe, out, v, g);
        ChoiceIs(tags, v, pinned, probe, g);
      }
    }
  }

  /** Every release of a result stands for a tagged minor. */
  lemma ReleasesTagged(tags: seq<string>, snapshot: string, pinned: seq<string>, probe: Probe, out: seq<string>,
      g: string)
    requires Desired(tags, snapshot, pinned, probe, out) && SnapshotLabel(snapshot) && g in out && !IsSnapshot(g)
    ensures exists v :: IsLatestString(tags, v) && MinorOf(v) == MinorOf(g)
  {
    var computed :| DesiredFrom(computed, tags, snapshot, pinned, probe, out);
    ResultMembers(computed, tags, snapshot, pinned, probe, out, g);
    ReleasesAre(computed, pinned, probe, g);
    var v :| ChosenFor(computed, pinned, probe, v, g);
    assert IsLatestString(tags, v);
    ChoiceCovers(tags, v, pinned, probe);
  }

  // ---- The SNAPSHOT ----

  /** A SNAPSHOT whose minor has no release in the list. */
  ghost predicate Alone(out: seq<string>, s: string) {
    IsSnapshot(s) && forall g :: g in out ==> !Covers(g, MinorOf(s))
  }

  /** `s` is the first pinned SNAPSHOT whose minor gets no release. */
  ghost predicate FirstAlone(pinned: seq<string>, out: seq<string>, s: string) {
    exists i :: 0 <= i < |pinned| && pinned[i] == s && Alone(out, s) &&
                forall j :: 0 <= j < i ==> !Alone(out, pinned[j])
  }

  lemma AloneIff(computed: seq<string>, tags: seq<string>, snapshot: string, pinned: seq<string>, probe: Probe,
      out: seq<string>, s: string)
    requires DesiredFrom(computed, tags, snapshot, pinned, probe, out) && SnapshotLabel(snapshot)
    ensures Uncovered(Releases(computed, pinned, probe), s) <==> Alone(out, s)
  {
    var ga := Releases(computed, pinned, probe);
    forall g | g in ga
      ensures g in out && !IsSnapshot(g) && MinorOf(g) != (0, 0)
    {
      ReleasesApart(computed, tags, pinned, probe, g, g);
      ResultMembers(computed, tags, snapshot, pinned, probe, out, g);
    }
    forall g | g in out && !IsSnapshot(g)
      ensures g in ga
    {
      ResultMembers(computed, tags, snapshot, pinned, probe, out, g);
    }
    NoneFound(ga, MinorOf(s));
  }

  lemma {:induction false} NoneFound(ga: seq<string>, minor: (int, int))
    requires forall g :: g in ga ==> MinorOf(g) != (0, 0)
    ensures PinnedGA(ga, minor) == "" <==> forall g :: g in ga ==> !Covers(g, minor)
  {
    if ga != [] {
      assert ga[0] in ga;
      if ga[0] == "" {
        EmptyIsZero();
      }
      NoneFound(ga[1..], minor);
      assert forall g :: g in ga <==> g == ga[0] || g in ga[1..];
    }
  }

  lemma {:induction false} SnapshotSearch(ga: seq<string>, out: seq<string>, pinned: seq<string>, s: string)
    requires forall p :: Uncovered(ga, p) <==> Alone(out, p)
    ensures PinnedSnapshot(ga, pinned) == s && s != "" <==> FirstAlone(pinned, out, s)
  {
    if pinned != [] {
      SnapshotSearch(ga, out, pinned[1..], s);
      FirstAloneTail(pinned, out, s);
      assert Uncovered(ga, pinned[0]) <==> Alone(out, pinned[0]);
    }
  }

  lemma FirstAloneTail(pinned: seq<string>, out: seq<string>, s: string)
    requires pinned != []
    ensures FirstAlone(pinned, out, s) <==>
            if Alone(out, pinned[0]) then s == pinned[0] else FirstAlone(pinned[1..], out, s)
  {
    if i :| 0 <= i < |pinned| && pinned[i] == s && Alone(out, s) && forall j :: 0 <= j < i ==> !Alone(out, pinned[j]) {
      if i > 0 {
        assert pinned[1..][i - 1] == s;
      }
    }
    if i :| 0 <= i < |pinned[1..]| && pinned[1..][i] == s && Alone(out, s) &&
            forall j :: 0 <= j < i ==> !Alone(out, pinned[1..][j]) {
      assert pinned[i + 1] == s;
      assert !Alone(out, pinned[0]) ==> forall j :: 0 <= j < i + 1 ==> !Alone(out, pinned[j]) by {
        forall j | 0 < j < i + 1
          ensures !Alone(out, pinned[j])
        {
          assert pinned[j] == pinned[1..][j - 1];
        }
      }
    }
  }

  /** The SNAPSHOT of a result is the first pinned one whose minor gets no release, else the label, if there is one. */
  lemma SnapshotIs(tags: seq<string>, snapshot: string, pinned: seq<string>, probe: Probe, out: seq<string>, s: string)
    requires Desired(tags, snapshot, pinned, probe, out) && SnapshotLabel(snapshot)
    ensures s in out && IsSnapshot(s) <==>
            || FirstAlone(pinned, out, s)
            || (snapshot != "" && s == snapshot && forall p :: p in pinned ==> !Alone(out, p))
  {
    var computed :| DesiredFrom(computed, tags, snapshot, pinned, probe, out);
    var ga := Releases(computed, pinned, probe);
    forall p
      ensures Uncovered(ga, p) <==> Alone(out, p)
    {
      AloneIff(computed, tags, snapshot, pinned, probe, out, p);
    }
    SnapshotSearch(ga, out, pinned, s);
    PinnedSnapshotFinds(ga, pinned);
    ResultMembers(computed, tags, snapshot, pinned, probe, out, s);
  }

  // ---- The order ----

  /** Lower major, then lower minor, then lower or equal patch. */
  predicate NotAfter(a: Version, b: Version) {
    a.major < b.major || (a.major == b.major && (a.minor < b.minor || (a.minor == b.minor && a.patch <= b.patch)))
  }

  /** A result lists releases before SNAPSHOTs, and each kind by version. */
  lemma ResultOrder(tags: seq<string>, snapshot: string, pinned: seq<string>, probe: Probe, out: seq<string>, i: nat,
      j: nat)
    requires Desired(tags, snapshot, pinned, probe, out) && i < j < |out|
    ensures IsSnapshot(out[i]) ==> IsSnapshot(out[j])
    ensures IsSnapshot(out[i]) == IsSnapshot(out[j]) ==> NotAfter(ParseLoose(out[i]), ParseLoose(out[j]))
  {
    assert MatrixLeq(out[i], out[j]);
  }
}

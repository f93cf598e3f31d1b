/** The artifact of the version matrix: when what is written can be read back. */
module Artifact {
  import opened Collections
  import opened Text
  import opened Sorting
  import opened Versions
  import opened Matrix

  // ---- Reading the artifact back ----

  predicate ValidVersion(v: string) {
    var base := ParseGATag(TrimSuffix(v, SNAPSHOT));
    base.Some? && (base.value.major == 8 || base.value.major == 9)
  }

  ghost predicate ValidPinned(versions: seq<string>) {
    versions != [] && Distinct(versions) && forall v :: v in versions ==> ValidVersion(v)
  }

  /** `validatePinnedVersions`. */
  method ValidatePinnedVersions(versions: seq<string>) returns (ok: bool)
    ensures ok <==> ValidPinned(versions)
  {
    if versions == [] {
      return false;
    }
    var seen := {};
    for i := 0 to |versions|
      invariant seen == Elements(versions[..i]) && ValidSoFar(versions[..i])
    {
      OneMore(versions, i);
      if versions[i] in seen || !ValidVersion(versions[i]) {
        NotValid(versions, i);
        return false;
      }
      AppendDistinct(versions[..i], versions[i]);
      seen := seen + {versions[i]};
    }
    assert versions[..|versions|] == versions;
    return true;
  }

  ghost predicate ValidSoFar(versions: seq<string>) {
    Distinct(versions) && forall v :: v in versions ==> ValidVersion(v)
  }

  lemma NotValid(versions: seq<string>, i: nat)
    requires i < |versions| && (versions[i] in Elements(versions[..i]) || !ValidVersion(versions[i]))
    ensures !ValidPinned(versions)
  {
    if versions[i] in Elements(versions[..i]) {
      var k :| 0 <= k < i && versions[..i][k] == versions[i];
      assert versions[k] == versions[i];
    }
  }

  /** `ParseSnapshotLabel`, on the version its response carries: three runs of digits and the suffix. */
  predicate LabelPattern(version: string) {
    && IsSnapshot(version)
    && var parts := Split(TrimSuffix(version, SNAPSHOT), '.');
    && |parts| == 3
    && forall i :: 0 <= i < 3 ==> parts[i] != "" && AllDigits(parts[i])
  }

  function ParseSnapshotLabel(version: string): Option<string> {
    if TrimSpace(version) == "" || !LabelPattern(version) then None else Some(version)
  }

  // ---- When the result can be read back, in terms of the inputs ----

  /** The minor of the newest patch `v` gets a release: `v` itself is pinned or its images exist, or another release
      of its minor is pinned. */
  ghost predicate Contributes(tags: seq<string>, pinned: seq<string>, probe: Probe, v: string) {
    && IsLatestString(tags, v)
    && (v in pinned || probe(v) == Some(true) || exists p :: p in pinned && Covers(p, MinorOf(v)))
  }

  ghost predicate SomeRelease(tags: seq<string>, pinned: seq<string>, probe: Probe) {
    exists v :: Contributes(tags, pinned, probe, v)
  }

  /** A pinned SNAPSHOT of a minor that gets no release. */
  ghost predicate OpenSnapshot(tags: seq<string>, pinned: seq<string>, probe: Probe, p: string) {
    p in pinned && IsSnapshot(p) && forall v :: Contributes(tags, pinned, probe, v) ==> MinorOf(v) != MinorOf(p)
  }

  ghost predicate KeepsSnapshot(tags: seq<string>, pinned: seq<string>, probe: Probe) {
    exists p :: OpenSnapshot(tags, pinned, probe, p)
  }

  lemma ChoiceIff(tags: seq<string>, v: string, pinned: seq<string>, probe: Probe)
    requires IsLatestString(tags, v)
    ensures Choice(v, pinned, probe).Some? <==> Contributes(tags, pinned, probe, v)
  {
    ChoiceCovers(tags, v, pinned, probe);
    PinnedGAFinds(pinned, MinorOf(v));
  }

  lemma ReleasesIff(computed: seq<string>, tags: seq<string>, pinned: seq<string>, probe: Probe)
    requires IsLatest(tags, computed)
    ensures Releases(computed, pinned, probe) != [] <==> SomeRelease(tags, pinned, probe)
  {
    var ga := Releases(computed, pinned, probe);
    if ga != [] {
      ReleasesAre(computed, pinned, probe, ga[0]);
      var v :| ChosenFor(computed, pinned, probe, v, ga[0]);
      ChoiceIff(tags, v, pinned, probe);
    }
    if v :| Contributes(tags, pinned, probe, v) {
      ChoiceIff(tags, v, pinned, probe);
      ReleasesAre(computed, pinned, probe, Choice(v, pinned, probe).value);
      assert ChosenFor(computed, pinned, probe, v, Choice(v, pinned, probe).value);
    }
  }

  lemma ValidMinor(p: string)
    requires ValidVersion(p)
    ensures MinorOf(p) != (0, 0)
  {
    assert ParseLoose(p) == ParseGATag(TrimSuffix(p, SNAPSHOT)).value;
  }

  lemma UncoveredIff(computed: seq<string>, tags: seq<string>, pinned: seq<string>, probe: Probe, p: string)
    requires IsLatest(tags, computed) && p in pinned && ValidVersion(p)
    ensures Uncovered(Releases(computed, pinned, probe), p) <==> OpenSnapshot(tags, pinned, probe, p)
  {
    var ga := Releases(computed, pinned, probe);
    ValidMinor(p);
    PinnedGAFinds(ga, MinorOf(p));
    if PinnedGA(ga, MinorOf(p)) == "" {
      forall v | Contributes(tags, pinned, probe, v)
        ensures MinorOf(v) != MinorOf(p)
      {
        ChoiceIff(tags, v, pinned, probe);
        ChoiceCovers(tags, v, pinned, probe);
        var g := Choice(v, pinned, probe).value;
        ReleasesAre(computed, pinned, probe, g);
        assert ChosenFor(computed, pinned, probe, v, g);
      }
    } else {
      var g := PinnedGA(ga, MinorOf(p));
      ReleasesAre(computed, pinned, probe, g);
      var v :| ChosenFor(computed, pinned, probe, v, g);
      ChoiceIff(tags, v, pinned, probe);
      ChoiceCovers(tags, v, pinned, probe);
    }
  }

  /** Which SNAPSHOT the result has. */
  lemma SnapshotIff(computed: seq<string>, tags: seq<string>, snapshot: string, pinned: seq<string>, probe: Probe)
    requires IsLatest(tags, computed) && ValidPinned(pinned)
    ensures var c := SnapshotChoice(Releases(computed, pinned, probe), pinned, snapshot);
            if KeepsSnapshot(tags, pinned, probe) then c.Some? && c.value in pinned else c == NonEmpty(snapshot)
  {
    var ga := Releases(computed, pinned, probe);
    PinnedSnapshotFinds(ga, pinned);
    forall p | p in pinned
      ensures Uncovered(ga, p) <==> OpenSnapshot(tags, pinned, probe, p)
    {
      UncoveredIff(computed, tags, pinned, probe, p);
    }
  }

  lemma ReleaseValid(computed: seq<string>, tags: seq<string>, pinned: seq<string>, probe: Probe, x: string)
    requires IsLatest(tags, computed) && ValidPinned(pinned) && x in Releases(computed, pinned, probe)
    ensures ValidVersion(x)
  {
    ReleasesAre(computed, pinned, probe, x);
    var v :| ChosenFor(computed, pinned, probe, v, x);
    if x !in pinned {
      FreshChoice(tags, v, pinned, probe, x);
      LatestReads(tags, x);
      PrintReads(ParseLoose(x));
      assert TrimSuffix(x, SNAPSHOT) == x;
    }
  }

  /** From a valid artifact, the result is again a valid artifact if and only if there is something to write (a
      minor with a release, a pinned SNAPSHOT to keep, or a label) and a label that no pinned SNAPSHOT keeps out
      is itself a valid entry. */
  lemma ResultReadsBack(tags: seq<string>, snapshot: string, pinned: seq<string>, probe: Probe, out: seq<string>)
    requires Desired(tags, snapshot, pinned, probe, out) && SnapshotLabel(snapshot) && ValidPinned(pinned)
    ensures ValidPinned(out) <==>
            && (SomeRelease(tags, pinned, probe) || KeepsSnapshot(tags, pinned, probe) || snapshot != "")
            && (!KeepsSnapshot(tags, pinned, probe) && snapshot != "" ==> ValidVersion(snapshot))
  {
    var computed :| DesiredFrom(computed, tags, snapshot, pinned, probe, out);
    OnePerMinor(tags, snapshot, pinned, probe, out);
    ReleasesIff(computed, tags, pinned, probe);
    SnapshotIff(computed, tags, snapshot, pinned, probe);
    var ga := Releases(computed, pinned, probe);
    var c := SnapshotChoice(ga, pinned, snapshot);
    forall x | x in ga
      ensures ValidVersion(x)
    {
      ReleaseValid(computed, tags, pinned, probe, x);
    }
    ListValid(ga, c, out);
  }

  /** Releases and perhaps one SNAPSHOT: valid exactly when there is any and the SNAPSHOT is. */
  lemma ListValid(ga: seq<string>, c: Option<string>, out: seq<string>)
    requires Distinct(out) && multiset(out) == multiset(ga + Kept(c)) && forall x :: x in ga ==> ValidVersion(x)
    ensures ValidPinned(out) <==> (ga != [] || c.Some?) && (c.Some? ==> ValidVersion(c.value))
  {
    MultisetMembers(out, ga + Kept(c));
    if c.Some? {
      assert c.value in Kept(c);
      assert c.value in out;
    }
  }

  // ---- A label that is written and then refused ----

  const OLD := Version(8, 1, 0)

  lemma OldFacts()
    ensures Print(OLD) == "8.1.0" && GATag("v8.1.0") == Some(OLD) && ValidVersion("8.1.0") && !IsSnapshot("8.1.0")
    ensures ParseLoose("8.1.0") == OLD
  {
    assert Decimal(8) == "8" && Decimal(1) == "1" && Decimal(0) == "0";
    assert Print(OLD) == "8.1.0";
    PrintReads(OLD);
    PrintSplits("8", "1", "0");
    assert "8" + "." + "1" + "." + "0" == "8.1.0";
    var tag := "v8.1.0";
    assert tag[1..] == "8.1.0" && HasPrefix(tag, "v");
    assert TrimPrefix(tag, "v") == "8.1.0" && TrimPrefix("8.1.0", "v") == "8.1.0";
    assert TrimSuffix("8.1.0", SNAPSHOT) == "8.1.0";
  }

  lemma OldIsLatest()
    ensures IsLatest(["v8.1.0"], ["8.1.0"])
  {
    OldFacts();
    var tags := ["v8.1.0"];
    assert tags[0] in tags;
    assert IsBest(tags, OLD);
    assert IsLatestOf(tags, "8.1.0", OLD);
    forall s | IsLatestString(tags, s)
      ensures s == "8.1.0"
    {
      var v :| IsLatestOf(tags, s, v);
      assert v == OLD;
    }
  }

  /** For any label that the label parser accepts and the artifact reader does not: one tag, pinned already, and the
      label is adopted, so what is written is refused on the next read. */
  lemma LabelRefusedLater(label_: string, probe: Probe)
    requires ParseSnapshotLabel(label_) == Some(label_) && !ValidVersion(label_)
    ensures ValidPinned(["8.1.0"])
    ensures Desired(["v8.1.0"], label_, ["8.1.0"], probe, ["8.1.0", label_])
    ensures !ValidPinned(["8.1.0", label_])
  {
    OldIsLatest();
    OldFacts();
    OneValid("8.1.0");
    SecondInvalid("8.1.0", label_);
    OldDesired(label_, probe);
  }

  lemma OneValid(v: string)
    requires ValidVersion(v)
    ensures ValidPinned([v])
  {
    assert forall x :: x in [v] ==> x == v;
  }

  lemma SecondInvalid(v: string, w: string)
    requires !ValidVersion(w)
    ensures !ValidPinned([v, w])
  {
    assert [v, w][1] == w;
  }

  lemma OldDesired(label_: string, probe: Probe)
    requires IsSnapshot(label_) && !IsSnapshot("8.1.0") && IsLatest(["v8.1.0"], ["8.1.0"])
    ensures Desired(["v8.1.0"], label_, ["8.1.0"], probe, ["8.1.0", label_])
  {
    var computed, out := ["8.1.0"], ["8.1.0", label_];
    OldReleases("8.1.0", probe);
    PinnedSnapshotFinds(computed, computed);
    assert label_ != "";
    assert DesiredList(computed, label_, computed, probe) == computed + [label_] == out;
    SortedPair("8.1.0", label_);
    assert DesiredFrom(computed, ["v8.1.0"], label_, computed, probe, out);
  }

  lemma SortedPair(v: string, w: string)
    requires !IsSnapshot(v) && IsSnapshot(w)
    ensures Sorted([v, w], MatrixLeq)
  {
    assert MatrixLeq(v, w);
  }

  lemma OldReleases(v: string, probe: Probe)
    ensures Releases([v], [v], probe) == [v]
  {
    var one := [v];
    assert one[..0] == [];
    assert Releases(one[..0], one, probe) == [];
    assert Choice(v, one, probe) == Some(v);
  }

  /** The label parser accepts any three runs of digits before the suffix. */
  lemma LabelAccepted(a: string, b: string, c: string)
    requires a != "" && b != "" && c != "" && AllDigits(a) && AllDigits(b) && AllDigits(c)
    ensures var v := a + "." + b + "." + c + SNAPSHOT; ParseSnapshotLabel(v) == Some(v)
  {
    var base := a + "." + b + "." + c;
    SnapshotOf(base);
    PrintSplits(a, b, c);
    var v := base + SNAPSHOT;
    assert v[0] == a[0] && IsDigit(a[0]);
    assert v[|v| - 1] == 'T';
    NotBlank(v);
  }

  /** So it accepts a major that the reader refuses. */
  lemma TenIsRejected()
    ensures var v := "10" + "." + "0" + "." + "0" + SNAPSHOT; ParseSnapshotLabel(v) == Some(v) && !ValidVersion(v)
  {
    LabelAccepted("10", "0", "0");
    TenReads();
    SnapshotOf("10" + "." + "0" + "." + "0");
  }

  lemma TenReads()
    ensures ParseGATag("10" + "." + "0" + "." + "0") == Some(Version(10, 0, 0))
  {
    assert Decimal(10) == "10" && Decimal(0) == "0";
    PrintReads(Version(10, 0, 0));
  }

  lemma SnapshotOf(base: string)
    ensures IsSnapshot(base + SNAPSHOT) && TrimSuffix(base + SNAPSHOT, SNAPSHOT) == base
  {
  }
}

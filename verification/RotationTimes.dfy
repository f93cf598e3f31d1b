/** Exactly which recorded times make the rotation fair. */
module RotationTimes {
  import opened Collections
  import opened Text
  import opened Sorting
  import opened Rotation

  // ---- Runs over any times ----

  ghost predicate LooseRoundAt(n: nat, states: seq<Stamps>, picks: seq<seq<Entity>>, times: seq<int>, i: nat) {
    && i < |picks| == |times| && |states| == |picks| + 1
    && IsOldest(states[i], n, picks[i])
    && states[i + 1] == AfterRound(states[i], picks[i], times[i])
  }

  /** Rounds of `n`, as `Memory.Round` makes them, at these times, whatever they are. */
  ghost predicate IsLooseRun(n: nat, states: seq<Stamps>, picks: seq<seq<Entity>>, times: seq<int>) {
    && |picks| == |times| && |states| == |picks| + 1
    && forall i :: 0 <= i < |picks| ==> LooseRoundAt(n, states, picks, times, i)
  }

  /** If ceil(size/n) rounds are left from `first` on, they select `e`. */
  ghost predicate SelectedFrom(n: nat, size: nat, picks: seq<seq<Entity>>, first: nat, e: Entity)
    requires n > 0
  {
    first + Ceiling(size, n) <= |picks| ==> e in PickedIn(picks, first, first + Ceiling(size, n))
  }

  /** Every entity is selected in every window of ceil(N/n) rounds. */
  ghost predicate IsFair(n: nat, states: seq<Stamps>, picks: seq<seq<Entity>>)
    requires n > 0 && states != []
  {
    forall first: nat, e :: e in states[0].Keys ==> SelectedFrom(n, |states[0].Keys|, picks, first, e)
  }

  /** Whatever the memory, as long as every entity has a name and no stamp lies at or after the first time, and
      whatever the size of a round. */
  ghost predicate FairTimes(times: seq<int>)
    requires times != []
  {
    forall n: nat, states, picks ::
      n > 0 && IsLooseRun(n, states, picks, times) && Starts(states[0], times) ==> IsFair(n, states, picks)
  }

  ghost predicate Starts(m: Stamps, times: seq<int>)
    requires times != []
  {
    AllNamed(m) && Later(m, times[0])
  }

  /** Each time is later than the one before, the last excepted: nothing is selected after it. */
  predicate RisesUntilLast(times: seq<int>) {
    forall i :: 0 <= i < |times| - 2 ==> times[i] < times[i + 1]
  }

  // ---- Rising times are fair ----

  lemma {:induction false} AlwaysLater(n: nat, states: seq<Stamps>, picks: seq<seq<Entity>>, times: seq<int>, i: nat)
    requires IsLooseRun(n, states, picks, times) && RisesUntilLast(times)
    requires i < |times| - 1 && Later(states[0], times[0])
    ensures Later(states[i], times[i])
    decreases i
  {
    if i > 0 {
      AlwaysLater(n, states, picks, times, i - 1);
      assert LooseRoundAt(n, states, picks, times, i - 1);
      assert times[i - 1] < times[i - 1 + 1];
    }
  }

  /** All rounds but the last are a run as `Fairness` knows it. */
  lemma AllButLast(n: nat, states: seq<Stamps>, picks: seq<seq<Entity>>, times: seq<int>)
    requires times != [] && IsLooseRun(n, states, picks, times) && RisesUntilLast(times) && Starts(states[0], times)
    ensures var k := |times| - 1; IsRun(n, states[..k + 1], picks[..k], times[..k])
  {
    var k := |times| - 1;
    var s, p, t := states[..k + 1], picks[..k], times[..k];
    forall i | 0 <= i < k
      ensures RoundAt(n, s, p, t, i)
    {
      assert LooseRoundAt(n, states, picks, times, i);
      AlwaysLater(n, states, picks, times, i);
    }
  }

  lemma {:induction false} PickedPrefix(picks: seq<seq<Entity>>, k: nat, first: nat, upTo: nat)
    requires first <= upTo <= k <= |picks|
    ensures PickedIn(picks[..k], first, upTo) == PickedIn(picks, first, upTo)
    decreases upTo
  {
    if first < upTo {
      PickedPrefix(picks, k, first, upTo - 1);
    }
  }

  /** A round covers what is left, whatever is recorded afterwards. */
  lemma LastRound(m: Stamps, n: nat, picked: seq<Entity>, done: set<Entity>)
    requires IsOldest(m, n, picked) && WaitsAhead(m, done)
    ensures |done + Elements(picked)| == Smaller(|done| + n, |m.Keys|) && done + Elements(picked) <= m.Keys
  {
    OthersFirst(m, n, picked, done);
    DistinctMultiset(picked);
    RoundCount(m.Keys, done, Elements(picked), n);
  }

  lemma AllOfThem(all: set<Entity>, some: set<Entity>, e: Entity)
    requires some <= all && |some| == |all| && e in all
    ensures e in some
  {
    SubsetSize(some, all);
  }

  lemma LastWindow(n: nat, states: seq<Stamps>, picks: seq<seq<Entity>>, times: seq<int>, first: nat, e: Entity)
    requires n > 0 && times != [] && IsLooseRun(n, states, picks, times) && RisesUntilLast(times) &&
               Starts(states[0], times)
    requires e in states[0] && first + Ceiling(|states[0].Keys|, n) == |picks| && first < |picks|
    ensures e in PickedIn(picks, first, |picks|)
  {
    var k, done := |times| - 1, PickedIn(picks, first, |times| - 1);
    BeforeLast(n, states, picks, times, first);
    assert LooseRoundAt(n, states, picks, times, k);
    LastRound(states[k], n, picks[k], done);
    Enough(|states[0].Keys|, n, k - first);
    AllOfThem(states[k].Keys, done + Elements(picks[k]), e);
  }

  lemma Enough(size: nat, n: nat, k: nat)
    requires n > 0 && k + 1 == Ceiling(size, n)
    ensures Smaller(Smaller(k * n, size) + n, size) == size
  {
    CeilingCovers(size, n);
    assert (k + 1) * n == k * n + n;
  }

  lemma BeforeLast(n: nat, states: seq<Stamps>, picks: seq<seq<Entity>>, times: seq<int>, first: nat)
    requires times != [] && IsLooseRun(n, states, picks, times) && RisesUntilLast(times) && Starts(states[0], times)
    requires first <= |times| - 1
    ensures var k := |times| - 1; var done := PickedIn(picks, first, k);
            && WaitsAhead(states[k], done) && states[k].Keys == states[0].Keys
            && |done| == Smaller((k - first) * n, |states[0].Keys|)
  {
    var k := |times| - 1;
    var run, short := states[..k + 1], picks[..k];
    AllButLast(n, states, picks, times);
    WindowCount(n, run, short, times[..k], first, k - first);
    InventoryFixed(n, run, short, times[..k], k);
    PickedPrefix(picks, k, first, k);
  }

  lemma RisingIsFair(n: nat, states: seq<Stamps>, picks: seq<seq<Entity>>, times: seq<int>)
    requires n > 0 && times != [] && IsLooseRun(n, states, picks, times) && RisesUntilLast(times) &&
               Starts(states[0], times)
    ensures IsFair(n, states, picks)
  {
    forall first: nat, e | e in states[0].Keys
      ensures SelectedFrom(n, |states[0].Keys|, picks, first, e)
    {
      if first + Ceiling(|states[0].Keys|, n) <= |picks| {
        RisingWindow(n, states, picks, times, first, e);
      }
    }
  }

  lemma RisingWindow(n: nat, states: seq<Stamps>, picks: seq<seq<Entity>>, times: seq<int>, first: nat, e: Entity)
    requires n > 0 && times != [] && IsLooseRun(n, states, picks, times) && RisesUntilLast(times) &&
               Starts(states[0], times)
    requires e in states[0].Keys && first + Ceiling(|states[0].Keys|, n) <= |picks|
    ensures e in PickedIn(picks, first, first + Ceiling(|states[0].Keys|, n))
  {
    NonZeroCeiling(states[0].Keys, n, e);
    var k, upTo := |times| - 1, first + Ceiling(|states[0].Keys|, n);
    AllButLast(n, states, picks, times);
    if upTo == |picks| {
      LastWindow(n, states, picks, times, first, e);
    } else {
      Fairness(n, states[..k + 1], picks[..k], times[..k], first, e);
      PickedPrefix(picks, k, first, upTo);
    }
  }

  lemma NonZeroCeiling(keys: set<Entity>, n: nat, e: Entity)
    requires e in keys && n > 0
    ensures Ceiling(|keys|, n) > 0
  {
    var c := Ceiling(|keys|, n);
    CeilingCovers(|keys|, n);
    SubsetSize({e}, keys);
    assert c * n >= 1;
    assert c != 0;
  }

  // ---- A run exists from every memory ----

  lemma OldestExists(m: Stamps, n: nat) returns (picked: seq<Entity>)
    ensures IsOldest(m, n, picked)
  {
    WaitingOrder();
    var sorted := SortSet(AllOf(m), NotAfter);
    DistinctMultiset(sorted);
    OnePerEntity(m, AllOf(m));
    picked := seq(Smaller(n, |sorted|), i requires 0 <= i < |sorted| => sorted[i].entity);
    PrefixIsOldest(m, n, sorted, picked);
  }

  lemma {:induction false} RunExists(m: Stamps, n: nat, times: seq<int>)
    returns (states: seq<Stamps>, picks: seq<seq<Entity>>)
    ensures IsLooseRun(n, states, picks, times) && states[0] == m
    decreases |times|
  {
    if times == [] {
      states, picks := [m], [];
    } else {
      var picked := OldestExists(m, n);
      var next := AfterRound(m, picked, times[0]);
      var states', picks' := RunExists(next, n, times[1..]);
      states, picks := [m] + states', [picked] + picks';
      assert IsLooseRun(n, [m, next], [picked], [times[0]]) by {
        assert LooseRoundAt(n, [m, next], [picked], [times[0]], 0);
      }
      RunsJoin(n, [m, next], [picked], [times[0]], states', picks', times[1..]);
      assert [m, next] + states'[1..] == states;
      assert [times[0]] + times[1..] == times;
    }
  }

  lemma RunsJoin(n: nat, sa: seq<Stamps>, pa: seq<seq<Entity>>, ta: seq<int>, sb: seq<Stamps>, pb: seq<seq<Entity>>,
      tb: seq<int>)
    requires IsLooseRun(n, sa, pa, ta) && IsLooseRun(n, sb, pb, tb) && sa[|sa| - 1] == sb[0]
    ensures IsLooseRun(n, sa + sb[1..], pa + pb, ta + tb)
  {
    var s, p, t := sa + sb[1..], pa + pb, ta + tb;
    forall i | 0 <= i < |p|
      ensures LooseRoundAt(n, s, p, t, i)
    {
      if i < |pa| {
        assert LooseRoundAt(n, sa, pa, ta, i);
        assert s[i] == sa[i] && s[i + 1] == sa[i + 1];
      } else {
        var k := i - |pa|;
        assert LooseRoundAt(n, sb, pb, tb, k);
        assert s[i] == sb[k] && s[i + 1] == sb[k + 1];
      }
    }
  }

  // ---- Times that fall or stand still are not ----

  const A := Entity(RESOURCE, "a")
  const B := Entity(RESOURCE, "b")

  /** The two entities take turns, so that `A` has the turn after round `i`. */
  function Turn(i: int, j: int): Entity {
    if (i + 1 - j) % 2 == 0 then A else B
  }

  /** The time of round `k`; before the first round, one that lies before it, and none. */
  function StampOf(times: seq<int>, k: int): Stamp
    requires times != [] && k < |times|
  {
    if k >= 0 then Some(times[k]) else if k == -1 then Some(times[0] - 1) else None
  }

  function Pair(x: Entity, sx: Stamp, y: Entity, sy: Stamp): Stamps {
    map[x := sx, y := sy]
  }

  /** The memory before round `j`. */
  function Alternating(times: seq<int>, i: nat, j: nat): Stamps
    requires times != [] && j <= |times|
  {
    Pair(Turn(i, j), StampOf(times, j - 2), Turn(i, j + 1), StampOf(times, j - 1))
  }

  lemma TwoNames()
    ensures A != B && Before(Candidate(A, None), Candidate(B, None))
    ensures forall t: Stamp :: Before(Candidate(A, t), Candidate(B, t))
  {
    assert A.name[0] < B.name[0];
    assert !StringLeq(B.name, A.name);
  }

  lemma PairOldest(x: Entity, sx: Stamp, y: Entity, sy: Stamp, now: int)
    requires x != y && Before(Candidate(x, sx), Candidate(y, sy))
    ensures IsOldest(Pair(x, sx, y, sy), 1, [x])
    ensures x.name != "" ==> AfterRound(Pair(x, sx, y, sy), [x], now) == Pair(x, Some(now), y, sy)
  {
    var m := Pair(x, sx, y, sy);
    assert m.Keys == {x, y} && Elements([x]) == {x};
    assert Cand(m, x) == Candidate(x, sx) && Cand(m, y) == Candidate(y, sy);
    assert |{x, y}| == 2;
    assert Recorded(m, [x], now) == Pair(x, Some(now), y, sy);
  }

  lemma TurnsAlternate(i: int, j: int)
    ensures Turn(i, j) != Turn(i, j + 1) && Turn(i, j) == Turn(i, j + 2)
    ensures Turn(i, i + 1) == A && Turn(i, i + 2) == B
  {
    TwoNames();
  }

  ghost predicate RisesTo(times: seq<int>, i: nat) {
    i < |times| && forall j :: 0 <= j < i ==> times[j] < times[j + 1]
  }

  lemma OlderTurn(times: seq<int>, i: nat, j: nat, x: Entity, y: Entity)
    requires RisesTo(times, i) && j <= i + 1 < |times|
    ensures Before(Candidate(x, StampOf(times, j - 2)), Candidate(y, StampOf(times, j - 1)))
  {
    if j >= 2 {
      assert times[j - 2] < times[j - 2 + 1];
    }
  }

  /** Up to round `i + 1` the two take turns. */
  lemma TurnRound(times: seq<int>, i: nat, j: nat)
    requires RisesTo(times, i) && j <= i + 1 < |times|
    ensures IsOldest(Alternating(times, i, j), 1, [Turn(i, j)])
    ensures AfterRound(Alternating(times, i, j), [Turn(i, j)], times[j]) == Alternating(times, i, j + 1)
  {
    TurnsAlternate(i, j);
    var x, y := Turn(i, j), Turn(i, j + 1);
    var sx, sy := StampOf(times, j - 2), StampOf(times, j - 1);
    OlderTurn(times, i, j, x, y);
    PairOldest(x, sx, y, sy, times[j]);
    NextTurn(times, i, j, x, y);
  }

  lemma NextTurn(times: seq<int>, i: nat, j: nat, x: Entity, y: Entity)
    requires j < |times| && x == Turn(i, j) && y == Turn(i, j + 1) && x != y
    ensures x.name != "" && Alternating(times, i, j + 1) == Pair(x, Some(times[j]), y, StampOf(times, j - 1))
  {
    TurnsAlternate(i, j);
    assert Turn(i, j + 1 + 1) == x;
    PairSwaps(y, StampOf(times, j - 1), x, Some(times[j]));
  }

  lemma PairSwaps(x: Entity, sx: Stamp, y: Entity, sy: Stamp)
    requires x != y
    ensures Pair(x, sx, y, sy) == Pair(y, sy, x, sx)
  {
  }

  /** `A`, just recorded no later than `B` before it, is the oldest again. */
  lemma AgainRound(times: seq<int>, i: nat)
    requires i + 2 < |times| && times[i] >= times[i + 1]
    ensures IsOldest(Alternating(times, i, i + 2), 1, [A])
    ensures AfterRound(Alternating(times, i, i + 2), [A], times[i + 2]) ==
              Pair(A, Some(times[i + 2]), B, Some(times[i]))
  {
    TwoNames();
    TurnsAlternate(i, i + 1);
    TurnsAlternate(i, i + 2);
    var m := Pair(A, Some(times[i + 1]), B, Some(times[i]));
    assert Alternating(times, i, i + 2) == m;
    assert Before(Candidate(A, Some(times[i + 1])), Candidate(B, Some(times[i])));
    PairOldest(A, Some(times[i + 1]), B, Some(times[i]), times[i + 2]);
  }

  lemma StarvingRound(times: seq<int>, i: nat, states: seq<Stamps>, picks: seq<seq<Entity>>, t: seq<int>, j: nat)
    requires RisesTo(times, i) && i + 2 < |times| && times[i] >= times[i + 1] && t == times[..i + 3]
    requires |states| == i + 4 && |picks| == i + 3 && j < i + 3
    requires forall k :: 0 <= k < i + 3 ==> states[k] == Alternating(times, i, k)
    requires states[i + 3] == Pair(A, Some(times[i + 2]), B, Some(times[i]))
    requires (forall k :: 0 <= k < i + 2 ==> picks[k] == [Turn(i, k)]) && picks[i + 2] == [A]
    ensures LooseRoundAt(1, states, picks, t, j)
  {
    assert t[j] == times[j];
    if j < i + 2 {
      TurnRound(times, i, j);
      assert states[j] == Alternating(times, i, j) && states[j + 1] == Alternating(times, i, j + 1);
      assert picks[j] == [Turn(i, j)];
    } else {
      AgainRound(times, i);
      assert j == i + 2 && states[j] == Alternating(times, i, i + 2);
    }
  }

  /** Two entities over the first rounds: the window after round `i` selects `A` twice. */
  lemma StarvingPrefix(times: seq<int>, i: nat) returns (states: seq<Stamps>, picks: seq<seq<Entity>>)
    requires RisesTo(times, i) && i + 2 < |times| && times[i] >= times[i + 1]
    ensures IsLooseRun(1, states, picks, times[..i + 3])
    ensures states[0] == Alternating(times, i, 0) && picks[i + 1] == [A] && picks[i + 2] == [A]
  {
    var last := Pair(A, Some(times[i + 2]), B, Some(times[i]));
    states := seq(i + 3, j requires 0 <= j < i + 3 => Alternating(times, i, j)) + [last];
    picks := seq(i + 2, j requires 0 <= j < i + 2 => [Turn(i, j)]) + [[A]];
    var t := times[..i + 3];
    forall j | 0 <= j < |picks|
      ensures LooseRoundAt(1, states, picks, t, j)
    {
      StarvingRound(times, i, states, picks, t, j);
    }
    TurnsAlternate(i, i + 1);
  }

  lemma {:induction false} FirstFall(times: seq<int>, from: nat) returns (i: nat)
    requires !RisesUntilLast(times) && RisesTo(times, from)
    ensures i < |times| - 2 && times[i] >= times[i + 1] && RisesTo(times, i)
    decreases |times| - from
  {
    if from < |times| - 2 && times[from] < times[from + 1] {
      i := FirstFall(times, from + 1);
    } else {
      i := from;
    }
  }

  lemma NotFair(times: seq<int>)
    requires times != [] && !RisesUntilLast(times)
    ensures !FairTimes(times)
  {
    var i := FirstFall(times, 0);
    var sa, pa := StarvingPrefix(times, i);
    var sb, pb := RunExists(sa[|sa| - 1], 1, times[i + 3..]);
    RunsJoin(1, sa, pa, times[..i + 3], sb, pb, times[i + 3..]);
    var states, picks := sa + sb[1..], pa + pb;
    assert times[..i + 3] + times[i + 3..] == times;
    assert IsLooseRun(1, states, picks, times);
    TurnsAlternate(i, 0);
    var m := states[0];
    assert m == Alternating(times, i, 0);
    assert AllNamed(m) && Later(m, times[0]);
    Starves(picks, i, m);
    assert !SelectedFrom(1, |m.Keys|, picks, i + 1, B);
    assert !IsFair(1, states, picks);
  }

  lemma Starves(picks: seq<seq<Entity>>, i: nat, m: Stamps)
    requires i + 2 < |picks| && picks[i + 1] == [A] && picks[i + 2] == [A] && m.Keys == {A, B}
    ensures Ceiling(|m.Keys|, 1) == 2 && B in m && B !in PickedIn(picks, i + 1, i + 1 + 2)
  {
    TwoNames();
    assert |{A, B}| == 2;
    assert PickedIn(picks, i + 1, i + 1) == {};
    assert PickedIn(picks, i + 1, i + 2) == {} + Elements([A]);
    assert PickedIn(picks, i + 1, i + 3) == PickedIn(picks, i + 1, i + 2) + Elements([A]);
    assert i + 1 + 2 == i + 3;
  }

  /** The rotation is fair over these times, for every memory of named entities before them and every size of a
      round, if and only if each time but the last is later than the one before it. */
  lemma FairIffRising(times: seq<int>)
    requires times != []
    ensures FairTimes(times) <==> RisesUntilLast(times)
  {
    if RisesUntilLast(times) {
      forall n: nat, states, picks | n > 0 && IsLooseRun(n, states, picks, times) && Starts(states[0], times)
        ensures IsFair(n, states, picks)
      {
        RisingIsFair(n, states, picks, times);
      }
    } else {
      NotFair(times);
    }
  }
}

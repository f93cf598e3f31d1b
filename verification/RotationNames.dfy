/** Exactly which memories the rotation is fair from: an entity without a name blocks it. */
module RotationNames {
  import opened Collections
  import opened Text
  import opened Sorting
  import opened Rotation
  import opened RotationTimes

  /** Fair over every sequence of rising times after the memory, and for every size of a round. */
  ghost predicate FairMemory(m: Stamps) {
    forall n: nat, states, picks, times ::
      RisingRun(m, n, states, picks, times) ==> IsFair(n, states, picks)
  }

  ghost predicate RisingRun(m: Stamps, n: nat, states: seq<Stamps>, picks: seq<seq<Entity>>, times: seq<int>) {
    && n > 0 && times != [] && RisesUntilLast(times) && Later(m, times[0])
    && IsLooseRun(n, states, picks, times) && states[0] == m
  }

  // ---- A refused round is repeated for ever ----

  lemma SameAgain(n: nat, states: seq<Stamps>, picks: seq<seq<Entity>>, times: seq<int>, k: nat)
    requires IsLooseRun(n, states, picks, times) && k + 1 < |picks| && Refused(picks[k])
    ensures states[k + 1] == states[k] && picks[k + 1] == picks[k]
  {
    assert LooseRoundAt(n, states, picks, times, k) && LooseRoundAt(n, states, picks, times, k + 1);
    OldestUnique(states[k], n, picks[k], picks[k + 1]);
  }

  /** From a round that `record` refuses, every later round selects the same entities and stamps nothing. */
  lemma {:induction false} RefusedForEver(n: nat, states: seq<Stamps>, picks: seq<seq<Entity>>, times: seq<int>, k: nat,
                                          i: nat)
    requires IsLooseRun(n, states, picks, times) && k <= i < |picks| && Refused(picks[k])
    ensures states[i] == states[k] && picks[i] == picks[k]
    decreases i
  {
    if k < i {
      RefusedForEver(n, states, picks, times, k, i - 1);
      SameAgain(n, states, picks, times, i - 1);
    }
  }

  /** Two entities never analysed, one without a name: with one entity a round, the named one is never selected. */
  lemma NamelessBlocks(states: seq<Stamps>, picks: seq<seq<Entity>>, times: seq<int>, i: nat)
    requires IsLooseRun(1, states, picks, times) && i < |picks|
    requires states[0] == Pair(Entity(RESOURCE, ""), None, Entity(RESOURCE, "a"), None)
    ensures picks[i] == [Entity(RESOURCE, "")] && states[i] == states[0]
  {
    var x, y := Entity(RESOURCE, ""), Entity(RESOURCE, "a");
    assert !StringLeq(y.name, x.name);
    PairOldest(x, None, y, None, 0);
    assert LooseRoundAt(1, states, picks, times, 0);
    OldestUnique(states[0], 1, picks[0], [x]);
    assert x in picks[0];
    RefusedForEver(1, states, picks, times, 0, i);
  }

  // ---- A memory with a nameless entity and another is not fair ----

  lemma AlmostAll(size: nat)
    requires size >= 2
    ensures Ceiling(size, size - 1) == 2
  {
    assert size + (size - 1) - 1 == 2 * (size - 1);
  }

  lemma {:induction false} LooseInventory(n: nat, states: seq<Stamps>, picks: seq<seq<Entity>>, times: seq<int>, i: nat)
    requires IsLooseRun(n, states, picks, times) && i < |states|
    ensures states[i].Keys == states[0].Keys
    decreases i
  {
    if i > 0 {
      LooseInventory(n, states, picks, times, i - 1);
      assert LooseRoundAt(n, states, picks, times, i - 1);
    }
  }

  /** Someone outside a refused round of all but one is never selected again. */
  lemma RefusedIsUnfair(n: nat, states: seq<Stamps>, picks: seq<seq<Entity>>, times: seq<int>, k: nat)
    requires IsLooseRun(n, states, picks, times) && k + 1 < |picks| && Refused(picks[k])
    requires n > 0 && n + 1 == |states[0].Keys|
    ensures !IsFair(n, states, picks)
  {
    var keys := states[0].Keys;
    LooseInventory(n, states, picks, times, k);
    assert LooseRoundAt(n, states, picks, times, k);
    SameAgain(n, states, picks, times, k);
    var y := LeftOut(keys, n, picks[k]);
    AlmostAll(|keys|);
    TwiceTheSame(picks, k);
    assert !SelectedFrom(n, |keys|, picks, k, y);
  }

  lemma TwiceTheSame(picks: seq<seq<Entity>>, k: nat)
    requires k + 1 < |picks| && picks[k + 1] == picks[k]
    ensures PickedIn(picks, k, k + 2) == Elements(picks[k])
  {
    assert PickedIn(picks, k, k) == {};
    PickedStep(picks, k, k);
    PickedStep(picks, k, k + 1);
  }

  lemma LeftOut(keys: set<Entity>, n: nat, picked: seq<Entity>) returns (y: Entity)
    requires Distinct(picked) && Elements(picked) <= keys && |picked| == n && |keys| == n + 1
    ensures y in keys && y !in Elements(picked) && keys == Elements(picked) + {y}
  {
    DistinctMultiset(picked);
    SubsetSize(Elements(picked), keys);
    var rest := keys - Elements(picked);
    assert |rest| == 1;
    y :| y in rest;
    SubsetSize({y}, rest);
    assert rest == {y};
  }

  /** A nameless entity that was left out is the oldest once the others are stamped. */
  lemma ThenNameless(m: Stamps, n: nat, picked: seq<Entity>, now: int, next: seq<Entity>, z: Entity)
    requires IsOldest(m, n, picked) && Later(m, now) && n > 0
    requires m.Keys == Elements(picked) + {z} && z !in Elements(picked)
    requires IsOldest(Recorded(m, picked, now), n, next) && |next| == n
    ensures z in next
  {
    var m' := Recorded(m, picked, now);
    var e := next[0];
    assert e in Elements(next) && m'[z] == m[z];
    assert e != z ==> m'[e] == Some(now);
    assert e != z ==> !Before(Cand(m', e), Cand(m', z));
    assert z in Elements(next);
  }

  lemma NamelessIsUnfair(m: Stamps, z: Entity, t: int)
    requires z in m && z.name == "" && |m.Keys| >= 2 && Later(m, t)
    ensures !FairMemory(m)
  {
    var n, times := |m.Keys| - 1, [t, t + 1, t + 2];
    var states, picks := RunExists(m, n, times);
    assert RisingRun(m, n, states, picks, times);
    assert LooseRoundAt(n, states, picks, times, 0);
    if Refused(picks[0]) {
      RefusedIsUnfair(n, states, picks, times, 0);
    } else {
      SecondRefused(m, n, states, picks, times, z);
      RefusedIsUnfair(n, states, picks, times, 1);
    }
  }

  lemma SecondRefused(m: Stamps, n: nat, states: seq<Stamps>, picks: seq<seq<Entity>>, times: seq<int>, z: Entity)
    requires IsLooseRun(n, states, picks, times) && |times| >= 2 && states[0] == m && Later(m, times[0])
    requires z in m && z.name == "" && n > 0 && n + 1 == |m.Keys| && !Refused(picks[0])
    ensures Refused(picks[1])
  {
    assert LooseRoundAt(n, states, picks, times, 0) && LooseRoundAt(n, states, picks, times, 1);
    var y := LeftOut(m.Keys, n, picks[0]);
    assert z !in picks[0];
    assert y == z;
    LooseInventory(n, states, picks, times, 1);
    ThenNameless(m, n, picks[0], times[0], picks[1], z);
  }

  // ---- Otherwise it is ----

  lemma SingleIsFair(m: Stamps, n: nat, states: seq<Stamps>, picks: seq<seq<Entity>>, times: seq<int>)
    requires RisingRun(m, n, states, picks, times) && |m.Keys| <= 1
    ensures IsFair(n, states, picks)
  {
    forall first: nat, e | e in m.Keys
      ensures SelectedFrom(n, |m.Keys|, picks, first, e)
    {
      SubsetSize({e}, m.Keys);
      assert Ceiling(1, n) == 1;
      if first + 1 <= |picks| {
        LooseInventory(n, states, picks, times, first);
        assert LooseRoundAt(n, states, picks, times, first);
        DistinctMultiset(picks[first]);
        AllOfThem(m.Keys, Elements(picks[first]), e);
        assert PickedIn(picks, first, first) == {};
        PickedStep(picks, first, first);
      }
    }
  }

  lemma {:induction false} SomeLaterTime(m: Stamps) returns (t: int)
    ensures Later(m, t)
    decreases |m|
  {
    if m == map[] {
      t := 0;
    } else {
      var e :| e in m;
      var rest := m - {e};
      assert rest.Keys == m.Keys - {e};
      var t' := SomeLaterTime(rest);
      t := if m[e].Some? && m[e].value >= t' then m[e].value + 1 else t';
      forall x | x in m && m[x].Some?
        ensures m[x].value < t
      {
        if x != e {
          assert x in rest && rest[x] == m[x];
        }
      }
    }
  }

  /** The rotation is fair from a memory, over all rising times and for all sizes of a round, if and only if every
      entity has a name, or there is no other to starve. */
  lemma FairMemoryIff(m: Stamps)
    ensures FairMemory(m) <==> AllNamed(m) || |m.Keys| <= 1
  {
    if AllNamed(m) || |m.Keys| <= 1 {
      forall n: nat, states, picks, times | RisingRun(m, n, states, picks, times)
        ensures IsFair(n, states, picks)
      {
        if AllNamed(m) {
          RisingIsFair(n, states, picks, times);
        } else {
          SingleIsFair(m, n, states, picks, times);
        }
      }
    } else {
      var z :| z in m && z.name == "";
      var t := SomeLaterTime(m);
      NamelessIsUnfair(m, z, t);
    }
  }
}

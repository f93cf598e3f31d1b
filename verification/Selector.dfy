/** Choosing acceptance-test packages for a change and spreading them over shards. */
module Selector {
  import opened Collections
  import opened Text
  import opened Sorting
  import opened DepGraph

  // ---- Selection ----

  /** The run-all percentage as a real number, rounded down to a count. */
  function RunAllThresholdCount(pct: real, total: nat): int {
    (pct / 100.0 * total as real).Floor
  }

  /** `n` is more than that share of `total`. */
  predicate MoreThan(n: nat, pct: real, total: nat) {
    n as real * 100.0 > pct * total as real
  }

  /** Rounding down does not matter: a count is above the rounded threshold if and only if it is above the share. */
  lemma ThresholdExact(n: nat, pct: real, total: nat)
    ensures n > RunAllThresholdCount(pct, total) <==> MoreThan(n, pct, total)
  {
    var x := pct / 100.0 * total as real;
    assert x * 100.0 == pct * total as real;
    assert x.Floor as real <= x < x.Floor as real + 1.0;
  }

  method SelectPackages(forceAll: bool, phase1: seq<string>, phase2: seq<string>, acc: seq<string>, pct: real)
    returns (r: seq<string>)
    ensures Sorted(r, StringLeq) && Distinct(r)
    ensures var union := Elements(phase1) + Elements(phase2);
            Elements(r) == if forceAll || MoreThan(|union|, pct, |Elements(acc)|) then Elements(acc) else union
  {
    var all := StringsSorted(acc);
    DistinctMultiset(all);
    if forceAll {
      return all;
    }
    var unionSet := Elements(phase1) + Elements(phase2);
    var union := SortedSlice(unionSet);
    DistinctMultiset(union);
    ThresholdExact(|union|, pct, |all|);
    if |union| > RunAllThresholdCount(pct, |all|) {
      return all;
    }
    return union;
  }

  // ---- Shards ----

  datatype ShardPlan = ShardPlan(hasPackages: bool, selected: seq<string>, shards: seq<seq<string>>)

  /** What shard `s` of `count` has received after the first `i` packages. */
  function Dealt(sorted: seq<string>, count: nat, s: nat, i: nat): seq<string>
    requires count > 0 && i <= |sorted|
  {
    if i == 0 then []
    else Dealt(sorted, count, s, i - 1) + if (i - 1) % count == s then [sorted[i - 1]] else []
  }

  /** The sharding policy: how many shards a selection of this size is given. */
  function ShardCount(selected: nat, totalShards: int, minShardPackages: int): int {
    if selected == 0 || (totalShards > 1 && selected < minShardPackages) then 1
    else if totalShards < selected then totalShards else selected
  }

  method BuildShardPlan(packages: seq<string>, totalShards: int, minShardPackages: int) returns (plan: ShardPlan)
    requires totalShards >= 1
    ensures ValidPlan(plan) && Balanced(plan.shards)
    ensures Distinct(plan.selected) && Elements(plan.selected) == Elements(packages)
    ensures |plan.shards| == ShardCount(|plan.selected|, totalShards, minShardPackages) <= totalShards
  {
    var sorted := StringsSorted(packages);
    if sorted == [] {
      plan := ShardPlan(false, sorted, [[]]);
      return;
    }
    if totalShards > 1 && |sorted| < minShardPackages {
      assert Flatten([sorted]) == sorted by {
        var one := [sorted];
        assert one[1..] == [];
        assert Flatten(one[1..]) == [];
        assert sorted + [] == sorted;
      }
      plan := ShardPlan(true, sorted, [sorted]);
      return;
    }
    var count := if totalShards < |sorted| then totalShards else |sorted|;
    var shards := seq(count, s => []);
    for i := 0 to |sorted|
      invariant |shards| == count
      invariant forall s :: 0 <= s < count ==> shards[s] == Dealt(sorted, count, s, i)
    {
      var shard := i % count;
      shards := shards[shard := shards[shard] + [sorted[i]]];
    }
    DealIsPartition(sorted, count, shards);
    plan := ShardPlan(true, sorted, shards);
  }

  function Flatten(shards: seq<seq<string>>): seq<string> {
    if shards == [] then [] else shards[0] + Flatten(shards[1..])
  }

  /** Nonempty shards that partition a duplicate-free selection; or the one empty plan. */
  ghost predicate ValidPlan(plan: ShardPlan) {
    if plan.selected == [] then plan.shards == [[]] && !plan.hasPackages
    else
      && plan.hasPackages && Distinct(plan.selected)
      && (forall s :: 0 <= s < |plan.shards| ==> plan.shards[s] != [])
      && Distinct(Flatten(plan.shards)) && Elements(Flatten(plan.shards)) == Elements(plan.selected)
  }

  /** Shard sizes differ by at most one. */
  ghost predicate Balanced(shards: seq<seq<string>>) {
    forall a, b :: 0 <= a < |shards| && 0 <= b < |shards| ==> |shards[a]| <= |shards[b]| + 1
  }

  // ---- Dealing is fair ----

  lemma DivModStep(i: nat, count: nat)
    requires count > 0
    ensures i % count + 1 < count ==> (i + 1) / count == i / count && (i + 1) % count == i % count + 1
    ensures i % count + 1 == count ==> (i + 1) / count == i / count + 1 && (i + 1) % count == 0
  {
    var q, r := i / count, i % count;
    assert i == q * count + r;
    if r + 1 < count {
      Euclid(i + 1, count, q, r + 1);
    } else {
      assert i + 1 == (q + 1) * count;
      Euclid(i + 1, count, q + 1, 0);
    }
  }

  lemma Euclid(n: int, d: int, q: int, r: int)
    requires 0 <= r < d && n == q * d + r
    ensures n / d == q && n % d == r
  {
    var q', r' := n / d, n % d;
    MultipleGap(d, q - q');
    assert (q - q') * d == r' - r;
  }

  lemma MultipleGap(d: int, k: int)
    requires d > 0
    ensures k >= 1 ==> k * d >= d
    ensures k <= -1 ==> k * d <= -d
  {
    if k >= 1 {
      assert (k - 1) * d >= 0;
    } else if k <= -1 {
      assert (-k - 1) * d >= 0;
    }
  }

  /** After `i` packages a shard holds the whole rounds, plus one if its turn in this round is past. */
  lemma {:induction false} DealtSize(sorted: seq<string>, count: nat, s: nat, i: nat)
    requires count > 0 && s < count && i <= |sorted|
    ensures |Dealt(sorted, count, s, i)| == i / count + if s < i % count then 1 else 0
    decreases i
  {
    if i == 0 {
      Euclid(0, count, 0, 0);
    } else {
      DealtSize(sorted, count, s, i - 1);
      DivModStep(i - 1, count);
    }
  }

  lemma {:induction false} DealtMembers(sorted: seq<string>, count: nat, s: nat, i: nat, x: string)
    requires count > 0 && i <= |sorted|
    ensures x in Dealt(sorted, count, s, i) <==> exists j :: 0 <= j < i && j % count == s && sorted[j] == x
    decreases i
  {
    if i > 0 {
      DealtMembers(sorted, count, s, i - 1, x);
      if x in Dealt(sorted, count, s, i) && x !in Dealt(sorted, count, s, i - 1) {
        assert (i - 1) % count == s && sorted[i - 1] == x;
      }
    }
  }

  lemma {:induction false} DealtDistinct(sorted: seq<string>, count: nat, s: nat, i: nat)
    requires count > 0 && i <= |sorted| && Distinct(sorted)
    ensures Distinct(Dealt(sorted, count, s, i))
    decreases i
  {
    if i > 0 {
      DealtDistinct(sorted, count, s, i - 1);
      DealtMembers(sorted, count, s, i - 1, sorted[i - 1]);
      assert sorted[i - 1] !in Dealt(sorted, count, s, i - 1);
    }
  }

  lemma {:induction false} FlattenMembers(shards: seq<seq<string>>, x: string)
    ensures x in Flatten(shards) <==> exists s :: 0 <= s < |shards| && x in shards[s]
  {
    if shards != [] {
      FlattenMembers(shards[1..], x);
      if s :| 0 <= s < |shards| && x in shards[s] {
        if s > 0 {
          assert shards[1..][s - 1] == shards[s];
        }
      }
      if s :| 0 <= s < |shards[1..]| && x in shards[1..][s] {
        assert shards[s + 1] == shards[1..][s];
      }
    }
  }

  ghost predicate Disjoint(shards: seq<seq<string>>) {
    forall a, b, x :: 0 <= a < b < |shards| && x in shards[a] ==> x !in shards[b]
  }

  lemma {:induction false} FlattenDistinct(shards: seq<seq<string>>)
    requires Disjoint(shards) && forall s :: 0 <= s < |shards| ==> Distinct(shards[s])
    ensures Distinct(Flatten(shards))
  {
    if shards != [] {
      var rest := shards[1..];
      assert forall s :: 0 <= s < |rest| ==> rest[s] == shards[s + 1];
      FlattenDistinct(rest);
      var here, later := shards[0], Flatten(rest);
      forall i, j | 0 <= i < j < |here + later|
        ensures (here + later)[i] != (here + later)[j]
      {
        if i < |here| <= j {
          var x := here[i];
          FlattenMembers(rest, later[j - |here|]);
          assert later[j - |here|] in later;
          var s :| 0 <= s < |rest| && later[j - |here|] in rest[s];
          assert x in shards[0] ==> x !in shards[s + 1];
        }
      }
    }
  }

  lemma DealtDisjoint(sorted: seq<string>, count: nat, shards: seq<seq<string>>)
    requires 0 < count && |shards| == count && Distinct(sorted)
    requires forall s :: 0 <= s < count ==> shards[s] == Dealt(sorted, count, s, |sorted|)
    ensures Disjoint(shards)
  {
    forall a, b, x | 0 <= a < b < |shards| && x in shards[a]
      ensures x !in shards[b]
    {
      DealtMembers(sorted, count, a, |sorted|, x);
      DealtMembers(sorted, count, b, |sorted|, x);
      var i :| 0 <= i < |sorted| && i % count == a && sorted[i] == x;
      forall j | 0 <= j < |sorted| && j % count == b
        ensures sorted[j] != x
      {
        assert i != j;
      }
    }
  }

  lemma DealtEverywhere(sorted: seq<string>, count: nat, shards: seq<seq<string>>, x: string)
    requires 0 < count && |shards| == count
    requires forall s :: 0 <= s < count ==> shards[s] == Dealt(sorted, count, s, |sorted|)
    ensures x in Flatten(shards) <==> x in sorted
  {
    FlattenMembers(shards, x);
    if x in sorted {
      var j :| 0 <= j < |sorted| && sorted[j] == x;
      DealtMembers(sorted, count, j % count, |sorted|, x);
      assert x in shards[j % count];
    }
    if s :| 0 <= s < |shards| && x in shards[s] {
      DealtMembers(sorted, count, s, |sorted|, x);
    }
  }

  lemma AtLeastOnce(n: nat, d: nat)
    requires 0 < d <= n
    ensures n / d >= 1
  {
  }

  lemma DealIsPartition(sorted: seq<string>, count: nat, shards: seq<seq<string>>)
    requires 0 < count <= |sorted| && |shards| == count && Distinct(sorted)
    requires forall s :: 0 <= s < count ==> shards[s] == Dealt(sorted, count, s, |sorted|)
    ensures Distinct(Flatten(shards)) && Elements(Flatten(shards)) == Elements(sorted)
    ensures Balanced(shards) && forall s :: 0 <= s < count ==> shards[s] != []
  {
    forall s | 0 <= s < count
      ensures Distinct(shards[s]) && |shards[s]| == |sorted| / count + if s < |sorted| % count then 1 else 0
    {
      DealtDistinct(sorted, count, s, |sorted|);
      DealtSize(sorted, count, s, |sorted|);
    }
    AtLeastOnce(|sorted|, count);
    DealtDisjoint(sorted, count, shards);
    FlattenDistinct(shards);
    forall x
      ensures x in Flatten(shards) <==> x in sorted
    {
      DealtEverywhere(sorted, count, shards, x);
    }
  }

  // ---- The independent validator ----

  /** The first loop of the validator: the selection as a set, or a duplicate. */
  method CollectSelected(packages: seq<string>) returns (ok: bool, selected: set<string>)
    ensures ok <==> Distinct(packages)
    ensures ok ==> selected == Elements(packages)
  {
    selected := {};
    for i := 0 to |packages|
      invariant Distinct(packages[..i]) && selected == Elements(packages[..i])
    {
      assert packages[..i + 1] == packages[..i] + [packages[i]];
      if packages[i] in selected {
        RepeatIn(packages, i);
        return false, {};
      }
      AppendDistinct(packages[..i], packages[i]);
      selected := selected + {packages[i]};
    }
    assert packages[..|packages|] == packages;
    ok := true;
  }

  lemma RepeatIn(s: seq<string>, i: nat)
    requires i < |s| && s[i] in s[..i]
    ensures !Distinct(s)
  {
    var k :| 0 <= k < i && s[..i][k] == s[i];
    assert s[k] == s[i];
  }

  /** One shard: every package selected, none seen before. */
  method CheckShard(shard: seq<string>, selected: set<string>, seen: set<string>) returns (ok: bool, seen': set<string>)
    ensures ok <==> Elements(shard) <= selected && Elements(shard) !! seen && Distinct(shard)
    ensures ok ==> seen' == seen + Elements(shard)
  {
    seen' := seen;
    for i := 0 to |shard|
      invariant seen' == seen + Elements(shard[..i])
      invariant Elements(shard[..i]) <= selected && Elements(shard[..i]) !! seen && Distinct(shard[..i])
    {
      assert shard[i] in Elements(shard);
      assert shard[..i + 1] == shard[..i] + [shard[i]];
      if shard[i] !in selected {
        return false, {};
      }
      if shard[i] in seen' {
        if shard[i] !in seen {
          RepeatIn(shard, i);
        }
        return false, {};
      }
      AppendDistinct(shard[..i], shard[i]);
      seen' := seen' + {shard[i]};
    }
    assert shard[..|shard|] == shard;
    ok := true;
  }

  lemma {:induction false} FlattenAppend(shards: seq<seq<string>>, shard: seq<string>)
    ensures Flatten(shards + [shard]) == Flatten(shards) + shard
  {
    if shards == [] {
      var one := shards + [shard];
      assert one[0] == shard && one[1..] == [];
      assert shard + [] == shard;
    } else {
      assert (shards + [shard])[1..] == shards[1..] + [shard];
      FlattenAppend(shards[1..], shard);
      assert shards[0] + (Flatten(shards[1..]) + shard) == (shards[0] + Flatten(shards[1..])) + shard;
    }
  }

  /** A prefix of a duplicate-free flattening extends by a shard exactly when the shard is new and duplicate-free. */
  lemma DistinctConcat(a: seq<string>, b: seq<string>)
    ensures Distinct(a + b) <==> Distinct(a) && Distinct(b) && Elements(a) !! Elements(b)
    ensures Elements(a + b) == Elements(a) + Elements(b)
  {
    if Distinct(a + b) {
      forall i, j | 0 <= i < j < |a|
        ensures a[i] != a[j]
      {
        assert (a + b)[i] == a[i] && (a + b)[j] == a[j];
      }
      forall i, j | 0 <= i < j < |b|
        ensures b[i] != b[j]
      {
        assert (a + b)[|a| + i] == b[i] && (a + b)[|a| + j] == b[j];
      }
      forall x | x in Elements(a)
        ensures x !in Elements(b)
      {
        var i :| 0 <= i < |a| && a[i] == x;
        forall j | 0 <= j < |b|
          ensures b[j] != x
        {
          assert (a + b)[i] == x && (a + b)[|a| + j] == b[j];
        }
      }
    }
    if Distinct(a) && Distinct(b) && Elements(a) !! Elements(b) {
      forall i, j | 0 <= i < j < |a + b|
        ensures (a + b)[i] != (a + b)[j]
      {
        if i < |a| <= j {
          assert a[i] in Elements(a) && b[j - |a|] in Elements(b);
        }
      }
    }
  }

  lemma BadPiece(before: seq<string>, piece: seq<string>, after: seq<string>, selected: set<string>)
    requires !(Elements(piece) <= selected && Elements(piece) !! Elements(before) && Distinct(piece))
    ensures !(Distinct(before + piece + after) && Elements(before + piece + after) == selected)
  {
    DistinctConcat(before, piece);
    DistinctConcat(before + piece, after);
  }

  /** What a bad shard at `i` means for the whole plan. */
  lemma BadShard(shards: seq<seq<string>>, i: nat, selected: set<string>)
    requires i < |shards|
    requires !(Elements(shards[i]) <= selected && Elements(shards[i]) !! Elements(Flatten(shards[..i])) &&
               Distinct(shards[i]))
    ensures !(Distinct(Flatten(shards)) && Elements(Flatten(shards)) == selected)
  {
    FlattenAround(shards, i);
    BadPiece(Flatten(shards[..i]), shards[i], Flatten(shards[i + 1..]), selected);
  }

  lemma FlattenAround(shards: seq<seq<string>>, i: nat)
    requires i < |shards|
    ensures Flatten(shards) == Flatten(shards[..i]) + shards[i] + Flatten(shards[i + 1..])
  {
    OneMore(shards, i);
    FlattenAppend(shards[..i], shards[i]);
    FlattenSplit(shards, i + 1);
  }

  lemma {:induction false} FlattenSplit(shards: seq<seq<string>>, i: nat)
    requires i <= |shards|
    ensures Flatten(shards) == Flatten(shards[..i]) + Flatten(shards[i..])
  {
    if i == 0 {
      assert shards[0..] == shards;
    } else {
      FlattenSplit(shards[1..], i - 1);
      assert shards[..i][0] == shards[0] && shards[..i][1..] == shards[1..][..i - 1];
      assert shards[1..][i - 1..] == shards[i..];
      var x, y, z := shards[0], Flatten(shards[1..][..i - 1]), Flatten(shards[i..]);
      assert x + (y + z) == (x + y) + z;
    }
  }

  method ValidateShards(shards: seq<seq<string>>, selected: set<string>) returns (ok: bool)
    ensures ok <==> (forall s :: 0 <= s < |shards| ==> shards[s] != [])
                    && Distinct(Flatten(shards)) && Elements(Flatten(shards)) == selected
  {
    var seen := {};
    for i := 0 to |shards|
      invariant seen == Elements(Flatten(shards[..i])) && seen <= selected
      invariant Distinct(Flatten(shards[..i])) && forall s :: 0 <= s < i ==> shards[s] != []
    {
      assert shards[..i + 1] == shards[..i] + [shards[i]];
      if shards[i] == [] {
        return false;
      }
      var fine, seen' := CheckShard(shards[i], selected, seen);
      if !fine {
        BadShard(shards, i, selected);
        return false;
      }
      FlattenAppend(shards[..i], shards[i]);
      DistinctConcat(Flatten(shards[..i]), shards[i]);
      seen := seen';
    }
    assert shards[..|shards|] == shards;
    ok := selected <= seen;
  }

  /** `ValidateShardPlan` accepts exactly the valid plans. */
  method ValidateShardPlan(plan: ShardPlan) returns (ok: bool)
    ensures ok <==> ValidPlan(plan)
  {
    if plan.selected == [] {
      return plan.shards == [[]] && !plan.hasPackages;
    }
    if !plan.hasPackages {
      return false;
    }
    var unique, selected := CollectSelected(plan.selected);
    if !unique {
      return false;
    }
    ok := ValidateShards(plan.shards, selected);
  }

  /** The shards that hold a package. */
  function Holders(shards: seq<seq<string>>, pkg: string): set<nat> {
    set s: nat | s < |shards| && pkg in shards[s]
  }

  /** In a valid plan a package is in exactly one shard when it was selected, and in none otherwise. */
  lemma OneShardEach(plan: ShardPlan, pkg: string)
    requires ValidPlan(plan)
    ensures |Holders(plan.shards, pkg)| == if pkg in plan.selected then 1 else 0
  {
    FlattenMembers(plan.shards, pkg);
    if plan.selected == [] {
      assert Holders(plan.shards, pkg) == {};
    } else if pkg in plan.selected {
      assert pkg in Elements(Flatten(plan.shards));
      var s: nat :| s < |plan.shards| && pkg in plan.shards[s];
      forall t: nat | t in Holders(plan.shards, pkg)
        ensures t == s
      {
        if s < t {
          TwoHolders(plan.shards, s, t, pkg);
          assert false;
        } else if t < s {
          TwoHolders(plan.shards, t, s, pkg);
          assert false;
        }
      }
      assert Holders(plan.shards, pkg) == {s};
    } else {
      assert pkg !in Elements(plan.selected);
      assert Holders(plan.shards, pkg) == {};
    }
  }

  lemma TwoHolders(shards: seq<seq<string>>, s: nat, t: nat, pkg: string)
    requires s < t < |shards| && pkg in shards[s] && pkg in shards[t]
    ensures !Distinct(Flatten(shards))
  {
    FlattenSplit(shards, t);
    FlattenMembers(shards[..t], pkg);
    FlattenMembers(shards[t..], pkg);
    assert shards[..t][s] == shards[s] && shards[t..][0] == shards[t];
    DistinctConcat(Flatten(shards[..t]), Flatten(shards[t..]));
    assert pkg in Elements(Flatten(shards[..t])) && pkg in Elements(Flatten(shards[t..]));
  }

  // ---- The pipeline ----

  datatype Flags = Flags(totalShards: int, runAllThreshold: real, minShardPackages: int)

  predicate ValidateFlags(f: Flags) {
    f.totalShards >= 1 && 0.0 <= f.runAllThreshold <= 100.0 && f.minShardPackages >= 0
  }

  /** The classified diff: run everything, changed packages, packages that always run. */
  datatype Classified = Classified(forceAll: bool, hasCode: bool, packages: seq<string>, extraPackages: seq<string>)

  method Restrict(packages: seq<string>, acc: seq<string>) returns (kept: seq<string>)
    ensures Elements(kept) == Elements(packages) * Elements(acc)
  {
    kept := [];
    for i := 0 to |packages|
      invariant Elements(kept) == Elements(packages[..i]) * Elements(acc)
    {
      assert packages[..i + 1] == packages[..i] + [packages[i]];
      AppendElements(packages[..i], packages[i]);
      AppendElements(kept, packages[i]);
      if packages[i] in acc {
        kept := kept + [packages[i]];
      }
    }
    assert packages[..|packages|] == packages;
  }

  /** What a change makes mandatory: everything when forced; otherwise the packages that always
      run, the transitive importers of a changed package and the test consumers. */
  ghost predicate Mandatory(c: Classified, forward: Graph, consumers: set<string>, pkg: string) {
    || c.forceAll
    || pkg in c.extraPackages
    || (c.hasCode && (Affected(forward, c.packages, pkg) || pkg in consumers))
  }

  /** The mandatory acceptance packages. */
  ghost function MandatoryOf(c: Classified, forward: Graph, consumers: set<string>, acc: seq<string>): set<string> {
    set pkg | pkg in acc && Mandatory(c, forward, consumers, pkg)
  }

  /** Phases 1 and 2 of `run`: exactly the mandatory acceptance packages. */
  method Phases(c: Classified, acc: seq<string>, forward: Graph, consumers: set<string>)
    returns (phase1: seq<string>, phase2: seq<string>)
    requires !c.forceAll
    ensures forall pkg :: pkg in Elements(phase1) + Elements(phase2) <==>
              pkg in acc && Mandatory(c, forward, consumers, pkg)
  {
    phase1 := Restrict(c.extraPackages, acc);
    phase2 := [];
    if c.hasCode {
      var reverse := BuildReverseDepGraph(forward);
      var transitive := WalkReverseDeps(reverse, c.packages, forward);
      var more := Restrict(transitive, acc);
      DistinctConcat(phase1, more);
      phase1 := phase1 + more;
      var found := SortedSlice(consumers);
      var kept := Restrict(found, acc);
      phase2 := StringsSorted(kept);
    }
    phase1 := StringsSorted(phase1);
  }

  /**
   * The whole selection, for every import graph, change and set of flags: bad flags are refused and
   * everything else yields a plan that the validator accepts, in which every mandatory acceptance
   * package sits in exactly one shard and shard sizes differ by at most one.
   */
  method Run(flags: Flags, c: Classified, acc: seq<string>, forward: Graph, consumers: set<string>)
    returns (r: Option<ShardPlan>)
    ensures r.Some? <==> ValidateFlags(flags)
    ensures r.Some? ==> ValidPlan(r.value) && Balanced(r.value.shards)
    ensures r.Some? ==> Elements(r.value.selected) <= Elements(acc)
    ensures r.Some? ==> forall pkg :: pkg in acc && Mandatory(c, forward, consumers, pkg) ==>
              |Holders(r.value.shards, pkg)| == 1
    ensures r.Some? ==> forall pkg :: |Holders(r.value.shards, pkg)| == if pkg in r.value.selected then 1 else 0
    ensures r.Some? ==>
              var mandatory := MandatoryOf(c, forward, consumers, acc);
              var all := MoreThan(|mandatory|, flags.runAllThreshold, |Elements(acc)|);
              Elements(r.value.selected) == if all || c.forceAll then Elements(acc) else mandatory
    ensures r.Some? ==> 1 <= |r.value.shards| <= flags.totalShards
    ensures r.Some? && (r.value.selected == [] || |r.value.selected| < flags.minShardPackages) ==>
              |r.value.shards| == 1
    ensures r.Some? && r.value.selected != [] && |r.value.selected| >= flags.minShardPackages ==>
              |r.value.shards| ==
                if flags.totalShards < |r.value.selected| then flags.totalShards else |r.value.selected|
  {
    if !ValidateFlags(flags) {
      return None;
    }
    var phase1, phase2 := [], [];
    if !c.forceAll {
      phase1, phase2 := Phases(c, acc, forward, consumers);
    }
    var selected := SelectPackages(c.forceAll, phase1, phase2, acc, flags.runAllThreshold);
    var plan := BuildShardPlan(selected, flags.totalShards, flags.minShardPackages);
    var ok := ValidateShardPlan(plan);
    assert forall pkg :: pkg in plan.selected <==> pkg in Elements(selected);
    assert !c.forceAll ==> Elements(phase1) + Elements(phase2) == MandatoryOf(c, forward, consumers, acc);
    if !ok {
      return None;
    }
    forall pkg
      ensures |Holders(plan.shards, pkg)| == if pkg in plan.selected then 1 else 0
    {
      OneShardEach(plan, pkg);
    }
    r := Some(plan);
  }
}

/** Reverse import graph and the worklist walk over it. */
module DepGraph {
  import opened Collections
  import opened Text
  import opened Sorting

  type Graph = map<string, seq<string>>

  ghost predicate Imports(forward: Graph, pkg: string, imp: string) {
    pkg in forward && imp in forward[pkg]
  }

  ghost function Importers(forward: Graph, imp: string): set<string> {
    set pkg | pkg in forward && imp in forward[pkg]
  }

  /** Every importer list is complete, sorted and free of duplicates. */
  ghost predicate IsReverse(reverse: Graph, forward: Graph) {
    && (forall imp :: imp in reverse ==>
          Elements(reverse[imp]) == Importers(forward, imp) && Distinct(reverse[imp]) &&
              Sorted(reverse[imp], StringLeq))
    && (forall imp :: imp !in reverse ==> Importers(forward, imp) == {})
  }

  /** `uniqStrings`: drops repeats from a sorted slice. */
  method UniqStrings(sorted: seq<string>) returns (uniq: seq<string>)
    requires Sorted(sorted, StringLeq)
    ensures Sorted(uniq, StringLeq) && Distinct(uniq) && Elements(uniq) == Elements(sorted)
  {
    if sorted == [] {
      return sorted;
    }
    uniq := [sorted[0]];
    for i := 1 to |sorted|
      invariant uniq != [] && uniq[|uniq| - 1] == sorted[i - 1]
      invariant Sorted(uniq, StringLeq) && Distinct(uniq)
      invariant Elements(uniq) == Elements(sorted[..i])
    {
      assert sorted[..i + 1] == sorted[..i] + [sorted[i]];
      assert Elements(sorted[..i + 1]) == Elements(sorted[..i]) + {sorted[i]};
      if sorted[i] != uniq[|uniq| - 1] {
        NewGreatest(sorted, uniq, i);
        AppendDistinct(uniq, sorted[i]);
        uniq := uniq + [sorted[i]];
      } else {
        assert sorted[i - 1] in sorted[..i];
      }
    }
    assert sorted[..|sorted|] == sorted;
  }

  lemma NewGreatest(sorted: seq<string>, uniq: seq<string>, i: nat)
    requires 0 < i < |sorted| && Sorted(sorted, StringLeq) && sorted[i] != sorted[i - 1]
    requires Elements(uniq) == Elements(sorted[..i])
    ensures sorted[i] !in Elements(uniq)
    ensures forall k :: 0 <= k < |uniq| ==> StringLeq(uniq[k], sorted[i])
  {
    if sorted[i] in Elements(uniq) {
      var k :| 0 <= k < i && sorted[..i][k] == sorted[i];
      assert StringLeq(sorted[i - 1], sorted[i]);
      assert k < i - 1 ==> StringLeq(sorted[k], sorted[i - 1]);
      LeqAntisymmetric(sorted[i], sorted[i - 1]);
      assert false;
    }
    forall k | 0 <= k < |uniq|
      ensures StringLeq(uniq[k], sorted[i])
    {
      assert uniq[k] in Elements(uniq);
      var m :| 0 <= m < i && sorted[..i][m] == uniq[k];
      assert sorted[m] == uniq[k];
    }
  }

  /** `stringsSorted`. */
  method StringsSorted(s: seq<string>) returns (r: seq<string>)
    ensures Sorted(r, StringLeq) && Distinct(r) && Elements(r) == Elements(s)
  {
    StringOrder();
    var sorted := Sort(s, StringLeq);
    MultisetMembers(sorted, s);
    r := UniqStrings(sorted);
  }

  function AddTo(reverse: Graph, imp: string, pkg: string): Graph {
    reverse[imp := (if imp in reverse then reverse[imp] else []) + [pkg]]
  }

  function At(reverse: Graph, imp: string): seq<string> {
    if imp in reverse then reverse[imp] else []
  }

  /** The importers collected from the packages not in `left`. */
  ghost function ImportersOutside(forward: Graph, left: set<string>, imp: string): set<string> {
    set pkg | pkg in forward && pkg !in left && imp in forward[pkg]
  }

  /** The inner loop: one package is appended to the list of each of its imports. */
  method AddImports(reverse: Graph, pkg: string, imports: seq<string>) returns (out: Graph)
    ensures forall imp :: Elements(At(out, imp)) == Elements(At(reverse, imp)) + if imp in imports then {pkg} else {}
    ensures forall imp :: imp in out ==> imp in reverse || imp in imports
    ensures forall imp :: imp in reverse ==> imp in out
  {
    out := reverse;
    for i := 0 to |imports|
      invariant forall imp :: Elements(At(out, imp)) ==
                  Elements(At(reverse, imp)) + if imp in imports[..i] then {pkg} else {}
      invariant forall imp :: imp in out ==> imp in reverse || imp in imports[..i]
      invariant forall imp :: imp in reverse ==> imp in out
    {
      var imp := imports[i];
      ghost var before := out;
      assert imports[..i + 1] == imports[..i] + [imp];
      out := AddTo(out, imp, pkg);
      assert Elements(At(out, imp)) == Elements(At(before, imp)) + {pkg} by {
        AppendElements(At(before, imp), pkg);
      }
      assert forall other :: other != imp ==> At(out, other) == At(before, other);
    }
    assert imports[..|imports|] == imports;
  }

  lemma AppendElements<T>(s: seq<T>, x: T)
    ensures Elements(s + [x]) == Elements(s) + {x}
  {
  }

  /** `BuildReverseDepGraph`, for any iteration order of the maps. */
  method BuildReverseDepGraph(forward: Graph) returns (reverse: Graph)
    ensures IsReverse(reverse, forward)
  {
    reverse := map[];
    var left := forward.Keys;
    while left != {}
      invariant left <= forward.Keys
      invariant forall imp :: Elements(At(reverse, imp)) == ImportersOutside(forward, left, imp)
      decreases left
    {
      var pkg :| pkg in left;
      ghost var before := left;
      reverse := AddImports(reverse, pkg, forward[pkg]);
      left := left - {pkg};
      forall imp
        ensures ImportersOutside(forward, left, imp) ==
                  ImportersOutside(forward, before, imp) + if imp in forward[pkg] then {pkg} else {}
      {
      }
    }
    forall imp
      ensures Elements(At(reverse, imp)) == Importers(forward, imp)
    {
      assert ImportersOutside(forward, {}, imp) == Importers(forward, imp);
    }
    reverse := SortLists(reverse);
  }

  method SortLists(reverse: Graph) returns (out: Graph)
    ensures out.Keys == reverse.Keys
    ensures forall imp :: imp in out ==>
              Elements(out[imp]) == Elements(reverse[imp]) && Distinct(out[imp]) && Sorted(out[imp], StringLeq)
  {
    out := reverse;
    var left := reverse.Keys;
    while left != {}
      invariant left <= reverse.Keys == out.Keys
      invariant forall imp :: imp in left ==> out[imp] == reverse[imp]
      invariant forall imp :: imp in out && imp !in left ==>
                  Elements(out[imp]) == Elements(reverse[imp]) && Distinct(out[imp]) && Sorted(out[imp], StringLeq)
      decreases left
    {
      var imp :| imp in left;
      var list := StringsSorted(out[imp]);
      out := out[imp := list];
      left := left - {imp};
    }
  }

  // ---- Transitive importers ----

  /** Each package of the chain imports the next. */
  ghost predicate ImportChain(forward: Graph, chain: seq<string>) {
    chain != [] && forall i :: 0 <= i < |chain| - 1 ==> Imports(forward, chain[i], chain[i + 1])
  }

  /** `pkg` is one of `start` or imports one of them through a chain of imports. */
  ghost predicate Affected(forward: Graph, start: seq<string>, pkg: string) {
    exists chain :: ImportChain(forward, chain) && chain[0] == pkg && chain[|chain| - 1] in start
  }

  lemma AffectedStart(forward: Graph, start: seq<string>, pkg: string)
    requires pkg in start
    ensures Affected(forward, start, pkg)
  {
    assert ImportChain(forward, [pkg]) && [pkg][0] == pkg && [pkg][0] in start;
  }

  lemma AffectedImporter(forward: Graph, start: seq<string>, pkg: string, imp: string)
    requires Imports(forward, pkg, imp) && Affected(forward, start, imp)
    ensures Affected(forward, start, pkg)
  {
    var chain :| ImportChain(forward, chain) && chain[0] == imp && chain[|chain| - 1] in start;
    var longer := [pkg] + chain;
    forall i | 0 <= i < |longer| - 1
      ensures Imports(forward, longer[i], longer[i + 1])
    {
      if i > 0 {
        assert longer[i] == chain[i - 1] && longer[i + 1] == chain[i];
      }
    }
    assert ImportChain(forward, longer) && longer[0] == pkg && longer[|longer| - 1] == chain[|chain| - 1];
  }

  /** A set that holds the start and all importers of its members holds everything affected. */
  lemma {:induction false} ClosedHoldsChain(forward: Graph, start: seq<string>, seen: set<string>, chain: seq<string>)
    requires ImportChain(forward, chain) && chain[|chain| - 1] in start
    requires Elements(start) <= seen && forall x :: x in seen ==> Importers(forward, x) <= seen
    ensures chain[0] in seen
    decreases |chain|
  {
    if |chain| > 1 {
      forall i | 0 <= i < |chain[1..]| - 1
        ensures Imports(forward, chain[1..][i], chain[1..][i + 1])
      {
        assert Imports(forward, chain[i + 1], chain[i + 2]);
      }
      ClosedHoldsChain(forward, start, seen, chain[1..]);
      assert Imports(forward, chain[0], chain[1]);
      assert chain[0] in Importers(forward, chain[1]);
    } else {
      assert chain[0] in Elements(start);
    }
  }

  ghost predicate WalkInvariant(forward: Graph, start: seq<string>, seen: set<string>, queue: seq<string>) {
    && Elements(start) <= seen && Elements(queue) <= seen
    && seen <= Elements(start) + forward.Keys
    && (forall x :: x in seen ==> Affected(forward, start, x))
    && (forall x :: x in seen && x !in queue ==> Importers(forward, x) <= seen)
  }

  /** The body of the worklist loop: the unseen importers of the package just taken. */
  method Expand(importers: seq<string>, seen: set<string>, queue: seq<string>)
    returns (seen': set<string>, queue': seq<string>)
    ensures seen' == seen + Elements(importers)
    ensures queue <= queue' && forall x :: x in queue' ==> x in queue || (x in importers && x !in seen)
    ensures forall x :: x in importers && x !in seen ==> x in queue'
    ensures seen' == seen ==> queue' == queue
  {
    seen', queue' := seen, queue;
    for i := 0 to |importers|
      invariant seen' == seen + Elements(importers[..i])
      invariant queue <= queue' && forall x :: x in queue' ==> x in queue || (x in importers[..i] && x !in seen)
      invariant forall x :: x in importers[..i] && x !in seen ==> x in queue'
      invariant seen' == seen ==> queue' == queue
    {
      assert importers[..i + 1] == importers[..i] + [importers[i]];
      AppendElements(importers[..i], importers[i]);
      if importers[i] !in seen' {
        seen' := seen' + {importers[i]};
        queue' := queue' + [importers[i]];
      }
    }
    assert importers[..|importers|] == importers;
  }

  lemma WalkStep(forward: Graph, start: seq<string>, seen: set<string>, queue: seq<string>, seen': set<string>,
      queue': seq<string>)
    requires queue != [] && WalkInvariant(forward, start, seen, queue)
    requires seen' == seen + Importers(forward, queue[0])
    requires queue[1..] <= queue' && forall x :: x in queue' ==>
               x in queue[1..] || (x in Importers(forward, queue[0]) && x !in seen)
    requires forall x :: x in Importers(forward, queue[0]) && x !in seen ==> x in queue'
    ensures WalkInvariant(forward, start, seen', queue')
  {
    assert queue[0] in Elements(queue);
    forall x | x in seen'
      ensures Affected(forward, start, x)
    {
      if x !in seen {
        AffectedImporter(forward, start, x, queue[0]);
      }
    }
    forall x | x in seen' && x !in queue'
      ensures Importers(forward, x) <= seen'
    {
      if x != queue[0] {
        assert x in queue ==> x in queue[1..];
        forall y | y in queue[1..] ensures y in queue' {}
      }
    }
    forall x | x in queue'
      ensures x in seen'
    {
      if x in queue[1..] {
        assert x in Elements(queue);
      }
    }
  }

  /** `WalkReverseDeps`: exactly the affected packages, sorted, each once. */
  method WalkReverseDeps(reverse: Graph, start: seq<string>, ghost forward: Graph) returns (result: seq<string>)
    requires IsReverse(reverse, forward)
    ensures Sorted(result, StringLeq) && Distinct(result)
    ensures forall pkg :: pkg in result <==> Affected(forward, start, pkg)
  {
    var seen := Elements(start);
    var queue := start;
    forall x | x in seen
      ensures Affected(forward, start, x)
    {
      AffectedStart(forward, start, x);
    }
    while queue != []
      invariant WalkInvariant(forward, start, seen, queue)
      decreases |Elements(start) + forward.Keys - seen|, |queue|
    {
      var pkg := queue[0];
      var importers := At(reverse, pkg);
      assert Elements(importers) == Importers(forward, pkg);
      assert forall x :: x in importers <==> x in Elements(importers);
      var seen', queue' := Expand(importers, seen, queue[1..]);
      WalkStep(forward, start, seen, queue, seen', queue');
      FewerLeft(Elements(start) + forward.Keys, seen, seen');
      seen, queue := seen', queue';
    }
    result := SortedSlice(seen);
    forall pkg
      ensures pkg in result <==> Affected(forward, start, pkg)
    {
      assert pkg in result <==> pkg in seen;
      if Affected(forward, start, pkg) {
        var chain :| ImportChain(forward, chain) && chain[0] == pkg && chain[|chain| - 1] in start;
        ClosedHoldsChain(forward, start, seen, chain);
      }
    }
  }

  /** The keys of a set collected in any order, then sorted. */
  method SortedSlice(u: set<string>) returns (r: seq<string>)
    ensures Sorted(r, StringLeq) && Distinct(r) && Elements(r) == u
    ensures forall x :: x in r <==> x in u
  {
    var left := u;
    var s: seq<string> := [];
    while left != {}
      invariant left <= u && Distinct(s) && Elements(s) == u - left
      decreases left
    {
      var x :| x in left;
      AppendDistinct(s, x);
      s := s + [x];
      left := left - {x};
    }
    StringOrder();
    r := Sort(s, StringLeq);
    DistinctMultiset(s);
    DistinctFromMultiset(r, u);
    assert forall x :: x in r <==> x in Elements(r);
  }
}

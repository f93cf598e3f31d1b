/** `Iterate`: every map of a document is visited, children before parents, under a dotted key that
    `Get` resolves. */
module Iteration {
  import opened Collections
  import opened Text
  import opened Sorting
  import opened Document

  datatype Visit = Visit(key: string, node: Json)

  function JoinKey(existing: string, next: string): string {
    if existing == "" then next else existing + "." + next
  }

  // ---- The order in which children are taken ----

  ghost function SortedKeys(fields: map<string, Json>): (r: seq<string>)
    ensures Distinct(r) && Elements(r) == fields.Keys
  {
    StringOrder();
    SortSet(fields.Keys, StringLeq)
  }

  function Indices(n: nat): seq<string> {
    seq(n, i requires 0 <= i < n => Decimal(i))
  }

  /** The segments of the children: sorted keys of a map, indices of a slice. */
  ghost function ChildSegs(j: Json): seq<string> {
    match j
    case Object(fields) => SortedKeys(fields)
    case Array(items) => Indices(|items|)
    case _ => []
  }

  lemma ChildSegsExact(j: Json, seg: string)
    ensures seg in ChildSegs(j) <==> Child(j, seg).Some?
    ensures Distinct(ChildSegs(j))
  {
    match j
    case Object(fields) =>
      assert seg in SortedKeys(fields) <==> seg in Elements(SortedKeys(fields));
    case Array(items) =>
      var segs := Indices(|items|);
      if seg in segs {
        var i :| 0 <= i < |segs| && segs[i] == seg;
        CanonDecimal(i, |items|);
      }
      if Child(j, seg).Some? {
        var i := CanonIndex(seg, |items|).value;
        assert segs[i] == seg;
      }
      forall a, b | 0 <= a < b < |segs|
        ensures segs[a] != segs[b]
      {
        if Decimal(a) == Decimal(b) { DecimalInjective(a, b); }
      }
    case _ =>
  }

  // ---- What is visited ----

  /** The visits as the code makes them, keys built step by step. */
  ghost function Visits(key: string, j: Json): seq<Visit>
    decreases j, 1
  {
    VisitChildren(key, j, ChildSegs(j)) + if j.Object? then [Visit(key, j)] else []
  }

  ghost function VisitChildren(key: string, j: Json, segs: seq<string>): seq<Visit>
    decreases j, 0, |segs|
  {
    if segs == [] then []
    else if Child(j, segs[0]).None? then VisitChildren(key, j, segs[1..])
    else Visits(JoinKey(key, segs[0]), Child(j, segs[0]).value) + VisitChildren(key, j, segs[1..])
  }

  /** The paths of the visited maps, relative to `j`, in order. */
  ghost function Paths(j: Json): seq<seq<string>>
    decreases j, 1
  {
    ChildPaths(j, ChildSegs(j)) + if j.Object? then [[]] else []
  }

  ghost function ChildPaths(j: Json, segs: seq<string>): seq<seq<string>>
    decreases j, 0, |segs|
  {
    if segs == [] then []
    else if Child(j, segs[0]).None? then ChildPaths(j, segs[1..])
    else Prefixed(segs[0], Paths(Child(j, segs[0]).value)) + ChildPaths(j, segs[1..])
  }

  function Prefixed(seg: string, paths: seq<seq<string>>): seq<seq<string>> {
    seq(|paths|, i requires 0 <= i < |paths| => [seg] + paths[i])
  }

  // ---- The traversal ----

  /** `Keys`: the keys of a map in sorted order, however the map is iterated. */
  method Keys(fields: map<string, Json>) returns (keys: seq<string>)
    ensures keys == SortedKeys(fields)
  {
    var left := fields.Keys;
    var s: seq<string> := [];
    while left != {}
      invariant left <= fields.Keys
      invariant Distinct(s) && Elements(s) == fields.Keys - left
      decreases left
    {
      var k :| k in left;
      AppendDistinct(s, k);
      s := s + [k];
      left := left - {k};
    }
    StringOrder();
    keys := Sort(s, StringLeq);
    DistinctMultiset(s);
    DistinctFromMultiset(keys, Elements(s));
    SortedSetUnique(keys, SortedKeys(fields), StringLeq);
  }

  /** `Iterate`, with a callback that notes what it is given. */
  method Iterate(key: string, j: Json) returns (log: seq<Visit>)
    ensures log == Visits(key, j)
    decreases j, 1
  {
    log := [];
    match j
    case Array(items) =>
      log := IterateSlice(key, j);
    case Object(fields) =>
      log := IterateMap(key, j);
      log := log + [Visit(key, j)];
    case _ =>
  }

  method IterateSlice(key: string, j: Json) returns (log: seq<Visit>)
    requires j.Array?
    ensures log == VisitChildren(key, j, Indices(|j.items|))
    decreases j, 0
  {
    log := [];
    ghost var segs := Indices(|j.items|);
    for i := 0 to |j.items|
      invariant VisitChildren(key, j, segs) == log + VisitChildren(key, j, segs[i..])
    {
      assert segs[i..][0] == Decimal(i) && segs[i..][1..] == segs[i + 1..];
      CanonDecimal(i, |j.items|);
      var found := Iterate(JoinKey(key, Decimal(i)), j.items[i]);
      ConcatAssociates(log, found, VisitChildren(key, j, segs[i + 1..]));
      log := log + found;
    }
  }

  method IterateMap(key: string, j: Json) returns (log: seq<Visit>)
    requires j.Object?
    ensures log == VisitChildren(key, j, SortedKeys(j.fields))
    decreases j, 0
  {
    log := [];
    var keys := Keys(j.fields);
    for i := 0 to |keys|
      invariant VisitChildren(key, j, keys) == log + VisitChildren(key, j, keys[i..])
    {
      ChildSegsExact(j, keys[i]);
      VisitNext(key, j, keys, i);
      var found := Iterate(JoinKey(key, keys[i]), j.fields[keys[i]]);
      ConcatAssociates(log, found, VisitChildren(key, j, keys[i + 1..]));
      log := log + found;
    }
  }

  lemma VisitNext(key: string, j: Json, segs: seq<string>, i: nat)
    requires i < |segs| && Child(j, segs[i]).Some?
    ensures VisitChildren(key, j, segs[i..]) ==
              Visits(JoinKey(key, segs[i]), Child(j, segs[i]).value) + VisitChildren(key, j, segs[i + 1..])
  {
    assert segs[i..][0] == segs[i] && segs[i..][1..] == segs[i + 1..];
  }

  // ---- Each map exactly once ----

  lemma {:induction false} PathsExact(j: Json, path: seq<string>)
    ensures path in Paths(j) <==> AtPath(j, path).Some? && AtPath(j, path).value.Object?
    decreases j, 1
  {
    if path == [] {
      NoEmptyChildPath(j, ChildSegs(j));
    } else {
      ChildPathsExact(j, ChildSegs(j), path);
      ChildSegsExact(j, path[0]);
    }
  }

  lemma {:induction false} NoEmptyChildPath(j: Json, segs: seq<string>)
    ensures [] !in ChildPaths(j, segs)
    decreases |segs|
  {
    if segs != [] {
      NoEmptyChildPath(j, segs[1..]);
    }
  }

  lemma {:induction false} ChildPathsExact(j: Json, segs: seq<string>, path: seq<string>)
    requires path != []
    ensures path in ChildPaths(j, segs) <==>
            path[0] in segs && AtPath(j, path).Some? && AtPath(j, path).value.Object?
    decreases j, 0, |segs|
  {
    if segs != [] {
      ChildPathsExact(j, segs[1..], path);
      assert segs == [segs[0]] + segs[1..];
      var child := Child(j, segs[0]);
      if child.Some? {
        PathsExact(child.value, path[1..]);
        PrefixedMember(segs[0], Paths(child.value), path);
      }
    }
  }

  lemma PrefixedMember(seg: string, paths: seq<seq<string>>, path: seq<string>)
    requires path != []
    ensures path in Prefixed(seg, paths) <==> path[0] == seg && path[1..] in paths
  {
    var all := Prefixed(seg, paths);
    if path in all {
      var i :| 0 <= i < |all| && all[i] == path;
      assert path[1..] == paths[i];
    }
    if path[0] == seg && path[1..] in paths {
      var i :| 0 <= i < |paths| && paths[i] == path[1..];
      assert all[i] == path;
    }
  }

  lemma {:induction false} PathsDistinct(j: Json)
    ensures Distinct(Paths(j))
    decreases j, 1
  {
    ChildSegsExact(j, "");
    ChildPathsDistinct(j, ChildSegs(j));
    NoEmptyChildPath(j, ChildSegs(j));
  }

  lemma {:induction false} ChildPathsDistinct(j: Json, segs: seq<string>)
    requires Distinct(segs)
    ensures Distinct(ChildPaths(j, segs))
    decreases j, 0, |segs|
  {
    if segs != [] {
      ChildPathsDistinct(j, segs[1..]);
      var child := Child(j, segs[0]);
      if child.Some? {
        PathsDistinct(child.value);
        var here, rest := Prefixed(segs[0], Paths(child.value)), ChildPaths(j, segs[1..]);
        assert Distinct(here) by {
          forall a, b | 0 <= a < b < |here|
            ensures here[a] != here[b]
          {
            assert here[a][1..] == Paths(child.value)[a] && here[b][1..] == Paths(child.value)[b];
          }
        }
        forall x | x in here
          ensures x !in rest
        {
          ChildPathsExact(j, segs[1..], x);
          assert segs[0] !in segs[1..];
        }
        DistinctConcat(here, rest);
      }
    }
  }

  lemma DistinctConcat<T>(a: seq<T>, b: seq<T>)
    requires Distinct(a) && Distinct(b) && forall x :: x in a ==> x !in b
    ensures Distinct(a + b)
  {
    var c := a + b;
    forall i, j | 0 <= i < j < |c|
      ensures c[i] != c[j]
    {
      if i < |a| <= j {
        assert c[i] in a && c[j] in b;
      }
    }
  }

  // ---- Children before parents ----

  ghost predicate BeforeParents(paths: seq<seq<string>>) {
    forall a, b :: 0 <= a < |paths| && 0 <= b < |paths| && paths[a] < paths[b] ==> b < a
  }

  lemma {:induction false} ChildrenFirst(j: Json)
    ensures BeforeParents(Paths(j))
    decreases j, 1
  {
    ChildSegsExact(j, "");
    ChildrenFirstIn(j, ChildSegs(j));
    var paths := Paths(j);
    var inner := ChildPaths(j, ChildSegs(j));
    NoEmptyChildPath(j, ChildSegs(j));
    forall a, b | 0 <= a < |paths| && 0 <= b < |paths| && paths[a] < paths[b]
      ensures b < a
    {
      if a < |inner| && b < |inner| {
        assert inner[a] < inner[b];
      }
    }
  }

  lemma {:induction false} ChildrenFirstIn(j: Json, segs: seq<string>)
    requires Distinct(segs)
    ensures BeforeParents(ChildPaths(j, segs))
    decreases j, 0, |segs|
  {
    if segs != [] {
      ChildrenFirstIn(j, segs[1..]);
      var child := Child(j, segs[0]);
      if child.Some? {
        ChildrenFirst(child.value);
        var below := Paths(child.value);
        var here, rest := Prefixed(segs[0], below), ChildPaths(j, segs[1..]);
        var all := here + rest;
        forall a, b | 0 <= a < |all| && 0 <= b < |all| && all[a] < all[b]
          ensures b < a
        {
          FirstOrLater(j, segs, below, rest, all, a, b);
        }
      }
    }
  }

  lemma FirstOrLater(j: Json, segs: seq<string>, below: seq<seq<string>>, rest: seq<seq<string>>,
                     all: seq<seq<string>>, a: nat, b: nat)
    requires segs != [] && Distinct(segs) && BeforeParents(below) && BeforeParents(rest)
    requires rest == ChildPaths(j, segs[1..]) && all == Prefixed(segs[0], below) + rest
    requires a < |all| && b < |all| && all[a] < all[b]
    ensures b < a
  {
    var n := |below|;
    if a < n && b < n {
      PrefixTail(segs[0], below[a], below[b]);
    } else if a >= n && b >= n {
      assert rest[a - n] < rest[b - n];
    } else if a < n {
      HeadsDiffer(j, segs, all[a], all[b]);
    } else {
      HeadsDiffer(j, segs, all[b], all[a]);
    }
  }

  lemma PrefixTail(seg: string, x: seq<string>, y: seq<string>)
    requires [seg] + x < [seg] + y
    ensures x < y
  {
    assert ([seg] + x)[1..] == x && ([seg] + y)[1..] == y;
  }

  /** A path of the first child and a path of a later child start differently. */
  lemma HeadsDiffer(j: Json, segs: seq<string>, x: seq<string>, y: seq<string>)
    requires Distinct(segs) && segs != [] && x != [] && x[0] == segs[0] && y in ChildPaths(j, segs[1..])
    ensures y != [] && x[0] != y[0]
  {
    NoEmptyChildPath(j, segs[1..]);
    ChildPathsExact(j, segs[1..], y);
    assert segs[0] !in segs[1..];
  }

  // ---- The reported keys ----

  /** Every key of the tree is non-empty and dot-free. */
  ghost predicate PlainKeys(j: Json)
    decreases j
  {
    match j
    case Object(fields) => forall k :: k in fields ==> DotFree(k) && PlainKeys(fields[k])
    case Array(items) => forall i :: 0 <= i < |items| ==> PlainKeys(items[i])
    case _ => true
  }

  lemma DecimalDotFree(i: nat)
    ensures DotFree(Decimal(i))
  {
  }

  lemma ChildPlain(j: Json, seg: string)
    requires PlainKeys(j) && Child(j, seg).Some?
    ensures DotFree(seg) && PlainKeys(Child(j, seg).value)
  {
    if j.Array? {
      DecimalDotFree(CanonIndex(seg, |j.items|).value);
    }
  }

  lemma {:induction false} JoinAppend(path: seq<string>, seg: string)
    requires DotFreePath(path)
    ensures JoinKey(Join(path), seg) == Join(path + [seg])
    ensures path != [] ==> Join(path) != ""
  {
    if path != [] {
      assert DotFree(path[0]);
      assert DotFreePath(path[1..]);
      JoinAppend(path[1..], seg);
      assert (path + [seg])[1..] == path[1..] + [seg];
      if |path| == 1 {
        assert path[1..] + [seg] == [seg];
      }
    }
  }

  function Reported(base: seq<string>, j: Json, paths: seq<seq<string>>): seq<Visit>
    requires forall p :: p in paths ==> AtPath(j, p).Some?
  {
    seq(|paths|, i requires 0 <= i < |paths| => Visit(Join(base + paths[i]), AtPath(j, paths[i]).value))
  }

  lemma PathsResolve(j: Json, paths: seq<seq<string>>)
    requires paths == Paths(j)
    ensures forall p :: p in paths ==> AtPath(j, p).Some?
  {
    forall p | p in paths
      ensures AtPath(j, p).Some?
    {
      PathsExact(j, p);
    }
  }

  lemma ReportedRoot(base: seq<string>, j: Json, inner: seq<seq<string>>)
    requires forall p :: p in inner ==> AtPath(j, p).Some?
    ensures forall p :: p in inner + [[]] ==> AtPath(j, p).Some?
    ensures Reported(base, j, inner + [[]]) == Reported(base, j, inner) + [Visit(Join(base), j)]
  {
    assert base + [] == base;
    assert forall p :: p in inner + [[]] ==> p in inner || p == [];
  }

  /** The code's keys are the joined paths. */
  lemma {:induction false} VisitsAreReported(base: seq<string>, j: Json)
    requires DotFreePath(base) && PlainKeys(j)
    ensures forall p :: p in Paths(j) ==> AtPath(j, p).Some?
    ensures Visits(Join(base), j) == Reported(base, j, Paths(j))
    decreases j, 1
  {
    PathsResolve(j, Paths(j));
    ChildVisitsAreReported(base, j, ChildSegs(j));
    if j.Object? {
      ReportedRoot(base, j, ChildPaths(j, ChildSegs(j)));
    }
  }

  lemma {:induction false} ChildVisitsAreReported(base: seq<string>, j: Json, segs: seq<string>)
    requires DotFreePath(base) && PlainKeys(j)
    ensures forall p :: p in ChildPaths(j, segs) ==> AtPath(j, p).Some?
    ensures VisitChildren(Join(base), j, segs) == Reported(base, j, ChildPaths(j, segs))
    decreases j, 0, |segs|
  {
    if segs != [] {
      ChildVisitsAreReported(base, j, segs[1..]);
      var child := Child(j, segs[0]);
      if child.Some? {
        ChildPlain(j, segs[0]);
        assert DotFreePath(base + [segs[0]]);
        VisitsAreReported(base + [segs[0]], child.value);
        JoinAppend(base, segs[0]);
        PrefixedReported(base, j, segs[0], Paths(child.value));
        ReportedConcat(base, j, Prefixed(segs[0], Paths(child.value)), ChildPaths(j, segs[1..]));
      }
    }
  }

  lemma ReportedConcat(base: seq<string>, j: Json, a: seq<seq<string>>, b: seq<seq<string>>)
    requires (forall p :: p in a ==> AtPath(j, p).Some?) && (forall p :: p in b ==> AtPath(j, p).Some?)
    ensures forall p :: p in a + b ==> AtPath(j, p).Some?
    ensures Reported(base, j, a + b) == Reported(base, j, a) + Reported(base, j, b)
  {
  }

  lemma PrefixedReported(base: seq<string>, j: Json, seg: string, paths: seq<seq<string>>)
    requires Child(j, seg).Some? && forall p :: p in paths ==> AtPath(Child(j, seg).value, p).Some?
    ensures forall p :: p in Prefixed(seg, paths) ==> AtPath(j, p).Some?
    ensures Reported(base, j, Prefixed(seg, paths)) == Reported(base + [seg], Child(j, seg).value, paths)
  {
    var all := Prefixed(seg, paths);
    forall i | 0 <= i < |paths|
      ensures AtPath(j, all[i]) == AtPath(Child(j, seg).value, paths[i])
      ensures base + all[i] == (base + [seg]) + paths[i]
      ensures AtPath(j, all[i]).Some?
    {
      assert all[i][1..] == paths[i];
      assert paths[i] in paths;
    }
    var x, y := Reported(base, j, all), Reported(base + [seg], Child(j, seg).value, paths);
    forall i | 0 <= i < |paths|
      ensures x[i] == y[i]
    {
      assert base + all[i] == (base + [seg]) + paths[i];
    }
  }

  lemma {:induction false} PlainPath(j: Json, path: seq<string>)
    requires PlainKeys(j) && AtPath(j, path).Some?
    ensures DotFreePath(path)
    decreases |path|
  {
    if path != [] {
      ChildPlain(j, path[0]);
      PlainPath(Child(j, path[0]).value, path[1..]);
      assert path == [path[0]] + path[1..];
    }
  }

  /** On trees with non-empty dot-free keys every reported key but the root's is resolved by `Get` to
      the very node it was reported with. */
  lemma ReportedKeysResolve(j: Json, i: nat)
    requires PlainKeys(j) && i < |Visits("", j)|
    ensures var v := Visits("", j)[i];
            (v.key == "" && v.node == j && i == |Visits("", j)| - 1) || (Container(j) && Get(j, v.key) == Found(v.node))
  {
    VisitsAreReported([], j);
    var path := Paths(j)[i];
    assert path in Paths(j);
    PathsExact(j, path);
    assert [] + path == path;
    if path == [] {
      assert j.Object?;
      var last := |Paths(j)| - 1;
      PathsDistinct(j);
      assert Paths(j)[last] == [];
    } else {
      PlainPath(j, path);
      GetAtPath(j, path);
    }
  }
}

/** `Iterate` with a callback that edits the maps it is given: the edits, made one visit after the other, add
    up to one bottom-up rewrite of the tree. */
module Editing {
  import opened Text
  import opened Sorting
  import opened Document
  import opened Iteration

  /** What a callback makes of the map it is given; `None` is a panic. */
  type Callback = map<string, Json> -> Option<map<string, Json>>

  // ---- The bottom-up rewrite ----

  /** Children first, then the callback on what became of the node. */
  function BottomUp(cb: Callback, j: Json): Option<Json>
    decreases j, 1
  {
    match j
    case Object(fields) =>
      if exists k :: k in fields && BottomUp(cb, fields[k]).None? then None
      else
        var node := cb(BottomFields(cb, j));
        if node.None? then None else Some(Object(node.value))
    case Array(items) =>
      if exists i :: 0 <= i < |items| && BottomUp(cb, items[i]).None? then None
      else Some(Array(BottomItems(cb, j)))
    case _ => Some(j)
  }

  function BottomFields(cb: Callback, j: Json): (m: map<string, Json>)
    requires j.Object? && forall k :: k in j.fields ==> BottomUp(cb, j.fields[k]).Some?
    ensures m.Keys == j.fields.Keys
    ensures forall k :: k in m ==> m[k] == BottomUp(cb, j.fields[k]).value
    decreases j, 0
  {
    map k | k in j.fields :: BottomUp(cb, j.fields[k]).value
  }

  function BottomItems(cb: Callback, j: Json): (s: seq<Json>)
    requires j.Array? && forall i :: 0 <= i < |j.items| ==> BottomUp(cb, j.items[i]).Some?
    ensures |s| == |j.items|
    ensures forall i :: 0 <= i < |s| ==> s[i] == BottomUp(cb, j.items[i]).value
    decreases j, 0
  {
    seq(|j.items|, i requires 0 <= i < |j.items| => BottomUp(cb, j.items[i]).value)
  }

  // ---- The edits, visit by visit ----

  /** The callback on the map at a path, written back in place. */
  function EditAt(cb: Callback, j: Json, path: seq<string>): Option<Json> {
    var node := AtPath(j, path);
    if node.None? || !node.value.Object? then None
    else
      var edited := cb(node.value.fields);
      if edited.None? then None
      else
        ResolvedIsSettable(j, path);
        Some(SetPath(j, path, Object(edited.value)))
  }

  /** The edits at these paths, one after the other. */
  function EditAll(cb: Callback, j: Json, paths: seq<seq<string>>): Option<Json>
    decreases |paths|
  {
    if paths == [] then Some(j)
    else
      var once := EditAt(cb, j, paths[0]);
      if once.None? then None else EditAll(cb, once.value, paths[1..])
  }

  lemma {:induction false} EditConcat(cb: Callback, j: Json, a: seq<seq<string>>, b: seq<seq<string>>)
    ensures EditAll(cb, j, a + b) ==
            if EditAll(cb, j, a).Some? then EditAll(cb, EditAll(cb, j, a).value, b) else None
    decreases |a|
  {
    if a == [] {
      assert a + b == b;
    } else {
      assert (a + b)[0] == a[0] && (a + b)[1..] == a[1..] + b;
      var once := EditAt(cb, j, a[0]);
      if once.Some? {
        EditConcat(cb, once.value, a[1..], b);
      }
    }
  }

  /** A child put in the place of another. */
  function WithChild(j: Json, seg: string, child: Option<Json>): Option<Json>
    requires Child(j, seg).Some?
  {
    if child.None? then None else Some(SetChild(j, seg, child.value))
  }

  lemma EditBeneath(cb: Callback, j: Json, seg: string, path: seq<string>)
    requires Child(j, seg).Some?
    ensures EditAt(cb, j, [seg] + path) == WithChild(j, seg, EditAt(cb, Child(j, seg).value, path))
  {
    var child, full := Child(j, seg).value, [seg] + path;
    assert full[0] == seg && full[1..] == path;
    assert AtPath(j, full) == AtPath(child, path);
    if EditAt(cb, child, path).Some? {
      ResolvedIsSettable(child, path);
      ResolvedIsSettable(j, full);
      var value := Object(cb(AtPath(child, path).value.fields).value);
      if path == [] {
        assert |full| == 1;
      } else {
        assert SetPath(j, full, value) == SetChild(j, seg, SetPath(child, path, value));
      }
    }
  }

  lemma SetSameChild(j: Json, seg: string)
    requires Child(j, seg).Some?
    ensures SetChild(j, seg, Child(j, seg).value) == j
  {
  }

  /** Editing beneath one child only changes that child. */
  lemma {:induction false} EditPrefixed(cb: Callback, j: Json, seg: string, paths: seq<seq<string>>)
    requires Child(j, seg).Some?
    ensures EditAll(cb, j, Prefixed(seg, paths)) == WithChild(j, seg, EditAll(cb, Child(j, seg).value, paths))
    decreases |paths|
  {
    var child, all := Child(j, seg).value, Prefixed(seg, paths);
    if paths == [] {
      SetSameChild(j, seg);
    } else {
      assert all[0] == [seg] + paths[0] && all[1..] == Prefixed(seg, paths[1..]);
      EditBeneath(cb, j, seg, paths[0]);
      var once := EditAt(cb, child, paths[0]);
      if once.Some? {
        var j' := SetChild(j, seg, once.value);
        ChildSetChild(j, seg, once.value, seg);
        EditPrefixed(cb, j', seg, paths[1..]);
        var rest := EditAll(cb, once.value, paths[1..]);
        if rest.Some? {
          SetChildTwice(j, seg, once.value, rest.value);
        }
      }
    }
  }

  // ---- One child after the other ----

  /** `cur`, which still has the children `segs` of `j`, with their rewrites put in one after the other. */
  ghost function Replaced(cb: Callback, j: Json, cur: Json, segs: seq<string>): Option<Json>
    requires forall s :: s in segs ==> Child(j, s).Some? && Child(cur, s).Some?
    decreases |segs|
  {
    if segs == [] then Some(cur)
    else
      var child := BottomUp(cb, Child(j, segs[0]).value);
      if child.None? then None
      else
        StillThere(cur, segs[0], child.value, segs[1..]);
        Replaced(cb, j, SetChild(cur, segs[0], child.value), segs[1..])
  }

  lemma StillThere(cur: Json, seg: string, value: Json, segs: seq<string>)
    requires Child(cur, seg).Some? && forall s :: s in segs ==> Child(cur, s).Some?
    ensures forall s :: s in segs ==> Child(SetChild(cur, seg, value), s).Some?
  {
    forall s | s in segs
      ensures Child(SetChild(cur, seg, value), s).Some?
    {
      ChildSetChild(cur, seg, value, s);
    }
  }

  ghost predicate SameChildren(j: Json, cur: Json, segs: seq<string>) {
    forall s :: s in segs ==> Child(j, s).Some? && Child(cur, s) == Child(j, s)
  }

  lemma OthersSame(j: Json, cur: Json, value: Json, segs: seq<string>)
    requires segs != [] && Distinct(segs) && SameChildren(j, cur, segs) && Child(cur, segs[0]).Some?
    ensures SameChildren(j, SetChild(cur, segs[0], value), segs[1..]) && Distinct(segs[1..])
  {
    forall s | s in segs[1..]
      ensures Child(j, s).Some? && Child(SetChild(cur, segs[0], value), s) == Child(j, s)
    {
      LaterSeg(segs, s);
      ChildSetChild(cur, segs[0], value, s);
    }
  }

  lemma LaterSeg(segs: seq<string>, s: string)
    requires segs != [] && Distinct(segs) && s in segs[1..]
    ensures s in segs && s != segs[0]
  {
    var i :| 0 <= i < |segs[1..]| && segs[1..][i] == s;
    assert segs[i + 1] == s;
  }

  /** Visiting the maps beneath the children, in order, rewrites the children one after the other. */
  lemma {:induction false} EditChildren(cb: Callback, j: Json, cur: Json, segs: seq<string>)
    requires Distinct(segs) && SameChildren(j, cur, segs)
    ensures EditAll(cb, cur, ChildPaths(j, segs)) == Replaced(cb, j, cur, segs)
    decreases j, 0, |segs|
  {
    if segs != [] {
      var child := Child(j, segs[0]).value;
      VisitingOrder(cb, child);
      EditConcat(cb, cur, Prefixed(segs[0], Paths(child)), ChildPaths(j, segs[1..]));
      EditPrefixed(cb, cur, segs[0], Paths(child));
      var edited := BottomUp(cb, child);
      if edited.Some? {
        OthersSame(j, cur, edited.value, segs);
        EditChildren(cb, j, SetChild(cur, segs[0], edited.value), segs[1..]);
      }
    }
  }

  /** The same kind of container, with the same keys or the same length. */
  predicate SameShape(a: Json, b: Json) {
    match a
    case Object(fields) => b.Object? && b.fields.Keys == fields.Keys
    case Array(items) => b.Array? && |b.items| == |items|
    case _ => b == a
  }

  lemma {:induction false} ReplacedIs(cb: Callback, j: Json, cur: Json, segs: seq<string>)
    requires Distinct(segs) && SameChildren(j, cur, segs)
    ensures Replaced(cb, j, cur, segs).None? <==> exists s :: s in segs && BottomUp(cb, Child(j, s).value).None?
    ensures Replaced(cb, j, cur, segs).Some? ==>
              && SameShape(cur, Replaced(cb, j, cur, segs).value)
              && forall s :: Child(Replaced(cb, j, cur, segs).value, s) ==
                             if s in segs then BottomUp(cb, Child(j, s).value) else Child(cur, s)
    decreases |segs|
  {
    if segs != [] {
      var edited := BottomUp(cb, Child(j, segs[0]).value);
      if edited.Some? {
        var cur' := SetChild(cur, segs[0], edited.value);
        OthersSame(j, cur, edited.value, segs);
        ReplacedIs(cb, j, cur', segs[1..]);
        assert SameShape(cur, cur') by {
          assert cur.Object? ==> cur'.fields.Keys == cur.fields.Keys;
        }
        ReplacedHere(cb, j, cur, segs);
      }
    }
  }

  lemma ReplacedHere(cb: Callback, j: Json, cur: Json, segs: seq<string>)
    requires segs != [] && Distinct(segs) && SameChildren(j, cur, segs) && BottomUp(cb, Child(j, segs[0]).value).Some?
    ensures forall s :: s in segs <==> s == segs[0] || s in segs[1..]
    ensures segs[0] !in segs[1..]
    ensures forall s :: Child(SetChild(cur, segs[0], BottomUp(cb, Child(j, segs[0]).value).value), s) ==
                        if s == segs[0] then BottomUp(cb, Child(j, segs[0]).value) else Child(cur, s)
  {
    forall s
      ensures Child(SetChild(cur, segs[0], BottomUp(cb, Child(j, segs[0]).value).value), s) ==
              if s == segs[0] then BottomUp(cb, Child(j, segs[0]).value) else Child(cur, s)
    {
      ChildSetChild(cur, segs[0], BottomUp(cb, Child(j, segs[0]).value).value, s);
    }
  }

  /** Trees of one shape with the same children are the same. */
  lemma SameTree(a: Json, b: Json)
    requires SameShape(a, b) && forall s :: Child(a, s) == Child(b, s)
    ensures a == b
  {
    match a
    case Object(fields) =>
      forall k | k in fields
        ensures fields[k] == b.fields[k]
      {
        assert Child(a, k) == Child(b, k);
      }
      assert fields == b.fields;
    case Array(items) =>
      forall i | 0 <= i < |items|
        ensures items[i] == b.items[i]
      {
        CanonDecimal(i, |items|);
        assert Child(a, Decimal(i)) == Child(b, Decimal(i));
      }
      assert items == b.items;
    case _ =>
  }

  ghost function RewrittenChildren(cb: Callback, j: Json): Option<Json> {
    match j
    case Object(fields) =>
      if exists k :: k in fields && BottomUp(cb, fields[k]).None? then None else Some(Object(BottomFields(cb, j)))
    case Array(items) =>
      if exists i :: 0 <= i < |items| && BottomUp(cb, items[i]).None? then None else Some(Array(BottomItems(cb, j)))
    case _ => Some(j)
  }

  lemma ChildFails(cb: Callback, j: Json)
    ensures RewrittenChildren(cb, j).None? <==>
              exists s :: s in ChildSegs(j) && Child(j, s).Some? && BottomUp(cb, Child(j, s).value).None?
  {
    forall s
      ensures s in ChildSegs(j) <==> Child(j, s).Some?
    {
      ChildSegsExact(j, s);
    }
    if j.Object? {
      if k :| k in j.fields && BottomUp(cb, j.fields[k]).None? {
        assert Child(j, k) == Some(j.fields[k]) && k in ChildSegs(j);
      }
    } else if j.Array? {
      if i :| 0 <= i < |j.items| && BottomUp(cb, j.items[i]).None? {
        CanonDecimal(i, |j.items|);
        assert Child(j, Decimal(i)) == Some(j.items[i]) && Decimal(i) in ChildSegs(j);
      }
    }
  }

  lemma RewrittenChild(cb: Callback, j: Json, s: string)
    requires RewrittenChildren(cb, j).Some?
    ensures Child(RewrittenChildren(cb, j).value, s) ==
              if Child(j, s).Some? then BottomUp(cb, Child(j, s).value) else None
  {
  }

  lemma AllReplaced(cb: Callback, j: Json)
    requires forall s :: s in ChildSegs(j) <==> Child(j, s).Some?
    ensures Replaced(cb, j, j, ChildSegs(j)) == RewrittenChildren(cb, j)
  {
    ChildSegsExact(j, "");
    ReplacedIs(cb, j, j, ChildSegs(j));
    ChildFails(cb, j);
    var x, y := Replaced(cb, j, j, ChildSegs(j)), RewrittenChildren(cb, j);
    if x.Some? {
      forall s
        ensures Child(x.value, s) == Child(y.value, s)
      {
        RewrittenChild(cb, j, s);
      }
      assert SameShape(x.value, y.value);
      SameTree(x.value, y.value);
    }
  }

  /** Applying any callback at every map, in the order of `Iterate` and writing each result back in place, is the
      bottom-up rewrite: every visited map is still there when its turn comes, with its children rewritten. */
  lemma {:induction false} VisitingOrder(cb: Callback, j: Json)
    ensures EditAll(cb, j, Paths(j)) == BottomUp(cb, j)
    decreases j, 1
  {
    forall s
      ensures s in ChildSegs(j) <==> Child(j, s).Some?
    {
      ChildSegsExact(j, s);
    }
    ChildSegsExact(j, "");
    EditChildren(cb, j, j, ChildSegs(j));
    AllReplaced(cb, j);
    if j.Object? {
      EditConcat(cb, j, ChildPaths(j, ChildSegs(j)), [[]]);
      var inner := RewrittenChildren(cb, j);
      if inner.Some? {
        EditRoot(cb, inner.value);
      }
    } else {
      assert Paths(j) == ChildPaths(j, ChildSegs(j));
    }
  }

  lemma EditRoot(cb: Callback, j: Json)
    requires j.Object?
    ensures EditAll(cb, j, [[]]) == if cb(j.fields).None? then None else Some(Object(cb(j.fields).value))
  {
    var root: seq<seq<string>> := [[]];
    assert root[1..] == [];
    assert AtPath(j, root[0]) == Some(j);
    var once := EditAt(cb, j, root[0]);
    assert EditAll(cb, j, root) == if once.None? then None else EditAll(cb, once.value, root[1..]);
  }
}

/** Folding gaps into groups: any order of operations and any map iteration order give the same
    groups. */
module Discover {
  import opened Text
  import opened Sorting
  import opened Oas
  import opened Gaps

  /** One gap of one resource, as `addGroup` receives it. */
  datatype Fold = Fold(resource: string, gap: PropGap)

  function KeyOf(f: Fold): string {
    f.resource + "#" + f.gap.ref.pointer
  }

  // ---- Members in order ----

  predicate MemberLeq(a: Member, b: Member) {
    if a.field != b.field then StringLeq(a.field, b.field)
    else if a.pointer != b.pointer then StringLeq(a.pointer, b.pointer)
    else StringLeq(a.xState, b.xState)
  }

  lemma MemberOrder()
    ensures TotalOrder(MemberLeq)
  {
    StringOrder();
    forall a, b
      ensures MemberLeq(a, b) || MemberLeq(b, a)
    {
      assert StringLeq(a.field, b.field) || StringLeq(b.field, a.field);
      assert StringLeq(a.pointer, b.pointer) || StringLeq(b.pointer, a.pointer);
      assert StringLeq(a.xState, b.xState) || StringLeq(b.xState, a.xState);
    }
    forall a, b | MemberLeq(a, b) && MemberLeq(b, a)
      ensures a == b
    {
    }
    forall a, b, c | MemberLeq(a, b) && MemberLeq(b, c)
      ensures MemberLeq(a, c)
    {
    }
  }

  ghost function SortedMembers(u: set<Member>): seq<Member> {
    MemberOrder();
    SortSet(u, MemberLeq)
  }

  /** `addMembers`: appends what is not yet in `seen`, recording it there. */
  method AddMembers(dst: seq<Member>, seen: set<Member>, src: seq<Member>)
    returns (out: seq<Member>, seen': set<Member>)
    requires Distinct(dst) && Elements(dst) == seen
    ensures Distinct(out) && Elements(out) == seen'
    ensures seen' == seen + Elements(src)
  {
    out, seen' := dst, seen;
    for i := 0 to |src|
      invariant Distinct(out) && Elements(out) == seen'
      invariant seen' == seen + Elements(src[..i])
    {
      assert src[..i + 1] == src[..i] + [src[i]];
      assert Elements(src[..i + 1]) == Elements(src[..i]) + {src[i]};
      if src[i] !in seen' {
        assert src[i] !in out;
        assert Elements(out + [src[i]]) == Elements(out) + {src[i]};
        seen' := seen' + {src[i]};
        out := out + [src[i]];
      }
    }
    assert src[..|src|] == src;
  }

  /** `sortMembers` on a duplicate-free list gives the one sorted list of its elements. */
  method SortMembers(members: seq<Member>) returns (r: seq<Member>)
    requires Distinct(members)
    ensures r == SortedMembers(Elements(members))
  {
    MemberOrder();
    r := Sort(members, MemberLeq);
    DistinctMultiset(members);
    DistinctFromMultiset(r, Elements(members));
    SortedSetUnique(r, SortedMembers(Elements(members)), MemberLeq);
  }

  // ---- Stage 1: one group per key ----

  /** The folds that carry members; the others leave no trace. */
  function FoldSet(folds: seq<Fold>): set<Fold> {
    set f | f in folds && f.gap.members != []
  }

  /** The same key implies the same resource, field name, ref and kind. */
  ghost predicate Coherent(fs: set<Fold>) {
    forall f, g :: f in fs && g in fs && KeyOf(f) == KeyOf(g) ==>
      f.resource == g.resource && f.gap.name == g.gap.name && f.gap.ref == g.gap.ref && f.gap.query == g.gap.query
  }

  ghost function KeysOf(fs: set<Fold>): set<string> {
    set f | f in fs :: KeyOf(f)
  }

  ghost function MembersAt(fs: set<Fold>, key: string): set<Member> {
    set f, m | f in fs && KeyOf(f) == key && m in f.gap.members :: m
  }

  ghost predicate RequiredAt(fs: set<Fold>, key: string) {
    exists f :: f in fs && KeyOf(f) == key && f.gap.required
  }

  /** Hashes are opaque: the structure of a ref, and the digest of a text. */
  datatype Hashes = Hashes(structure: SchemaRef -> Result<string>, digest: string -> string)

  function BoolText(b: bool): string {
    if b then "true" else "false"
  }

  ghost function Representative(fs: set<Fold>, key: string): (f: Fold)
    requires key in KeysOf(fs)
    ensures f in fs && KeyOf(f) == key
  {
    var f :| f in fs && KeyOf(f) == key;
    f
  }

  /** The group of a key, from the set of folds alone. */
  ghost function Finished(fs: set<Fold>, key: string, h: Hashes): Group
    requires key in KeysOf(fs) && h.structure(Representative(fs, key).gap.ref).Ok?
  {
    var f := Representative(fs, key);
    Group(key, f.resource, f.gap.name, f.gap.ref.pointer,
          h.digest(h.structure(f.gap.ref).value + "|" + BoolText(RequiredAt(fs, key))),
          SortedMembers(MembersAt(fs, key)), f.gap.query)
  }

  ghost predicate Hashable(fs: set<Fold>, h: Hashes) {
    forall f :: f in fs ==> h.structure(f.gap.ref).Ok?
  }

  ghost function FinishedGroups(fs: set<Fold>, h: Hashes): set<Group>
    requires Hashable(fs, h)
  {
    set key | key in KeysOf(fs) :: Finished(fs, key, h)
  }

  /** `groupBuild`: the group so far (its fingerprint still open), its ref, and the members seen. */
  datatype GroupBuild = GroupBuild(resource: string, field: string, query: bool, ref: SchemaRef, required: bool,
      members: seq<Member>, seen: set<Member>)

  ghost predicate BuiltFrom(b: GroupBuild, fs: set<Fold>, key: string) {
    && (exists f :: f in fs && KeyOf(f) == key && SameIdentity(b, f))
    && (b.required <==> RequiredAt(fs, key))
    && Distinct(b.members) && Elements(b.members) == b.seen == MembersAt(fs, key)
  }

  ghost predicate SameIdentity(b: GroupBuild, f: Fold) {
    b.resource == f.resource && b.field == f.gap.name && b.query == f.gap.query && b.ref == f.gap.ref
  }

  /** The `groups` map of `discover`, updated in place by `addGroup`. */
  class GroupTable {
    var builds: map<string, GroupBuild>
    ghost var folded: set<Fold>

    ghost predicate Valid()
      reads this
    {
      && builds.Keys == KeysOf(folded)
      && forall key :: key in builds ==> BuiltFrom(builds[key], folded, key)
    }

    constructor ()
      ensures Valid() && folded == {}
    {
      builds, folded := map[], {};
    }

    method AddGroup(f: Fold)
      requires Valid()
      modifies this
      ensures Valid()
      ensures folded == if f.gap.members == [] then old(folded) else old(folded) + {f}
    {
      if f.gap.members == [] {
        return;
      }
      var key := KeyOf(f);
      var b: GroupBuild;
      if key in builds {
        b := builds[key];
      } else {
        b := GroupBuild(f.resource, f.gap.name, f.gap.query, f.gap.ref, false, [], {});
      }
      var members, seen := AddMembers(b.members, b.seen, f.gap.members);
      ghost var fs := folded + {f};
      BuildGrows(folded, f, key);
      builds := builds[key := b.(required := b.required || f.gap.required, members := members, seen := seen)];
      folded := fs;
      forall k | k in builds
        ensures BuiltFrom(builds[k], folded, k)
      {
        if k != key {
          BuildUnchanged(old(builds)[k], old(folded), f, k);
        } else if key in old(builds) {
          var g :| g in old(folded) && KeyOf(g) == key && SameIdentity(b, g);
          assert g in folded && SameIdentity(builds[key], g);
        } else {
          assert f in folded && SameIdentity(builds[key], f);
        }
      }
      assert builds.Keys == KeysOf(folded);
    }
  }

  lemma BuildGrows(fs: set<Fold>, f: Fold, key: string)
    requires key == KeyOf(f)
    ensures MembersAt(fs + {f}, key) == MembersAt(fs, key) + Elements(f.gap.members)
    ensures RequiredAt(fs + {f}, key) <==> RequiredAt(fs, key) || f.gap.required
    ensures key !in KeysOf(fs) ==> MembersAt(fs, key) == {} && !RequiredAt(fs, key)
    ensures KeysOf(fs + {f}) == KeysOf(fs) + {key}
  {
    var all := fs + {f};
    assert f in all;
    forall g | g in fs ensures g in all {}
  }

  lemma BuildUnchanged(b: GroupBuild, fs: set<Fold>, f: Fold, key: string)
    requires BuiltFrom(b, fs, key) && key != KeyOf(f)
    ensures BuiltFrom(b, fs + {f}, key)
  {
    var all := fs + {f};
    var g :| g in fs && KeyOf(g) == key && SameIdentity(b, g);
    assert g in all;
    assert MembersAt(all, key) == MembersAt(fs, key);
    assert RequiredAt(all, key) <==> RequiredAt(fs, key) by {
      if RequiredAt(fs, key) {
        var r :| r in fs && KeyOf(r) == key && r.gap.required;
        assert r in all;
      }
    }
  }

  /** `finish`: hash the structure and sort the members. */
  method Finish(b: GroupBuild, key: string, ghost fs: set<Fold>, h: Hashes) returns (r: Result<Group>)
    requires BuiltFrom(b, fs, key) && Coherent(fs)
    ensures r.Ok? <==> h.structure(b.ref).Ok?
    ensures key in KeysOf(fs) && b.ref == Representative(fs, key).gap.ref
    ensures r.Ok? ==> r.value == Finished(fs, key, h)
  {
    ghost var f :| f in fs && KeyOf(f) == key && SameIdentity(b, f);
    ghost var rep := Representative(fs, key);
    assert KeyOf(rep) == KeyOf(f);
    var structure := h.structure(b.ref);
    if structure.Err? {
      return Err(structure.error);
    }
    var sum := h.digest(structure.value + "|" + BoolText(b.required));
    var members := SortMembers(b.members);
    return Ok(Group(key, b.resource, b.field, b.ref.pointer, sum, members, b.query));
  }

  ghost predicate TableFrom(builds: map<string, GroupBuild>, fs: set<Fold>) {
    builds.Keys == KeysOf(fs) && forall key :: key in builds ==> BuiltFrom(builds[key], fs, key)
  }

  ghost predicate IsFinished(g: Group, fs: set<Fold>, h: Hashes) {
    && g.key in KeysOf(fs)
    && h.structure(Representative(fs, g.key).gap.ref).Ok?
    && g == Finished(fs, g.key, h)
  }

  function GroupKeys(s: seq<Group>): set<string> {
    set g | g in s :: g.key
  }

  lemma FinishedEach(s: seq<Group>, fs: set<Fold>, h: Hashes)
    requires Hashable(fs, h) && (forall g :: g in s ==> IsFinished(g, fs, h)) && GroupKeys(s) == KeysOf(fs)
    ensures Elements(s) == FinishedGroups(fs, h)
  {
    forall g | g in FinishedGroups(fs, h)
      ensures g in s
    {
      var key :| key in KeysOf(fs) && g == Finished(fs, key, h);
      assert key in GroupKeys(s);
      var x :| x in s && x.key == key;
      assert IsFinished(x, fs, h);
    }
    forall g | g in s
      ensures g in FinishedGroups(fs, h)
    {
      assert IsFinished(g, fs, h);
    }
  }

  lemma KeyHashable(fs: set<Fold>, key: string, h: Hashes)
    requires Coherent(fs) && key in KeysOf(fs) && h.structure(Representative(fs, key).gap.ref).Ok?
    ensures forall f :: f in fs && KeyOf(f) == key ==> h.structure(f.gap.ref).Ok?
  {
    forall f | f in fs && KeyOf(f) == key
      ensures h.structure(f.gap.ref).Ok?
    {
      assert KeyOf(Representative(fs, key)) == KeyOf(f);
    }
  }

  /** The loop over the `groups` map, in whatever order it is iterated. */
  method FinishAll(builds: map<string, GroupBuild>, ghost fs: set<Fold>, h: Hashes) returns (r: Result<seq<Group>>)
    requires TableFrom(builds, fs) && Coherent(fs)
    ensures r.Ok? <==> Hashable(fs, h)
    ensures r.Ok? ==> Distinct(r.value) && Elements(r.value) == FinishedGroups(fs, h)
  {
    var left := builds.Keys;
    var out: seq<Group> := [];
    while left != {}
      invariant left <= builds.Keys && FinishedSoFar(fs, h, left, out)
      decreases left
    {
      var key :| key in left;
      var g := Finish(builds[key], key, fs, h);
      if g.Err? {
        assert Representative(fs, key) in fs;
        return Err(g.error);
      }
      FinishedOneMore(fs, h, left, out, key, g.value);
      left := left - {key};
      out := out + [g.value];
    }
    FinishedAll(fs, h, out);
    return Ok(out);
  }

  /** The keys no longer in `left` are hashed, each with its one finished group. */
  ghost predicate FinishedSoFar(fs: set<Fold>, h: Hashes, left: set<string>, out: seq<Group>) {
    && (forall f :: f in fs && KeyOf(f) !in left ==> h.structure(f.gap.ref).Ok?)
    && (forall g :: g in out ==> IsFinished(g, fs, h))
    && GroupKeys(out) == KeysOf(fs) - left
    && Distinct(out)
  }

  lemma FinishedOneMore(fs: set<Fold>, h: Hashes, left: set<string>, out: seq<Group>, key: string, g: Group)
    requires Coherent(fs) && FinishedSoFar(fs, h, left, out) && key in left && key in KeysOf(fs)
    requires g.key == key && IsFinished(g, fs, h)
    ensures FinishedSoFar(fs, h, left - {key}, out + [g])
  {
    KeyHashable(fs, key, h);
    GroupKeysGrow(out, g);
    assert key !in GroupKeys(out);
    assert g !in out;
    AppendDistinct(out, g);
    assert KeysOf(fs) - (left - {key}) == (KeysOf(fs) - left) + {key};
  }

  lemma FinishedAll(fs: set<Fold>, h: Hashes, out: seq<Group>)
    requires FinishedSoFar(fs, h, {}, out)
    ensures Hashable(fs, h) && Distinct(out) && Elements(out) == FinishedGroups(fs, h)
  {
    assert KeysOf(fs) - {} == KeysOf(fs);
    FinishedEach(out, fs, h);
  }

  lemma GroupKeysGrow(s: seq<Group>, g: Group)
    ensures GroupKeys(s + [g]) == GroupKeys(s) + {g.key}
  {
    assert g in s + [g];
    forall x | x in s ensures x in s + [g] {}
  }

  // ---- Stage 2: groups of one resource that share a field and a kind ----

  datatype Id = Id(resource: string, field: string, query: bool)

  function IdOf(g: Group): Id {
    Id(g.resource, g.field, g.query)
  }

  ghost function Ids(gs: set<Group>): set<Id> {
    set g | g in gs :: IdOf(g)
  }

  ghost function Siblings(gs: set<Group>, id: Id): set<Group> {
    set g | g in gs && IdOf(g) == id
  }

  ghost predicate DistinctPointers(gs: set<Group>) {
    forall a, b :: a in gs && b in gs && a.pointer == b.pointer ==> a == b
  }

  ghost function Pointers(gs: set<Group>): set<string> {
    set g | g in gs :: g.pointer
  }

  ghost function SortedPointers(gs: set<Group>): seq<string> {
    StringOrder();
    SortSet(Pointers(gs), StringLeq)
  }

  ghost function At(gs: set<Group>, pointer: string): (g: Group)
    requires pointer in Pointers(gs)
    ensures g in gs && g.pointer == pointer
  {
    var g :| g in gs && g.pointer == pointer;
    g
  }

  function Line(g: Group): string {
    g.pointer + "=" + g.fingerprint + "\n"
  }

  ghost function StructureText(gs: set<Group>, pointers: seq<string>): string
    requires forall p :: p in pointers ==> p in Pointers(gs)
  {
    if pointers == [] then ""
    else StructureText(gs, pointers[..|pointers| - 1]) + Line(At(gs, pointers[|pointers| - 1]))
  }

  ghost function UnionMembers(gs: set<Group>): set<Member> {
    set g, m | g in gs && m in g.members :: m
  }

  /** The merged group, from the set of siblings alone: a lone group stays as it is. */
  ghost function MergedOf(gs: set<Group>, h: Hashes): Group
    requires gs != {}
  {
    var pointers := SortedPointers(gs);
    FirstPointer(gs);
    var first := At(gs, pointers[0]);
    if |gs| == 1 then first
    else first.(members := SortedMembers(UnionMembers(gs)), fingerprint := h.digest(StructureText(gs, pointers)))
  }

  lemma FirstPointer(gs: set<Group>)
    requires gs != {}
    ensures SortedPointers(gs) != [] && SortedPointers(gs)[0] in Pointers(gs)
    ensures forall p :: p in SortedPointers(gs) ==> p in Pointers(gs)
  {
    var g :| g in gs;
    assert g.pointer in Pointers(gs);
    assert Elements(SortedPointers(gs)) == Pointers(gs);
    assert g.pointer in Elements(SortedPointers(gs));
    forall p | p in SortedPointers(gs)
      ensures p in Pointers(gs)
    {
      assert p in Elements(SortedPointers(gs));
    }
  }

  predicate PointerLeq(a: Group, b: Group) {
    StringLeq(a.pointer, b.pointer)
  }

  predicate KeyLeq(a: Group, b: Group) {
    StringLeq(a.key, b.key)
  }

  lemma GroupOrders()
    ensures TotalPreorder(PointerLeq) && TotalPreorder(KeyLeq)
  {
    StringOrder();
    forall a, b
      ensures (PointerLeq(a, b) || PointerLeq(b, a)) && (KeyLeq(a, b) || KeyLeq(b, a))
    {
      assert StringLeq(a.pointer, b.pointer) || StringLeq(b.pointer, a.pointer);
      assert StringLeq(a.key, b.key) || StringLeq(b.key, a.key);
    }
  }

  function PointersOf(s: seq<Group>): seq<string> {
    seq(|s|, i requires 0 <= i < |s| => s[i].pointer)
  }

  lemma SortedByPointer(s: seq<Group>, gs: set<Group>)
    requires Distinct(s) && Elements(s) == gs && Sorted(s, PointerLeq) && DistinctPointers(gs)
    ensures PointersOf(s) == SortedPointers(gs)
  {
    var ps := PointersOf(s);
    StringOrder();
    forall i, j | 0 <= i < j < |ps|
      ensures ps[i] != ps[j] && StringLeq(ps[i], ps[j])
    {
      assert s[i] in Elements(s) && s[j] in Elements(s);
      assert PointerLeq(s[i], s[j]);
    }
    forall p
      ensures p in Elements(ps) <==> p in Pointers(gs)
    {
      if p in Elements(ps) {
        var i :| 0 <= i < |ps| && ps[i] == p;
        assert s[i] in Elements(s);
      }
      if p in Pointers(gs) {
        var g :| g in gs && g.pointer == p;
        assert g in Elements(s);
        var i :| 0 <= i < |s| && s[i] == g;
        assert ps[i] == p;
      }
    }
    SortedSetUnique(ps, SortedPointers(gs), StringLeq);
  }

  method MergeSiblings(siblings: seq<Group>, h: Hashes) returns (out: Group)
    requires siblings != [] && Distinct(siblings) && DistinctPointers(Elements(siblings))
    ensures Elements(siblings) != {}
    ensures out == MergedOf(Elements(siblings), h)
  {
    ghost var gs := Elements(siblings);
    assert siblings[0] in gs;
    DistinctMultiset(siblings);
    FirstPointer(gs);
    GroupOrders();
    if |siblings| == 1 {
      OnlyElement(gs, siblings[0], At(gs, SortedPointers(gs)[0]));
      return siblings[0];
    }
    var sorted := Sort(siblings, PointerLeq);
    DistinctFromMultiset(sorted, gs);
    SortedByPointer(sorted, gs);
    MultisetMembers(sorted, siblings);
    var members, structure := MergeLoop(sorted, gs);
    assert At(gs, PointersOf(sorted)[0]) == sorted[0] by {
      assert sorted[0] in Elements(sorted);
    }
    out := sorted[0].(members := members, fingerprint := h.digest(structure));
  }

  method MergeLoop(sorted: seq<Group>, ghost gs: set<Group>) returns (members: seq<Member>, structure: string)
    requires Elements(sorted) == gs && DistinctPointers(gs)
    ensures members == SortedMembers(UnionMembers(gs))
    ensures forall p :: p in PointersOf(sorted) ==> p in Pointers(gs)
    ensures structure == StructureText(gs, PointersOf(sorted))
  {
    structure, members := "", [];
    var seen: set<Member> := {};
    for i := 0 to |sorted|
      invariant forall p :: p in PointersOf(sorted)[..i] ==> p in Pointers(gs)
      invariant structure == StructureText(gs, PointersOf(sorted)[..i])
      invariant Distinct(members) && Elements(members) == seen == UnionMembers(Elements(sorted[..i]))
    {
      assert sorted[i] in Elements(sorted);
      assert PointersOf(sorted)[i] in Pointers(gs);
      assert At(gs, PointersOf(sorted)[i]) == sorted[i];
      assert PointersOf(sorted)[..i + 1][..i] == PointersOf(sorted)[..i];
      UnionGrows(sorted, i);
      structure := structure + Line(sorted[i]);
      members, seen := AddMembers(members, seen, sorted[i].members);
    }
    assert sorted[..|sorted|] == sorted && PointersOf(sorted)[..|sorted|] == PointersOf(sorted);
    members := SortMembers(members);
  }

  lemma OnlyElement<T>(u: set<T>, a: T, b: T)
    requires |u| == 1 && a in u && b in u
    ensures a == b
  {
    assert u == {a} + (u - {a});
    assert u - {a} == {};
  }

  lemma UnionGrows(s: seq<Group>, i: nat)
    requires i < |s|
    ensures UnionMembers(Elements(s[..i + 1])) == UnionMembers(Elements(s[..i])) + Elements(s[i].members)
  {
    assert s[..i + 1] == s[..i] + [s[i]];
    assert Elements(s[..i + 1]) == Elements(s[..i]) + {s[i]};
  }

  /** Groups as stage 1 leaves them: keyed by resource and pointer, one group per key. */
  ghost predicate OnePerKey(gs: set<Group>) {
    && (forall g :: g in gs ==> g.key == g.resource + "#" + g.pointer)
    && (forall a, b :: a in gs && b in gs && a.key == b.key ==> a == b)
  }

  lemma SiblingsHaveDistinctPointers(gs: set<Group>, id: Id)
    requires OnePerKey(gs)
    ensures DistinctPointers(Siblings(gs, id))
  {
    forall a, b | a in Siblings(gs, id) && b in Siblings(gs, id) && a.pointer == b.pointer
      ensures a == b
    {
      assert a.key == b.key;
    }
  }

  ghost predicate Partitioned(byId: map<Id, seq<Group>>, gs: set<Group>) {
    && byId.Keys == Ids(gs)
    && forall id :: id in byId ==> byId[id] != [] && Distinct(byId[id]) && Elements(byId[id]) == Siblings(gs, id)
  }

  lemma PartitionGrows(byId: map<Id, seq<Group>>, gs: set<Group>, g: Group)
    requires Partitioned(byId, gs) && g !in gs
    ensures Partitioned(byId[IdOf(g) := (if IdOf(g) in byId then byId[IdOf(g)] else []) + [g]], gs + {g})
  {
    var id := IdOf(g);
    var before := if id in byId then byId[id] else [];
    var after := byId[id := before + [g]];
    assert Ids(gs + {g}) == Ids(gs) + {id} by {
      assert g in gs + {g};
      forall x | x in gs ensures x in gs + {g} {}
    }
    forall k | k in after
      ensures after[k] != [] && Distinct(after[k]) && Elements(after[k]) == Siblings(gs + {g}, k)
    {
      if k == id {
        assert Elements(before) == Siblings(gs, id) by {
          if id !in byId {
            assert forall x :: x in gs ==> IdOf(x) in Ids(gs);
          }
        }
        assert g !in Elements(before);
        assert Elements(before + [g]) == Elements(before) + {g};
        assert Siblings(gs + {g}, id) == Siblings(gs, id) + {g};
      } else {
        assert Siblings(gs + {g}, k) == Siblings(gs, k);
      }
    }
  }

  method PartitionById(groups: seq<Group>) returns (byId: map<Id, seq<Group>>)
    requires Distinct(groups)
    ensures Partitioned(byId, Elements(groups))
  {
    byId := map[];
    for i := 0 to |groups|
      invariant Partitioned(byId, Elements(groups[..i]))
    {
      var g := groups[i];
      assert g !in Elements(groups[..i]);
      assert groups[..i + 1] == groups[..i] + [g];
      assert Elements(groups[..i + 1]) == Elements(groups[..i]) + {g};
      PartitionGrows(byId, Elements(groups[..i]), g);
      byId := byId[IdOf(g) := (if IdOf(g) in byId then byId[IdOf(g)] else []) + [g]];
    }
    assert groups[..|groups|] == groups;
  }

  ghost function MergedAt(gs: set<Group>, id: Id, h: Hashes): Group
    requires id in Ids(gs)
  {
    var g :| g in gs && IdOf(g) == id;
    assert g in Siblings(gs, id);
    MergedOf(Siblings(gs, id), h)
  }

  ghost function MergedOver(gs: set<Group>, ids: set<Id>, h: Hashes): set<Group>
    requires ids <= Ids(gs)
  {
    set id | id in ids :: MergedAt(gs, id, h)
  }

  ghost function MergedSet(gs: set<Group>, h: Hashes): set<Group> {
    MergedOver(gs, Ids(gs), h)
  }

  /** The final list: the merged groups, each once, ordered by key. */
  ghost predicate IsFinal(out: seq<Group>, gs: set<Group>, h: Hashes) {
    Distinct(out) && Elements(out) == MergedSet(gs, h) && Sorted(out, KeyLeq)
  }

  /** A merged group keeps the identity and the key of one of its siblings. */
  lemma MergedIdentity(gs: set<Group>, id: Id, h: Hashes)
    requires id in Ids(gs)
    ensures IdOf(MergedAt(gs, id, h)) == id
    ensures exists g :: g in Siblings(gs, id) && g.key == MergedAt(gs, id, h).key
  {
    var sib := Siblings(gs, id);
    var any :| any in gs && IdOf(any) == id;
    assert any in sib;
    FirstPointer(sib);
    var first := At(sib, SortedPointers(sib)[0]);
    assert first in sib && first.key == MergedAt(gs, id, h).key;
  }

  lemma MergedOverGrows(gs: set<Group>, ids: set<Id>, id: Id, h: Hashes)
    requires ids <= Ids(gs) && id in Ids(gs) && id !in ids
    ensures MergedAt(gs, id, h) !in MergedOver(gs, ids, h)
    ensures MergedOver(gs, ids + {id}, h) == MergedOver(gs, ids, h) + {MergedAt(gs, id, h)}
  {
    MergedIdentity(gs, id, h);
    forall other | other in ids
      ensures MergedAt(gs, other, h) != MergedAt(gs, id, h)
    {
      MergedIdentity(gs, other, h);
    }
  }

  method MergeOf(siblings: seq<Group>, ghost gs: set<Group>, ghost id: Id, h: Hashes) returns (g: Group)
    requires OnePerKey(gs) && id in Ids(gs)
    requires siblings != [] && Distinct(siblings) && Elements(siblings) == Siblings(gs, id)
    ensures g == MergedAt(gs, id, h)
  {
    SiblingsHaveDistinctPointers(gs, id);
    g := MergeSiblings(siblings, h);
  }

  method MergeEach(byId: map<Id, seq<Group>>, ghost gs: set<Group>, h: Hashes) returns (merged: seq<Group>)
    requires Partitioned(byId, gs) && OnePerKey(gs)
    ensures Distinct(merged) && Elements(merged) == MergedSet(gs, h)
  {
    var left := byId.Keys;
    merged := [];
    ghost var done: set<Id> := {};
    while left != {}
      invariant left <= byId.Keys && done == byId.Keys - left
      invariant Distinct(merged) && Elements(merged) == MergedOver(gs, done, h)
      decreases left
    {
      var id :| id in left;
      var g := MergeOf(byId[id], gs, id, h);
      MergedOverGrows(gs, done, id, h);
      AppendDistinct(merged, g);
      left := left - {id};
      done := done + {id};
      merged := merged + [g];
    }
    assert done == Ids(gs);
  }

  /** `mergeGroups`, for any iteration order of its map. */
  method MergeGroups(groups: seq<Group>, h: Hashes) returns (out: seq<Group>)
    requires Distinct(groups) && OnePerKey(Elements(groups))
    ensures IsFinal(out, Elements(groups), h)
  {
    var byId := PartitionById(groups);
    var merged := MergeEach(byId, Elements(groups), h);
    GroupOrders();
    out := Sort(merged, KeyLeq);
    DistinctMultiset(merged);
    DistinctFromMultiset(out, Elements(merged));
  }

  /** Merged groups still have one group per key. */
  lemma FinalKeysDistinct(gs: set<Group>, h: Hashes, a: Group, b: Group)
    requires OnePerKey(gs) && a in MergedSet(gs, h) && b in MergedSet(gs, h) && a.key == b.key
    ensures a == b
  {
    var i :| i in Ids(gs) && a == MergedAt(gs, i, h);
    var j :| j in Ids(gs) && b == MergedAt(gs, j, h);
    MergedIdentity(gs, i, h);
    MergedIdentity(gs, j, h);
    var x :| x in Siblings(gs, i) && x.key == a.key;
    var y :| y in Siblings(gs, j) && y.key == b.key;
    assert x == y;
  }

  lemma FinalUnique(gs: set<Group>, h: Hashes, a: seq<Group>, b: seq<Group>)
    requires OnePerKey(gs) && IsFinal(a, gs, h) && IsFinal(b, gs, h)
    ensures a == b
  {
    forall x, y | x in a && y in a && KeyLeq(x, y) && KeyLeq(y, x)
      ensures x == y
    {
      assert x in Elements(a) && y in Elements(a);
      LeqAntisymmetric(x.key, y.key);
      FinalKeysDistinct(gs, h, x, y);
    }
    SortedSetUnique(a, b, KeyLeq);
  }

  lemma FinishedOnePerKey(fs: set<Fold>, h: Hashes)
    requires Hashable(fs, h)
    ensures OnePerKey(FinishedGroups(fs, h))
  {
    forall g | g in FinishedGroups(fs, h)
      ensures g.key == g.resource + "#" + g.pointer && g.key in KeysOf(fs) && g == Finished(fs, g.key, h)
    {
      var key :| key in KeysOf(fs) && g == Finished(fs, key, h);
    }
  }

  // ---- The whole fold ----

  /** Folding every gap of a run, finishing and merging. */
  method FoldAll(folds: seq<Fold>, h: Hashes) returns (r: Result<seq<Group>>)
    requires Coherent(FoldSet(folds))
    ensures r.Ok? <==> Hashable(FoldSet(folds), h)
    ensures r.Ok? ==> IsFinal(r.value, FinishedGroups(FoldSet(folds), h), h)
  {
    var table := new GroupTable();
    for i := 0 to |folds|
      invariant table.Valid()
      invariant table.folded == FoldSet(folds[..i])
      invariant fresh(table)
    {
      assert folds[..i + 1] == folds[..i] + [folds[i]];
      assert FoldSet(folds[..i + 1]) == if folds[i].gap.members ==
               [] then FoldSet(folds[..i]) else FoldSet(folds[..i]) + {folds[i]};
      table.AddGroup(folds[i]);
    }
    assert folds[..|folds|] == folds;
    var finished := FinishAll(table.builds, table.folded, h);
    if finished.Err? {
      return Err(finished.error);
    }
    FinishedOnePerKey(FoldSet(folds), h);
    var out := MergeGroups(finished.value, h);
    return Ok(out);
  }

  /** The result depends on nothing but the set of folded gaps. */
  lemma FoldOrderIrrelevant(folds: seq<Fold>, folds': seq<Fold>, h: Hashes, a: seq<Group>, b: seq<Group>)
    requires FoldSet(folds) == FoldSet(folds') && Hashable(FoldSet(folds), h)
    requires IsFinal(a, FinishedGroups(FoldSet(folds), h), h) && IsFinal(b, FinishedGroups(FoldSet(folds'), h), h)
    ensures a == b
  {
    FinishedOnePerKey(FoldSet(folds), h);
    FinalUnique(FinishedGroups(FoldSet(folds), h), h, a, b);
  }

  // ---- Conservation ----

  ghost function FoldedMembers(fs: set<Fold>, id: Id): set<Member> {
    set f, m | f in fs && Id(f.resource, f.gap.name, f.gap.query) == id && m in f.gap.members :: m
  }

  lemma SortedMembersHold(u: set<Member>, m: Member)
    ensures m in SortedMembers(u) <==> m in u
  {
    assert Elements(SortedMembers(u)) == u;
    assert m in SortedMembers(u) <==> m in Elements(SortedMembers(u));
  }

  lemma MergedMembers(gs: set<Group>, id: Id, h: Hashes, m: Member)
    requires id in Ids(gs)
    ensures m in MergedAt(gs, id, h).members <==> exists g :: g in gs && IdOf(g) == id && m in g.members
  {
    var sib := Siblings(gs, id);
    var any :| any in gs && IdOf(any) == id;
    assert any in sib;
    FirstPointer(sib);
    var first := At(sib, SortedPointers(sib)[0]);
    if |sib| == 1 {
      forall g | g in gs && IdOf(g) == id
        ensures g == first
      {
        OnlyElement(sib, g, first);
      }
      assert first in gs;
    } else {
      SortedMembersHold(UnionMembers(sib), m);
      assert (exists g :: g in gs && IdOf(g) == id && m in g.members) <==> m in UnionMembers(sib) by {
        if g :| g in gs && IdOf(g) == id && m in g.members {
          assert g in sib;
        }
        if m in UnionMembers(sib) {
          var g :| g in sib && m in g.members;
          assert g in gs && IdOf(g) == id;
        }
      }
    }
  }

  lemma FoldedIsFinished(fs: set<Fold>, h: Hashes, id: Id, m: Member)
    requires Hashable(fs, h) && Coherent(fs) && m in FoldedMembers(fs, id)
    ensures exists g :: g in FinishedGroups(fs, h) && IdOf(g) == id && m in g.members
  {
    var f :| f in fs && Id(f.resource, f.gap.name, f.gap.query) == id && m in f.gap.members;
    var key := KeyOf(f);
    assert key in KeysOf(fs);
    var g := Finished(fs, key, h);
    assert KeyOf(Representative(fs, key)) == KeyOf(f);
    assert m in MembersAt(fs, key);
    SortedMembersHold(MembersAt(fs, key), m);
    assert g in FinishedGroups(fs, h) && IdOf(g) == id && m in g.members;
  }

  lemma FinishedMembers(fs: set<Fold>, h: Hashes, id: Id, m: Member)
    requires Hashable(fs, h) && Coherent(fs)
    ensures m in FoldedMembers(fs, id) <==> exists g :: g in FinishedGroups(fs, h) && IdOf(g) == id && m in g.members
  {
    if m in FoldedMembers(fs, id) {
      FoldedIsFinished(fs, h, id, m);
    }
    if g :| g in FinishedGroups(fs, h) && IdOf(g) == id && m in g.members {
      var key :| key in KeysOf(fs) && g == Finished(fs, key, h);
      SortedMembersHold(MembersAt(fs, key), m);
      var f :| f in fs && KeyOf(f) == key && m in f.gap.members;
      assert KeyOf(Representative(fs, key)) == KeyOf(f);
      assert Id(f.resource, f.gap.name, f.gap.query) == id;
    }
  }

  /** Conservation: what the final groups hold per resource, field and kind is exactly what was
      folded in for it. */
  lemma MembersConserved(fs: set<Fold>, h: Hashes, out: seq<Group>, id: Id, m: Member)
    requires Hashable(fs, h) && Coherent(fs) && IsFinal(out, FinishedGroups(fs, h), h)
    ensures m in FoldedMembers(fs, id) <==> exists g :: g in out && IdOf(g) == id && m in g.members
  {
    var gs := FinishedGroups(fs, h);
    FinishedMembers(fs, h, id, m);
    if m in FoldedMembers(fs, id) {
      var g :| g in gs && IdOf(g) == id && m in g.members;
      assert id in Ids(gs);
      MergedMembers(gs, id, h, m);
      MergedIdentity(gs, id, h);
      var merged := MergedAt(gs, id, h);
      assert merged in MergedSet(gs, h);
      assert merged in Elements(out);
      assert merged in out && IdOf(merged) == id && m in merged.members;
    }
    if g :| g in out && IdOf(g) == id && m in g.members {
      assert g in Elements(out);
      var id' :| id' in Ids(gs) && g == MergedAt(gs, id', h);
      MergedIdentity(gs, id', h);
      MergedMembers(gs, id', h, m);
    }
  }
}

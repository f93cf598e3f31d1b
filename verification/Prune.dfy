/** Removing unused components: the loop ends, and what it keeps is the largest set of schemas and
    parameters that support each other from the endpoints and the other component sections. */
module Prune {
  import opened Text
  import opened Document
  import opened Iteration
  import opened References

  // ---- Reference names ----

  /** What follows the last slash. */
  function LastSegment(ref: string): string {
    if ref == [] then []
    else if '/' in ref[1..] then LastSegment(ref[1..])
    else if ref[0] == '/' then ref[1..]
    else ref
  }

  ghost function RefNames(refs: set<string>): set<string> {
    set r | r in refs :: LastSegment(r)
  }

  /** The names that keep a component alive. */
  ghost function Alive(doc: Doc): set<string> {
    RefNames(ScannedRefs(doc))
  }

  // ---- What Iterate collects ----

  ghost predicate SeenIn(log: seq<Visit>, r: string) {
    exists v :: v in log && v.node.Object? && OwnRef(v.node.fields) == Some(r)
  }

  lemma SeenConcat(a: seq<Visit>, b: seq<Visit>, r: string)
    ensures SeenIn(a + b, r) <==> SeenIn(a, r) || SeenIn(b, r)
  {
    if SeenIn(a, r) {
      var v :| v in a && v.node.Object? && OwnRef(v.node.fields) == Some(r);
      assert v in a + b;
    }
    if SeenIn(b, r) {
      var v :| v in b && v.node.Object? && OwnRef(v.node.fields) == Some(r);
      assert v in a + b;
    }
  }

  /** Visiting every map meets exactly the references of the tree. */
  lemma {:induction false} VisitsMeetRefs(key: string, j: Json, r: string)
    ensures SeenIn(Visits(key, j), r) <==> r in RefsIn(j)
    decreases j, 1
  {
    ChildVisitsMeetRefs(key, j, ChildSegs(j), r);
    ChildRefs(j, r);
    if j.Object? {
      SeenConcat(VisitChildren(key, j, ChildSegs(j)), [Visit(key, j)], r);
      assert SeenIn([Visit(key, j)], r) <==> OwnRef(j.fields) == Some(r) by {
        if OwnRef(j.fields) == Some(r) {
          assert Visit(key, j) in [Visit(key, j)];
        }
      }
    }
  }

  ghost predicate ChildHasRef(j: Json, segs: seq<string>, r: string) {
    exists seg :: seg in segs && Child(j, seg).Some? && r in RefsIn(Child(j, seg).value)
  }

  lemma {:induction false} ChildVisitsMeetRefs(key: string, j: Json, segs: seq<string>, r: string)
    ensures SeenIn(VisitChildren(key, j, segs), r) <==> ChildHasRef(j, segs, r)
    decreases j, 0, |segs|
  {
    if segs != [] {
      ChildVisitsMeetRefs(key, j, segs[1..], r);
      assert segs == [segs[0]] + segs[1..];
      var child := Child(j, segs[0]);
      if child.Some? {
        VisitsMeetRefs(JoinKey(key, segs[0]), child.value, r);
        SeenConcat(Visits(JoinKey(key, segs[0]), child.value), VisitChildren(key, j, segs[1..]), r);
      }
      ChildHasRefStep(j, segs, r);
    }
  }

  lemma ChildHasRefStep(j: Json, segs: seq<string>, r: string)
    requires segs != []
    ensures ChildHasRef(j, segs, r) <==>
            (Child(j, segs[0]).Some? && r in RefsIn(Child(j, segs[0]).value)) || ChildHasRef(j, segs[1..], r)
  {
    if ChildHasRef(j, segs[1..], r) {
      var seg :| seg in segs[1..] && Child(j, seg).Some? && r in RefsIn(Child(j, seg).value);
      assert seg in segs;
    }
    if ChildHasRef(j, segs, r) {
      var seg :| seg in segs && Child(j, seg).Some? && r in RefsIn(Child(j, seg).value);
      assert seg == segs[0] || seg in segs[1..];
    }
  }

  lemma ChildRefs(j: Json, r: string)
    ensures r in RefsIn(j) <==> (j.Object? && OwnRef(j.fields) == Some(r)) || ChildHasRef(j, ChildSegs(j), r)
  {
    if ChildHasRef(j, ChildSegs(j), r) {
      var seg :| seg in ChildSegs(j) && Child(j, seg).Some? && r in RefsIn(Child(j, seg).value);
    }
    match j
    case Object(fields) =>
      if k :| k in fields && r in RefsIn(fields[k]) {
        ChildSegsExact(j, k);
        assert Child(j, k) == Some(fields[k]);
      }
    case Array(items) =>
      if i :| 0 <= i < |items| && r in RefsIn(items[i]) {
        CanonDecimal(i, |items|);
        ChildSegsExact(j, Decimal(i));
        assert Child(j, Decimal(i)) == Some(items[i]);
      }
    case _ =>
  }

  ghost function LogRefs(log: seq<Visit>): set<string> {
    set v | v in log && v.node.Object? && OwnRef(v.node.fields).Some? :: OwnRef(v.node.fields).value
  }

  function VisitRefs(v: Visit): set<string> {
    if v.node.Object? && OwnRef(v.node.fields).Some? then {OwnRef(v.node.fields).value} else {}
  }

  lemma LogRefsStep(log: seq<Visit>, i: nat)
    requires i < |log|
    ensures LogRefs(log[..i + 1]) == LogRefs(log[..i]) + VisitRefs(log[i])
  {
    assert log[..i + 1] == log[..i] + [log[i]];
    assert forall v :: v in log[..i + 1] <==> v in log[..i] || v == log[i];
  }

  lemma LogMeetsRefs(key: string, j: Json)
    ensures LogRefs(Visits(key, j)) == RefsIn(j)
  {
    forall r
      ensures r in LogRefs(Visits(key, j)) <==> r in RefsIn(j)
    {
      VisitsMeetRefs(key, j, r);
      assert SeenIn(Visits(key, j), r) <==> r in LogRefs(Visits(key, j));
    }
  }

  lemma NamesConcat(a: set<string>, b: set<string>)
    ensures RefNames(a + b) == RefNames(a) + RefNames(b)
  {
  }

  /** `collectRefsFn`: what the callback notes for one map. */
  function NoteVisit(v: Visit): set<string> {
    if v.node.Object? && OwnRef(v.node.fields).Some? then {LastSegment(OwnRef(v.node.fields).value)} else {}
  }

  lemma CollectStep(log: seq<Visit>, i: nat)
    requires i < |log|
    ensures RefNames(LogRefs(log[..i + 1])) == RefNames(LogRefs(log[..i])) + NoteVisit(log[i])
  {
    LogRefsStep(log, i);
    NamesConcat(LogRefs(log[..i]), VisitRefs(log[i]));
    assert RefNames(VisitRefs(log[i])) == NoteVisit(log[i]);
  }

  /** `Iterate(collectRefsFn)`: the names of the references of one tree, added to `refs`. */
  method CollectRefs(j: Json, refs: set<string>) returns (out: set<string>)
    ensures out == refs + RefNames(RefsIn(j))
  {
    var log := Iterate("", j);
    out := refs;
    for i := 0 to |log|
      invariant out == refs + RefNames(LogRefs(log[..i]))
    {
      CollectStep(log, i);
      out := out + NoteVisit(log[i]);
    }
    assert log[..|log|] == log;
    LogMeetsRefs("", j);
  }

  // ---- Restricting a document to some schemas and parameters ----

  function Keep(m: map<string, Json>, names: set<string>): map<string, Json> {
    map k | k in m && k in names :: m[k]
  }

  /** `schemas` and `parameters` are there and are maps: `MustGetMap` panics otherwise. */
  predicate HasSections(doc: Doc) {
    && "schemas" in doc.components && doc.components["schemas"].Object?
    && "parameters" in doc.components && doc.components["parameters"].Object?
  }

  function Schemas(doc: Doc): map<string, Json>
    requires HasSections(doc)
  {
    doc.components["schemas"].fields
  }

  function Parameters(doc: Doc): map<string, Json>
    requires HasSections(doc)
  {
    doc.components["parameters"].fields
  }

  function WithSections(doc: Doc, schemas: map<string, Json>, parameters: map<string, Json>): Doc {
    doc.(components := doc.components["schemas" := Object(schemas)]["parameters" := Object(parameters)])
  }

  function Restrict(doc: Doc, s: set<string>, p: set<string>): Doc
    requires HasSections(doc)
  {
    WithSections(doc, Keep(Schemas(doc), s), Keep(Parameters(doc), p))
  }

  /** Every kept entry is named by a reference of the document restricted to the kept entries. */
  ghost predicate Supported(doc: Doc, s: set<string>, p: set<string>)
    requires HasSections(doc)
  {
    && s <= Schemas(doc).Keys && p <= Parameters(doc).Keys
    && s <= Alive(Restrict(doc, s, p)) && p <= Alive(Restrict(doc, s, p))
  }

  ghost predicate LargestSupported(doc: Doc, s: set<string>, p: set<string>)
    requires HasSections(doc)
  {
    && Supported(doc, s, p)
    && forall s', p' :: Supported(doc, s', p') ==> s' <= s && p' <= p
  }

  lemma SubmapRefs(a: map<string, Json>, b: map<string, Json>)
    requires forall k :: k in a ==> k in b && RefsIn(a[k]) <= RefsIn(b[k])
    requires OwnRef(a).Some? ==> OwnRef(a) == OwnRef(b)
    ensures RefsIn(Object(a)) <= RefsIn(Object(b))
  {
  }

  lemma KeepRefs(m: map<string, Json>, small: set<string>, big: set<string>)
    requires small <= big
    ensures RefsIn(Object(Keep(m, small))) <= RefsIn(Object(Keep(m, big)))
  {
    SubmapRefs(Keep(m, small), Keep(m, big));
  }

  /** Keeping more keeps more references. */
  lemma AliveMonotone(doc: Doc, s: set<string>, p: set<string>, s': set<string>, p': set<string>)
    requires HasSections(doc) && s <= s' && p <= p'
    ensures Alive(Restrict(doc, s, p)) <= Alive(Restrict(doc, s', p'))
  {
    KeepRefs(Schemas(doc), s, s');
    KeepRefs(Parameters(doc), p, p');
    SubmapRefs(Restrict(doc, s, p).components, Restrict(doc, s', p').components);
    assert ScannedRefs(Restrict(doc, s, p)) <= ScannedRefs(Restrict(doc, s', p'));
  }

  lemma RestrictAll(doc: Doc)
    requires HasSections(doc)
    ensures Restrict(doc, Schemas(doc).Keys, Parameters(doc).Keys) == doc
  {
    assert Keep(Schemas(doc), Schemas(doc).Keys) == Schemas(doc);
    assert Keep(Parameters(doc), Parameters(doc).Keys) == Parameters(doc);
    assert doc.components["schemas"] == Object(Schemas(doc)) && doc.components["parameters"] == Object(Parameters(doc));
    assert doc.components["schemas" := Object(Schemas(doc))]["parameters" := Object(Parameters(doc))] == doc.components;
  }

  // ---- The loop ----

  ghost function RefsOutside(paths: map<string, map<string, Json>>, left: set<string>): set<string> {
    set p, m, r | p in paths && p !in left && m in paths[p] && m in METHODS && r in RefsIn(paths[p][m]) :: r
  }

  ghost function ItemRefs(item: map<string, Json>): set<string> {
    set m, r | m in item && m in METHODS && r in RefsIn(item[m]) :: r
  }

  lemma RefsOutsideStep(paths: map<string, map<string, Json>>, left: set<string>, p: string)
    requires p in paths && p in left
    ensures RefsOutside(paths, left - {p}) == RefsOutside(paths, left) + ItemRefs(paths[p])
  {
  }

  lemma RefsOutsideNone(paths: map<string, map<string, Json>>)
    ensures RefsOutside(paths, {}) == EndpointRefs(paths)
    ensures RefsOutside(paths, paths.Keys) == {}
  {
  }

  method CollectEndpoints(paths: map<string, map<string, Json>>) returns (refs: set<string>)
    ensures refs == RefNames(EndpointRefs(paths))
  {
    refs := {};
    var left := paths.Keys;
    RefsOutsideNone(paths);
    while left != {}
      invariant left <= paths.Keys
      invariant refs == RefNames(RefsOutside(paths, left))
      decreases left
    {
      var p :| p in left;
      refs := CollectItem(paths[p], refs);
      RefsOutsideStep(paths, left, p);
      NamesConcat(RefsOutside(paths, left), ItemRefs(paths[p]));
      left := left - {p};
    }
  }

  ghost function MethodRefs(item: map<string, Json>, left: set<string>): set<string> {
    set m, r | m in item && m in METHODS && m !in left && r in RefsIn(item[m]) :: r
  }

  method CollectItem(item: map<string, Json>, refs: set<string>) returns (out: set<string>)
    ensures out == refs + RefNames(ItemRefs(item))
  {
    out := refs;
    var left := METHODS;
    assert MethodRefs(item, METHODS) == {};
    while left != {}
      invariant left <= METHODS
      invariant out == refs + RefNames(MethodRefs(item, left))
      decreases left
    {
      var m :| m in left;
      if m in item {
        out := CollectRefs(item[m], out);
        NamesConcat(MethodRefs(item, left), RefsIn(item[m]));
        assert MethodRefs(item, left - {m}) == MethodRefs(item, left) + RefsIn(item[m]);
      } else {
        assert MethodRefs(item, left - {m}) == MethodRefs(item, left);
      }
      left := left - {m};
    }
    assert MethodRefs(item, {}) == ItemRefs(item);
  }

  method CollectAlive(doc: Doc) returns (refs: set<string>)
    ensures refs == Alive(doc)
  {
    refs := CollectEndpoints(doc.paths);
    refs := CollectRefs(Object(doc.components), refs);
    assert RefNames(RefsIn(Object(doc.components)) + EndpointRefs(doc.paths)) ==
           RefNames(RefsIn(Object(doc.components))) + RefNames(EndpointRefs(doc.paths));
  }

  /** Deleting from a map while ranging over it, in any order. */
  method DeleteUnnamed(m: map<string, Json>, refs: set<string>) returns (out: map<string, Json>, deleted: bool)
    ensures out == Keep(m, refs)
    ensures deleted <==> exists k :: k in m && k !in refs
  {
    out, deleted := m, false;
    var left := m.Keys;
    while left != {}
      invariant left <= m.Keys
      invariant out == map k | k in m && (k in left || k in refs) :: m[k]
      invariant deleted <==> exists k :: k in m && k !in left && k !in refs
      decreases left
    {
      var k :| k in left;
      if k !in refs {
        out := out - {k};
        deleted := true;
      }
      left := left - {k};
    }
  }

  lemma KeepTwice(m: map<string, Json>, s: set<string>, refs: set<string>)
    ensures Keep(Keep(m, s), refs) == Keep(m, s * refs)
  {
  }

  /** One pass over a restricted document restricts it further. */
  lemma PassRestricts(doc: Doc, s: set<string>, p: set<string>, refs: set<string>)
    requires HasSections(doc)
    ensures var now := Restrict(doc, s, p);
            && HasSections(now)
            && WithSections(now, Keep(Schemas(now), refs), Keep(Parameters(now), refs)) ==
                Restrict(doc, s * refs, p * refs)
  {
    var now := Restrict(doc, s, p);
    assert Schemas(now) == Keep(Schemas(doc), s) && Parameters(now) == Keep(Parameters(doc), p);
    KeepTwice(Schemas(doc), s, refs);
    KeepTwice(Parameters(doc), p, refs);
    var next := WithSections(now, Keep(Schemas(now), refs), Keep(Parameters(now), refs));
    assert next.components == Restrict(doc, s * refs, p * refs).components;
  }

  /** What is supported survives a pass over anything that contains it. */
  lemma SupportedSurvives(doc: Doc, s: set<string>, p: set<string>, s': set<string>, p': set<string>)
    requires HasSections(doc) && Supported(doc, s', p') && s' <= s && p' <= p
    ensures s' <= s * Alive(Restrict(doc, s, p)) && p' <= p * Alive(Restrict(doc, s, p))
  {
    AliveMonotone(doc, s', p', s, p);
  }

  ghost predicate HoldsSupported(doc: Doc, s: set<string>, p: set<string>)
    requires HasSections(doc)
  {
    forall s', p' :: Supported(doc, s', p') ==> s' <= s && p' <= p
  }

  /** No reference names an entry that is gone. */
  ghost predicate PrunedUnnamed(doc: Doc, s: set<string>, p: set<string>)
    requires HasSections(doc)
  {
    && (Schemas(doc).Keys - s) * Alive(Restrict(doc, s, p)) == {}
    && (Parameters(doc).Keys - p) * Alive(Restrict(doc, s, p)) == {}
  }

  lemma PassKeepsInvariants(doc: Doc, s: set<string>, p: set<string>, refs: set<string>)
    requires HasSections(doc) && refs == Alive(Restrict(doc, s, p))
    requires HoldsSupported(doc, s, p) && PrunedUnnamed(doc, s, p)
    ensures HoldsSupported(doc, s * refs, p * refs) && PrunedUnnamed(doc, s * refs, p * refs)
  {
    forall s', p' | Supported(doc, s', p')
      ensures s' <= s * refs && p' <= p * refs
    {
      SupportedSurvives(doc, s, p, s', p');
    }
    AliveMonotone(doc, s * refs, p * refs, s, p);
  }

  /** The loop of `transformRemoveUnusedComponents`; the ghosts name what is kept. */
  method PruneLoop(schema: SchemaFile) returns (ghost s: set<string>, ghost p: set<string>)
    requires HasSections(schema.doc)
    modifies schema
    ensures schema.doc == Restrict(old(schema.doc), s, p)
    ensures LargestSupported(old(schema.doc), s, p) && PrunedUnnamed(old(schema.doc), s, p)
  {
    ghost var start := schema.doc;
    s, p := Schemas(start).Keys, Parameters(start).Keys;
    RestrictAll(start);
    var loop := true;
    while loop
      invariant s <= Schemas(start).Keys && p <= Parameters(start).Keys
      invariant schema.doc == Restrict(start, s, p) && HasSections(schema.doc)
      invariant HoldsSupported(start, s, p) && PrunedUnnamed(start, s, p)
      invariant !loop ==> Supported(start, s, p)
      decreases |s| + |p| + if loop then 1 else 0
    {
      var refs := CollectAlive(schema.doc);
      PassRestricts(start, s, p, refs);
      PassKeepsInvariants(start, s, p, refs);
      var schemas, droppedS := DeleteUnnamed(Schemas(schema.doc), refs);
      var parameters, droppedP := DeleteUnnamed(Parameters(schema.doc), refs);
      schema.doc := WithSections(schema.doc, schemas, parameters);
      loop := droppedS || droppedP;
      PassShrinks(start, s, p, refs);
      s, p := s * refs, p * refs;
    }
  }

  /** `transformRemoveUnusedComponents`: what is left is the largest supported part of the document,
      and no reference left names an entry that went; `false` is a panic. */
  method RemoveUnusedComponents(schema: SchemaFile) returns (ok: bool)
    modifies schema
    ensures ok <==> HasSections(old(schema.doc))
    ensures !ok ==> schema.doc == old(schema.doc)
    ensures ok ==> HasSections(schema.doc)
    ensures ok ==> schema.doc == Restrict(old(schema.doc), Schemas(schema.doc).Keys, Parameters(schema.doc).Keys)
    ensures ok ==> LargestSupported(old(schema.doc), Schemas(schema.doc).Keys, Parameters(schema.doc).Keys)
    ensures ok ==> PrunedUnnamed(old(schema.doc), Schemas(schema.doc).Keys, Parameters(schema.doc).Keys)
  {
    if !HasSections(schema.doc) {
      return false;
    }
    ok := true;
    ghost var start := schema.doc;
    ghost var s, p := PruneLoop(schema);
    RestrictKeys(start, s, p);
  }

  lemma RestrictKeys(doc: Doc, s: set<string>, p: set<string>)
    requires HasSections(doc) && s <= Schemas(doc).Keys && p <= Parameters(doc).Keys
    ensures HasSections(Restrict(doc, s, p))
    ensures Schemas(Restrict(doc, s, p)).Keys == s && Parameters(Restrict(doc, s, p)).Keys == p
  {
  }

  /** A pass that deletes shrinks what is kept; a pass that does not found it supported. */
  lemma PassShrinks(doc: Doc, s: set<string>, p: set<string>, refs: set<string>)
    requires HasSections(doc) && s <= Schemas(doc).Keys && p <= Parameters(doc).Keys &&
               refs == Alive(Restrict(doc, s, p))
    ensures var now := Restrict(doc, s, p);
            var drops := (exists k :: k in Schemas(now) && k !in refs) ||
                (exists k :: k in Parameters(now) && k !in refs);
            && |s * refs| + |p * refs| <= |s| + |p|
            && (drops ==> |s * refs| + |p * refs| < |s| + |p|)
            && (!drops ==> s * refs == s && p * refs == p && Supported(doc, s, p))
  {
    var now := Restrict(doc, s, p);
    assert Schemas(now).Keys == s && Parameters(now).Keys == p;
    Meets(s, refs);
    Meets(p, refs);
  }

  lemma Meets(s: set<string>, refs: set<string>)
    ensures |s * refs| <= |s|
    ensures s * refs != s ==> |s * refs| < |s|
    ensures s * refs == s <==> forall k :: k in s ==> k in refs
  {
    assert s == (s * refs) + (s - refs);
    if s * refs != s {
      assert s - refs != {};
    }
  }

  /** The kept sets are determined: map iteration order does not matter. */
  lemma LargestUnique(doc: Doc, s: set<string>, p: set<string>, s': set<string>, p': set<string>)
    requires HasSections(doc) && LargestSupported(doc, s, p) && LargestSupported(doc, s', p')
    ensures s == s' && p == p'
  {
    assert s <= s' && s' <= s;
    assert p <= p' && p' <= p;
  }
}

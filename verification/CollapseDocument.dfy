/** The enum collapse over a whole document: a `$ref` means what it leads to, before and after. */
module CollapseDocument {
  import opened Text
  import opened Document
  import opened References
  import opened Passes
  import opened Collapse
  import opened CollapseMeaning

  // ---- Readings that agree on the references of a schema agree on the schema ----

  lemma {:induction false} SameReading(sem: Sem, sem': Sem, refs: set<string>, s: Json)
    requires AgreeOn(sem, sem', refs) && RefsIn(s) <= refs
    ensures SameMeaning(sem, sem', s, s)
    decreases s, 1
  {
    RefsBeneath(s);
    forall v
      ensures Accepts(sem, s, v) <==> Accepts(sem', s, v)
    {
      if s.Object? && OwnRef(s.fields).Some? {
        assert sem("$ref", s.fields["$ref"], v) <==> sem'("$ref", s.fields["$ref"], v);
      } else if s.Object? {
        forall k | k in s.fields
          ensures KeyAccepts(sem, s, k, v) <==> KeyAccepts(sem', s, k, v)
        {
          SameKeyReading(sem, sem', refs, s, k, v);
        }
      }
    }
  }

  lemma {:induction false} SameKeyReading(sem: Sem, sem': Sem, refs: set<string>, s: Json, k: string, v: Json)
    requires s.Object? && k in s.fields && (k == "$ref" ==> !s.fields[k].Str?)
    requires AgreeOn(sem, sem', refs) && RefsIn(s.fields[k]) <= refs
    ensures KeyAccepts(sem, s, k, v) <==> KeyAccepts(sem', s, k, v)
    decreases s, 0
  {
    var x := s.fields[k];
    RefsBeneath(x);
    assert sem(k, x, v) <==> sem'(k, x, v);
    match KeywordOf(k)
    case AnyOf => if x.Array? { SameListReading(sem, sem', refs, x, v); }
    case AllOf => if x.Array? { SameListReading(sem, sem', refs, x, v); }
    case OneOf => if x.Array? { SameListReading(sem, sem', refs, x, v); }
    case Not => SameReading(sem, sem', refs, x);
    case Items => SameReading(sem, sem', refs, x);
    case Additional => if x.Object? { SameReading(sem, sem', refs, x); }
    case Properties =>
      if x.Object? {
        forall p | p in x.fields
          ensures SameMeaning(sem, sem', x.fields[p], x.fields[p])
        {
          SameReading(sem, sem', refs, x.fields[p]);
        }
      }
    case _ =>
  }

  lemma {:induction false} SameListReading(sem: Sem, sem': Sem, refs: set<string>, x: Json, v: Json)
    requires x.Array? && AgreeOn(sem, sem', refs) && RefsIn(x) <= refs
    ensures Matching(sem, x, v) == Matching(sem', x, v)
    decreases x, 2
  {
    RefsBeneath(x);
    forall i | 0 <= i < |x.items|
      ensures Accepts(sem, x.items[i], v) <==> Accepts(sem', x.items[i], v)
    {
      SameReading(sem, sem', refs, x.items[i]);
    }
  }

  // ---- What a schema accepts in a document ----

  /** A `$ref` accepts what its target accepts, within `n` hops; `base` reads the other keywords. */
  ghost function InDocument(doc: Doc, base: Sem, n: nat): Sem
    decreases n, 1
  {
    (k: string, x: Json, v: Json) =>
      if k == "$ref" && x.Str? then RefAccepts(doc, base, n, x.text, v) else base(k, x, v)
  }

  ghost predicate RefAccepts(doc: Doc, base: Sem, n: nat, ref: string, v: Json)
    decreases n, 0
  {
    n > 0 && Resolve(doc, ref).Some? && Accepts(InDocument(doc, base, n - 1), Resolve(doc, ref).value, v)
  }

  ghost predicate AcceptsIn(doc: Doc, base: Sem, n: nat, s: Json, v: Json) {
    Accepts(InDocument(doc, base, n), s, v)
  }

  // ---- Where things are after the collapse ----

  /** The node is one that collapses. */
  predicate Collapses(j: Json) {
    && j.Object? && (forall k :: k in j.fields ==> Collapsed(j.fields[k]).Some?)
    && Collapsible(CollapsedFields(j))
  }

  /** The path leads into what a collapsing node loses or gets anew. */
  predicate Through(j: Json, path: seq<string>)
    decreases |path|
  {
    path != [] &&
    (|| (Collapses(j) && path[0] in {"anyOf", "type", "enum"})
     || (Child(j, path[0]).Some? && Through(Child(j, path[0]).value, path[1..])))
  }

  lemma CollapsedChild(j: Json, seg: string)
    requires Collapsed(j).Some? && Child(j, seg).Some?
    ensures Collapsed(Child(j, seg).value).Some?
    ensures !(Collapses(j) && seg in {"anyOf", "type", "enum"}) ==>
              Child(Collapsed(j).value, seg) == Collapsed(Child(j, seg).value)
    ensures Collapses(j) && seg == "anyOf" ==> Child(Collapsed(j).value, seg).None?
  {
    match j
    case Object(fields) =>
      var inner := CollapsedFields(j);
      assert inner[seg] == Collapsed(fields[seg]).value;
      if "anyOf" in inner {
        GatherExact(inner["anyOf"].items);
      }
    case Array(items) =>
      var i := CanonIndex(seg, |items|).value;
      assert CollapsedItems(j)[i] == Collapsed(items[i]).value;
    case _ =>
  }

  /** Elsewhere the collapsed node lies where the node lay. */
  lemma {:induction false} CollapsedAt(j: Json, path: seq<string>)
    requires Collapsed(j).Some? && AtPath(j, path).Some?
    ensures Collapsed(AtPath(j, path).value).Some?
    ensures !Through(j, path) ==> AtPath(Collapsed(j).value, path) == Collapsed(AtPath(j, path).value)
    decreases |path|
  {
    if path != [] {
      CollapsedChild(j, path[0]);
      CollapsedAt(Child(j, path[0]).value, path[1..]);
    }
  }

  /** Every node that collapses is clean. */
  ghost predicate CleanTree(j: Json)
    decreases j
  {
    match j
    case Object(fields) => CollapsesCleanly(j) && forall k :: k in fields ==> CleanTree(fields[k])
    case Array(items) => forall i :: 0 <= i < |items| ==> CleanTree(items[i])
    case _ => true
  }

  lemma {:induction false} ThroughDangles(j: Json, path: seq<string>)
    requires Collapsed(j).Some? && CleanTree(j) && AtPath(j, path).Some? && Through(j, path)
    ensures AtPath(Collapsed(j).value, path).None?
    decreases |path|
  {
    CollapsedChild(j, path[0]);
    if Collapses(j) && path[0] in {"anyOf", "type", "enum"} {
      assert CleanFields(CollapsedFields(j));
      assert path[0] in CollapsedFields(j);
      assert path[0] == "anyOf";
    } else {
      ThroughDangles(Child(j, path[0]).value, path[1..]);
    }
  }

  // ---- The references survive ----

  lemma {:induction false} GatheredRefs(branches: seq<Json>)
    requires Gather(branches).Enums?
    requires forall i :: 0 <= i < |branches| ==> StringEnum(branches[i]) && branches[i].fields.Keys == {"type", "enum"}
    ensures RefsIn(Array(Gather(branches).values)) == RefsIn(Array(branches))
  {
    if branches != [] {
      var b, rest := branches[0], branches[1..];
      assert forall i :: 0 <= i < |rest| ==> rest[i] == branches[i + 1];
      GatheredRefs(rest);
      BranchRefs(b);
      var values := b.fields["enum"].items;
      ArrayRefsConcat(values, Gather(rest).values);
      assert branches == [b] + rest;
      ArrayRefsConcat([b], rest);
      ArrayRefsOne(b);
    }
  }

  lemma ArrayRefsOne(b: Json)
    ensures RefsIn(Array([b])) == RefsIn(b)
  {
    assert [b][0] == b;
  }

  lemma ArrayRefsConcat(a: seq<Json>, b: seq<Json>)
    ensures RefsIn(Array(a + b)) == RefsIn(Array(a)) + RefsIn(Array(b))
  {
    forall r | r in RefsIn(Array(a)) + RefsIn(Array(b))
      ensures r in RefsIn(Array(a + b))
    {
      if r in RefsIn(Array(a)) {
        var i :| 0 <= i < |a| && r in RefsIn(a[i]);
        assert (a + b)[i] == a[i];
      } else {
        var i :| 0 <= i < |b| && r in RefsIn(b[i]);
        assert (a + b)[|a| + i] == b[i];
      }
    }
    forall r | r in RefsIn(Array(a + b))
      ensures r in RefsIn(Array(a)) + RefsIn(Array(b))
    {
      var i :| 0 <= i < |a + b| && r in RefsIn((a + b)[i]);
      assert (a + b)[i] == if i < |a| then a[i] else b[i - |a|];
    }
  }

  lemma BranchRefs(b: Json)
    requires StringEnum(b) && b.fields.Keys == {"type", "enum"}
    ensures RefsIn(b) == RefsIn(b.fields["enum"])
  {
    assert "enum" in b.fields && RefsIn(b.fields["type"]) == {};
    assert OwnRef(b.fields).None?;
  }

  lemma NodeRefs(fields: map<string, Json>)
    requires CollapseNode(fields).Some? && CleanFields(fields)
    ensures RefsIn(Object(CollapseNode(fields).value)) == RefsIn(Object(fields))
  {
    var out := CollapseNode(fields).value;
    if "anyOf" in fields {
      GatherExact(fields["anyOf"].items);
    }
    if Collapsible(fields) {
      GatheredRefs(fields["anyOf"].items);
      assert RefsIn(out["enum"]) == RefsIn(fields["anyOf"]);
      UnionRefs(fields, out);
    }
  }

  lemma UnionRefs(fields: map<string, Json>, out: map<string, Json>)
    requires "anyOf" in fields && "type" !in fields && "enum" !in fields
    requires out.Keys == fields.Keys - {"anyOf"} + {"type", "enum"} && out["type"].Str?
    requires RefsIn(out["enum"]) == RefsIn(fields["anyOf"])
    requires forall k :: k in fields && k != "anyOf" ==> out[k] == fields[k]
    ensures RefsIn(Object(out)) == RefsIn(Object(fields))
  {
    assert OwnRef(out) == OwnRef(fields);
    forall r | r in RefsIn(Object(out)) && OwnRef(out) != Some(r)
      ensures r in RefsIn(Object(fields))
    {
      var k :| k in out && r in RefsIn(out[k]);
      assert r in RefsIn(fields[if k == "enum" then "anyOf" else k]);
    }
    forall r | r in RefsIn(Object(fields)) && OwnRef(fields) != Some(r)
      ensures r in RefsIn(Object(out))
    {
      var k :| k in fields && r in RefsIn(fields[k]);
      assert r in RefsIn(out[if k == "anyOf" then "enum" else k]);
    }
  }

  /** The collapse neither loses nor invents a reference. */
  lemma {:induction false} CollapsedRefs(j: Json)
    requires Collapsed(j).Some? && CleanTree(j)
    ensures RefsIn(Collapsed(j).value) == RefsIn(j)
    decreases j
  {
    match j
    case Object(fields) =>
      forall k | k in fields
        ensures Collapsed(fields[k]).Some? && RefsIn(Collapsed(fields[k]).value) == RefsIn(fields[k])
      {
        assert Collapsed(fields[k]).Some?;
        CollapsedRefs(fields[k]);
      }
      var inner := CollapsedFields(j);
      SameOwnRef(j);
      FieldRefsSame(fields, inner);
      NodeRefs(inner);
    case Array(items) =>
      forall i | 0 <= i < |items|
        ensures Collapsed(items[i]).Some? && RefsIn(Collapsed(items[i]).value) == RefsIn(items[i])
      {
        assert Collapsed(items[i]).Some?;
        CollapsedRefs(items[i]);
      }
      ItemRefsSame(items, CollapsedItems(j));
    case _ =>
  }

  lemma FieldRefsSame(a: map<string, Json>, b: map<string, Json>)
    requires a.Keys == b.Keys && OwnRef(a) == OwnRef(b) && forall k :: k in a ==> RefsIn(b[k]) == RefsIn(a[k])
    ensures RefsIn(Object(a)) == RefsIn(Object(b))
  {
    forall r
      ensures r in RefsIn(Object(a)) <==> r in RefsIn(Object(b))
    {
      if r in RefsIn(Object(a)) && OwnRef(a) != Some(r) {
        var k :| k in a && r in RefsIn(a[k]);
        assert r in RefsIn(b[k]);
      }
      if r in RefsIn(Object(b)) && OwnRef(b) != Some(r) {
        var k :| k in b && r in RefsIn(b[k]);
        assert r in RefsIn(a[k]);
      }
    }
  }

  lemma ItemRefsSame(a: seq<Json>, b: seq<Json>)
    requires |a| == |b| && forall i :: 0 <= i < |a| ==> RefsIn(b[i]) == RefsIn(a[i])
    ensures RefsIn(Array(a)) == RefsIn(Array(b))
  {
    forall r
      ensures r in RefsIn(Array(a)) <==> r in RefsIn(Array(b))
    {
      if r in RefsIn(Array(a)) {
        var i :| 0 <= i < |a| && r in RefsIn(a[i]);
        assert r in RefsIn(b[i]);
      }
      if r in RefsIn(Array(b)) {
        var i :| 0 <= i < |b| && r in RefsIn(b[i]);
        assert r in RefsIn(a[i]);
      }
    }
  }

  // ---- References of the document ----

  /** The reference leads into what a collapsing component node loses or gets anew. */
  predicate IntoCollapsing(doc: Doc, ref: string) {
    var path := PointerPath(ref);
    path.Some? && path.value != [] && path.value[0] == "components" && Through(Object(doc.components), path.value[1..])
  }

  lemma ResolvedAfter(doc: Doc, ref: string)
    requires CollapsedDoc(doc).Some? && Resolve(doc, ref).Some?
    ensures var t, t' := Resolve(doc, ref).value, Resolve(CollapsedDoc(doc).value, ref);
            if PointerPath(ref).value[0] != "components" then t' == Some(t)
            else
              && Collapsed(t).Some?
              && (!IntoCollapsing(doc, ref) ==> t' == Collapsed(t))
              && (IntoCollapsing(doc, ref) && CleanTree(Object(doc.components)) ==> t'.None?)
  {
    var path := PointerPath(ref).value;
    if path[0] == "components" {
      CollapsedAt(Object(doc.components), path[1..]);
      if IntoCollapsing(doc, ref) && CleanTree(Object(doc.components)) {
        ThroughDangles(Object(doc.components), path[1..]);
      }
    }
  }

  /** In a document without dangling references, the collapse leaves none exactly when no scanned reference leads
      into a collapsing node. */
  lemma CollapseDanglesIff(doc: Doc)
    requires CollapsedDoc(doc).Some? && CleanTree(Object(doc.components)) && NoDangling(doc)
    ensures ScannedRefs(CollapsedDoc(doc).value) == ScannedRefs(doc)
    ensures NoDangling(CollapsedDoc(doc).value) <==> forall r :: r in ScannedRefs(doc) ==> !IntoCollapsing(doc, r)
  {
    CollapsedRefs(Object(doc.components));
    forall r | r in ScannedRefs(doc)
      ensures Resolve(CollapsedDoc(doc).value, r).Some? <==> !IntoCollapsing(doc, r)
    {
      ResolvedAfter(doc, r);
    }
  }

  // ---- Meaning in the document ----

  /** References that lead, one after the other, only to schemas the collapse is meant to work on. */
  ghost predicate SchemaRefs(doc: Doc, refs: set<string>) {
    forall r :: r in refs ==> SchemaRef(doc, refs, r)
  }

  ghost predicate SchemaRef(doc: Doc, refs: set<string>, r: string) {
    && Resolve(doc, r).Some? && RefsIn(Resolve(doc, r).value) <= refs
    && !IntoCollapsing(doc, r)
    && (PointerPath(r).value[0] == "components" ==> Meaningful(Resolve(doc, r).value))
  }

  ghost predicate RefsAgree(doc: Doc, doc': Doc, base: Sem, refs: set<string>, n: nat) {
    forall r, v :: r in refs ==> (RefAccepts(doc, base, n, r, v) <==> RefAccepts(doc', base, n, r, v))
  }

  lemma ReadingsAgree(doc: Doc, doc': Doc, base: Sem, refs: set<string>, n: nat)
    requires RefsAgree(doc, doc', base, refs, n)
    ensures AgreeOn(InDocument(doc, base, n), InDocument(doc', base, n), refs)
  {
    var sem, sem' := InDocument(doc, base, n), InDocument(doc', base, n);
    forall k, x: Json, v | k == "$ref" && x.Str? ==> x.text in refs
      ensures sem(k, x, v) <==> sem'(k, x, v)
    {
      if k == "$ref" && x.Str? {
        assert RefAccepts(doc, base, n, x.text, v) <==> RefAccepts(doc', base, n, x.text, v);
      }
    }
  }

  lemma NoHops(doc: Doc, doc': Doc, base: Sem, refs: set<string>)
    ensures RefsAgree(doc, doc', base, refs, 0)
  {
  }

  lemma OneMoreHop(doc: Doc, base: Sem, refs: set<string>, n: nat)
    requires CollapsedDoc(doc).Some? && SchemaRefs(doc, refs)
    requires AgreeOn(InDocument(doc, base, n), InDocument(CollapsedDoc(doc).value, base, n), refs)
    ensures RefsAgree(doc, CollapsedDoc(doc).value, base, refs, n + 1)
  {
    var doc', m := CollapsedDoc(doc).value, n + 1;
    forall r, v | r in refs
      ensures RefAccepts(doc, base, m, r, v) <==> RefAccepts(doc', base, m, r, v)
    {
      RefAgrees(doc, base, refs, n, r, v);
    }
  }

  /** Within `n` hops the two documents read the references alike. */
  ghost predicate AgreeWithin(doc: Doc, base: Sem, refs: set<string>, n: nat)
    requires CollapsedDoc(doc).Some?
  {
    AgreeOn(InDocument(doc, base, n), InDocument(CollapsedDoc(doc).value, base, n), refs)
  }

  lemma AgreeAtOnce(doc: Doc, base: Sem, refs: set<string>)
    requires CollapsedDoc(doc).Some?
    ensures AgreeWithin(doc, base, refs, 0)
  {
    NoHops(doc, CollapsedDoc(doc).value, base, refs);
    ReadingsAgree(doc, CollapsedDoc(doc).value, base, refs, 0);
  }

  lemma AgreeOneMore(doc: Doc, base: Sem, refs: set<string>, n: nat)
    requires CollapsedDoc(doc).Some? && SchemaRefs(doc, refs) && AgreeWithin(doc, base, refs, n)
    ensures AgreeWithin(doc, base, refs, n + 1)
  {
    OneMoreHop(doc, base, refs, n);
    ReadingsAgree(doc, CollapsedDoc(doc).value, base, refs, n + 1);
  }

  lemma DocumentsAgree(doc: Doc, base: Sem, refs: set<string>, n: nat)
    requires CollapsedDoc(doc).Some? && SchemaRefs(doc, refs)
    ensures AgreeWithin(doc, base, refs, n)
  {
    var agree := (k: nat) => AgreeWithin(doc, base, refs, k);
    AgreeAtOnce(doc, base, refs);
    forall k: nat | agree(k)
      ensures agree(k + 1)
    {
      AgreeOneMore(doc, base, refs, k);
    }
    FromZero(agree, n);
  }

  lemma {:induction false} FromZero(p: nat -> bool, n: nat)
    requires p(0) && forall k: nat :: p(k) ==> p(k + 1)
    ensures p(n)
  {
    if n > 0 {
      FromZero(p, n - 1);
      assert p(n - 1 + 1);
    }
  }

  lemma RefAgrees(doc: Doc, base: Sem, refs: set<string>, n: nat, r: string, v: Json)
    requires CollapsedDoc(doc).Some? && SchemaRefs(doc, refs) && r in refs
    requires AgreeOn(InDocument(doc, base, n), InDocument(CollapsedDoc(doc).value, base, n), refs)
    ensures RefAccepts(doc, base, n + 1, r, v) <==> RefAccepts(CollapsedDoc(doc).value, base, n + 1, r, v)
  {
    assert SchemaRef(doc, refs, r);
    var doc', t := CollapsedDoc(doc).value, Resolve(doc, r).value;
    var sem, sem' := InDocument(doc, base, n), InDocument(doc', base, n);
    ResolvedAfter(doc, r);
    if PointerPath(r).value[0] == "components" {
      CollapseKeepsMeaning(sem, sem', refs, t);
    } else {
      SameReading(sem, sem', refs, t);
    }
  }

  /** The collapse of a document preserves meaning: in it, and for any number of hops, a collapsed schema accepts
      exactly what the schema accepted, and a schema the pass does not touch accepts what it accepted. */
  lemma CollapseKeepsDocumentMeaning(doc: Doc, base: Sem, refs: set<string>, n: nat, s: Json, v: Json)
    requires CollapsedDoc(doc).Some? && SchemaRefs(doc, refs) && RefsIn(s) <= refs
    ensures Meaningful(s) && Collapsed(s).Some? ==>
              (AcceptsIn(doc, base, n, s, v) <==> AcceptsIn(CollapsedDoc(doc).value, base, n, Collapsed(s).value, v))
    ensures AcceptsIn(doc, base, n, s, v) <==> AcceptsIn(CollapsedDoc(doc).value, base, n, s, v)
  {
    var sem, sem' := InDocument(doc, base, n), InDocument(CollapsedDoc(doc).value, base, n);
    DocumentsAgree(doc, base, refs, n);
    SameReading(sem, sem', refs, s);
    if Meaningful(s) && Collapsed(s).Some? {
      CollapseKeepsMeaning(sem, sem', refs, s);
    }
  }

  // ---- A reference into a branch ----

  /** The first branch of a schema's union. */
  function BranchRef(name: string): string {
    "#/" + ("components" + "/" + "schemas" + "/" + name + "/" + "anyOf" + "/" + "0")
  }

  function OneEnum(): Json {
    Object(map["type" := Str("string"), "enum" := Array([Str("a")])])
  }

  function OneUnion(): Json {
    Object(map["anyOf" := Array([OneEnum()])])
  }

  function RefTo(ref: string): Json {
    Object(map["$ref" := Str(ref)])
  }

  /** A union of one enum, and a schema that refers to its first branch. */
  function BranchDoc(name: string, user: string): Doc {
    Doc(map["schemas" := Object(map[name := OneUnion(), user := RefTo(BranchRef(name))])], map[])
  }

  lemma BranchPointer(name: string)
    requires PlainName(name)
    ensures PointerPath(BranchRef(name)) == Some(["components", "schemas", name, "anyOf", "0"])
  {
    SplitFive("components", "schemas", name, "anyOf", "0");
    PointerOf("components" + "/" + "schemas" + "/" + name + "/" + "anyOf" + "/" + "0");
    PlainTokens(["components", "schemas", name, "anyOf", "0"]);
  }

  lemma UnionFacts()
    ensures Collapsed(OneEnum()) == Some(OneEnum()) && Collapsed(Array([OneEnum()])) == Some(Array([OneEnum()]))
    ensures Collapses(OneUnion()) && Collapsed(OneUnion()).Some?
    ensures CleanTree(OneUnion())
  {
    var b, u := OneEnum(), OneUnion();
    StableArray([Str("a")]);
    StableFields(b.fields);
    StableArray([b]);
    assert CollapsedFields(u) == u.fields;
    GatherExact([b]);
    assert StringEnum(b);
    assert Collapsible(u.fields);
    assert b.fields.Keys == {"type", "enum"};
    assert CollapsedFields(b) == b.fields;
    assert CleanTree(b.fields["type"]) && CleanTree(Str("a")) && CleanTree(b.fields["enum"]);
    assert CleanTree(b);
    assert CleanTree(u.fields["anyOf"]);
  }

  lemma BranchSchemas(name: string, user: string)
    requires name != "anyOf" && user != "anyOf" && name != user
    ensures var schemas := BranchDoc(name, user).components["schemas"];
            Collapsed(schemas).Some? && CleanTree(schemas) && BranchRef(name) in RefsIn(schemas)
  {
    var schemas := BranchDoc(name, user).components["schemas"];
    var r := RefTo(BranchRef(name));
    UnionFacts();
    RefToFacts(BranchRef(name));
    assert schemas.fields.Keys == {name, user} && schemas.fields[user] == r && schemas.fields[name] == OneUnion();
    NoUnionHere(schemas);
    assert BranchRef(name) in RefsIn(schemas.fields[user]);
  }

  lemma RefToFacts(ref: string)
    ensures Collapsed(RefTo(ref)).Some? && CleanTree(RefTo(ref)) && ref in RefsIn(RefTo(ref))
  {
    var r := RefTo(ref);
    StableFields(r.fields);
    assert CleanTree(r.fields["$ref"]);
    assert OwnRef(r.fields) == Some(ref);
  }

  /** A map without `anyOf` does not collapse itself. */
  lemma NoUnionHere(j: Json)
    requires j.Object? && "anyOf" !in j.fields
    requires forall k :: k in j.fields ==> Collapsed(j.fields[k]).Some? && CleanTree(j.fields[k])
    ensures Collapsed(j) == Some(Object(CollapsedFields(j))) && CleanTree(j)
  {
    assert "anyOf" !in CollapsedFields(j);
  }

  lemma BranchDocFacts(name: string, user: string)
    requires name != "anyOf" && user != "anyOf" && name != user
    ensures CollapsedDoc(BranchDoc(name, user)).Some? && CleanTree(Object(BranchDoc(name, user).components))
    ensures BranchRef(name) in ScannedRefs(BranchDoc(name, user))
  {
    var components := Object(BranchDoc(name, user).components);
    BranchSchemas(name, user);
    assert components.fields.Keys == {"schemas"};
    NoUnionHere(components);
    assert BranchRef(name) in RefsIn(components.fields["schemas"]);
  }

  lemma BranchAt()
    ensures AtPath(OneUnion(), ["anyOf", "0"]) == Some(OneEnum()) && Through(OneUnion(), ["anyOf", "0"])
  {
    UnionFacts();
    var union, path, last := OneUnion(), ["anyOf", "0"], ["0"];
    AtoiDecimal(0);
    assert Decimal(0) == "0";
    assert path[1..] == last && last[1..] == [];
    assert Child(union.fields["anyOf"], "0") == Some(OneEnum());
    assert AtPath(union.fields["anyOf"], last) == Some(OneEnum());
  }

  /** What is at a path under a key, and whether it goes through a collapsing node. */
  lemma Under(j: Json, key: string, rest: seq<string>)
    requires j.Object? && key in j.fields
    ensures AtPath(j, [key] + rest) == AtPath(j.fields[key], rest)
    ensures Through(j.fields[key], rest) ==> Through(j, [key] + rest)
  {
    assert ([key] + rest)[1..] == rest;
  }

  /** A reference to a branch of a union that collapses resolves before and dangles after. */
  lemma CollapseCanDangle(name: string, user: string)
    requires PlainName(name) && name != "anyOf" && user != "anyOf" && name != user
    ensures var doc := BranchDoc(name, user);
            && CollapsedDoc(doc).Some? && CleanTree(Object(doc.components))
            && BranchRef(name) in ScannedRefs(doc) && BranchRef(name) in ScannedRefs(CollapsedDoc(doc).value)
            && Resolve(doc, BranchRef(name)) == Some(OneEnum())
            && Resolve(CollapsedDoc(doc).value, BranchRef(name)).None?
  {
    var doc := BranchDoc(name, user);
    var components := Object(doc.components);
    BranchDocFacts(name, user);
    CollapsedRefs(components);
    BranchPath(name, user);
    BranchPointer(name);
    ThroughDangles(components, ["schemas", name, "anyOf", "0"]);
    assert ["components", "schemas", name, "anyOf", "0"][1..] == ["schemas", name, "anyOf", "0"];
  }

  lemma BranchPath(name: string, user: string)
    requires name != user
    ensures var components := Object(BranchDoc(name, user).components);
            && AtPath(components, ["schemas", name, "anyOf", "0"]) == Some(OneEnum())
            && Through(components, ["schemas", name, "anyOf", "0"])
  {
    var components := Object(BranchDoc(name, user).components);
    var schemas := components.fields["schemas"];
    BranchAt();
    Under(schemas, name, ["anyOf", "0"]);
    assert [name] + ["anyOf", "0"] == [name, "anyOf", "0"];
    Under(components, "schemas", [name, "anyOf", "0"]);
    assert ["schemas"] + [name, "anyOf", "0"] == ["schemas", name, "anyOf", "0"];
  }
}

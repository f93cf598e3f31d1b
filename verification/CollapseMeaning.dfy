/** The values a schema accepts (section 4.7.24 of the OpenAPI Specification 3.0.3), and that the enum
    collapse keeps them. */
module CollapseMeaning {
  import opened Text
  import opened Document
  import opened References
  import opened Passes
  import opened Collapse

  /** Keywords with schemas beneath them, and the two the collapse writes. */
  datatype Keyword = Type | Enum | AnyOf | AllOf | OneOf | Not | Properties | Items | Additional | Other

  function KeywordOf(k: string): Keyword {
    if k == "type" then Type
    else if k == "enum" then Enum
    else if k == "anyOf" then AnyOf
    else if k == "allOf" then AllOf
    else if k == "oneOf" then OneOf
    else if k == "not" then Not
    else if k == "properties" then Properties
    else if k == "items" then Items
    else if k == "additionalProperties" then Additional
    else Other
  }

  /** What the remaining keywords accept; a `$ref` among them, see `InDocument`. */
  type Sem = (string, Json, Json) -> bool

  function PropertyNames(s: Json): set<string>
    requires s.Object?
  {
    if "properties" in s.fields && s.fields["properties"].Object? then s.fields["properties"].fields.Keys else {}
  }

  /** `s` accepts the value `v`: its target does, when it is a reference, and every keyword does otherwise (what
      stands beside a `$ref` is ignored, section 4.7.23 of the same specification). */
  ghost predicate Accepts(sem: Sem, s: Json, v: Json)
    decreases s, 1
  {
    && s.Object?
    && if OwnRef(s.fields).Some? then sem("$ref", s.fields["$ref"], v)
       else forall k :: k in s.fields ==> KeyAccepts(sem, s, k, v)
  }

  /** Which of a list of schemas accept the value. */
  ghost function Matching(sem: Sem, x: Json, v: Json): set<nat>
    requires x.Array?
    decreases x, 2
  {
    set i: nat | i < |x.items| && Accepts(sem, x.items[i], v)
  }

  ghost predicate KeyAccepts(sem: Sem, s: Json, k: string, v: Json)
    requires s.Object? && k in s.fields
    decreases s, 0
  {
    var x := s.fields[k];
    match KeywordOf(k)
    case Type => if x == Str("string") then v.Str? else sem(k, x, v)
    case Enum => if x.Array? then v in x.items else sem(k, x, v)
    case AnyOf => if x.Array? then exists i :: i in Matching(sem, x, v) else sem(k, x, v)
    case AllOf => if x.Array? then |Matching(sem, x, v)| == |x.items| else sem(k, x, v)
    case OneOf => if x.Array? then |Matching(sem, x, v)| == 1 else sem(k, x, v)
    case Not => !Accepts(sem, x, v)
    case Properties =>
      if x.Object? then v.Object? ==> forall p :: p in x.fields && p in v.fields ==>
          Accepts(sem, x.fields[p], v.fields[p])
      else sem(k, x, v)
    case Items => v.Array? ==> forall i :: 0 <= i < |v.items| ==> Accepts(sem, x, v.items[i])
    case Additional =>
      if x.Object? then v.Object? ==> forall p :: p in v.fields && p !in PropertyNames(s) ==>
          Accepts(sem, x, v.fields[p])
      else sem(k, x, v)
    case Other => sem(k, x, v)
  }

  // ---- Schemas on which the collapse is meant to work ----

  ghost predicate Stable(j: Json) {
    Collapsed(j) == Some(j)
  }

  /** A node that collapses has no type or enum of its own, and its branches carry nothing else. */
  ghost predicate CleanFields(fields: map<string, Json>) {
    Collapsible(fields) ==>
      && "type" !in fields && "enum" !in fields
      && forall i :: 0 <= i < |fields["anyOf"].items| ==> fields["anyOf"].items[i].fields.Keys == {"type", "enum"}
  }

  ghost predicate CollapsesCleanly(s: Json)
    requires s.Object?
  {
    (forall k :: k in s.fields ==> Collapsed(s.fields[k]).Some?) ==> CleanFields(CollapsedFields(s))
  }

  /** Schema-shaped throughout, every collapsing node clean, and nothing to collapse outside schemas. */
  ghost predicate Meaningful(s: Json)
    decreases s, 1
  {
    && s.Object? && CollapsesCleanly(s)
    && forall k :: k in s.fields ==> KeyMeaningful(s, k)
  }

  ghost predicate KeyMeaningful(s: Json, k: string)
    requires s.Object? && k in s.fields
    decreases s, 0
  {
    var x := s.fields[k];
    match KeywordOf(k)
    case AnyOf => x.Array? && forall i :: 0 <= i < |x.items| ==> Meaningful(x.items[i])
    case AllOf => x.Array? && forall i :: 0 <= i < |x.items| ==> Meaningful(x.items[i])
    case OneOf => x.Array? && forall i :: 0 <= i < |x.items| ==> Meaningful(x.items[i])
    case Not => Meaningful(x)
    case Items => Meaningful(x)
    case Properties => x.Object? && forall p :: p in x.fields ==> Meaningful(x.fields[p])
    case Additional => if x.Object? then Meaningful(x) else Stable(x) && !x.Object?
    case _ => Stable(x)
  }

  // ---- Step 1: collapsing beneath a node ----

  /** `a` under one reading of the remaining keywords means what `b` means under another. */
  ghost predicate SameMeaning(sem: Sem, sem': Sem, a: Json, b: Json) {
    forall v :: Accepts(sem, a, v) <==> Accepts(sem', b, v)
  }

  /** Two readings that can only differ on references outside `refs`. */
  ghost predicate AgreeOn(sem: Sem, sem': Sem, refs: set<string>) {
    forall k, x: Json, v :: (k == "$ref" && x.Str? ==> x.text in refs) ==> (sem(k, x, v) <==> sem'(k, x, v))
  }

  lemma RefsBeneath(j: Json)
    ensures j.Object? ==> forall k :: k in j.fields ==> RefsIn(j.fields[k]) <= RefsIn(j)
    ensures j.Array? ==> forall i :: 0 <= i < |j.items| ==> RefsIn(j.items[i]) <= RefsIn(j)
    ensures j.Object? && OwnRef(j.fields).Some? ==> OwnRef(j.fields).value in RefsIn(j)
  {
  }

  /** The properties map of a schema is not itself collapsed: a property called anyOf would panic. */
  lemma PropertiesKept(x: Json)
    requires x.Object? && Collapsed(x).Some? && forall p :: p in x.fields ==> Meaningful(x.fields[p])
    ensures forall p :: p in x.fields ==> Collapsed(x.fields[p]).Some?
    ensures Collapsed(x).value == Object(CollapsedFields(x))
  {
    var inner := CollapsedFields(x);
    assert "anyOf" !in x.fields;
  }

  lemma CollapsedObjects(x: Json)
    requires x.Object? && Collapsed(x).Some?
    ensures Collapsed(x).value.Object?
  {
  }

  lemma ListMeaning(sem: Sem, sem': Sem, x: Json, v: Json)
    requires x.Array? && Collapsed(x).Some?
    requires forall i :: 0 <= i < |x.items| ==> SchemaAgrees(sem, sem', x.items[i])
    ensures var y := Collapsed(x).value;
            y.Array? && |y.items| == |x.items| && Matching(sem, x, v) == Matching(sem', y, v)
  {
    var y := Collapsed(x).value;
    forall i | 0 <= i < |x.items|
      ensures Accepts(sem, x.items[i], v) <==> Accepts(sem', y.items[i], v)
    {
      assert y.items[i] == Collapsed(x.items[i]).value;
      assert SchemaAgrees(sem, sem', x.items[i]);
    }
  }

  lemma NamesKept(x: Json)
    requires x.Object? && Collapsed(x).Some? && forall p :: p in x.fields ==> Meaningful(x.fields[p])
    ensures Collapsed(x).value.Object? && Collapsed(x).value.fields.Keys == x.fields.Keys
  {
    PropertiesKept(x);
  }

  lemma SameNames(s: Json)
    requires s.Object? && (forall k :: k in s.fields ==> Collapsed(s.fields[k]).Some?)
    requires "properties" in s.fields ==> KeyMeaningful(s, "properties")
    ensures PropertyNames(Object(CollapsedFields(s))) == PropertyNames(s)
  {
    if "properties" in s.fields {
      assert KeywordOf("properties") == Properties;
      NamesKept(s.fields["properties"]);
    }
  }

  /** A schema means the same after the collapse. */
  ghost predicate SchemaAgrees(sem: Sem, sem': Sem, x: Json) {
    Collapsed(x).Some? && SameMeaning(sem, sem', x, Collapsed(x).value)
  }

  /** What the induction provides for the schemas directly beneath a keyword. */
  ghost predicate SubschemasAgree(sem: Sem, sem': Sem, x: Json, kw: Keyword) {
    match kw
    case AnyOf => x.Array? ==> forall i :: 0 <= i < |x.items| ==> SchemaAgrees(sem, sem', x.items[i])
    case AllOf => x.Array? ==> forall i :: 0 <= i < |x.items| ==> SchemaAgrees(sem, sem', x.items[i])
    case OneOf => x.Array? ==> forall i :: 0 <= i < |x.items| ==> SchemaAgrees(sem, sem', x.items[i])
    case Not => SchemaAgrees(sem, sem', x)
    case Items => SchemaAgrees(sem, sem', x)
    case Properties => x.Object? ==> forall p :: p in x.fields ==> SchemaAgrees(sem, sem', x.fields[p])
    case Additional => x.Object? ==> SchemaAgrees(sem, sem', x)
    case _ => true
  }

  /** A keyword over the original child and over the collapsed child. */
  ghost predicate KeyAgrees(sem: Sem, sem': Sem, s: Json, t: Json, k: string, v: Json) {
    && s.Object? && t.Object? && k in s.fields && k in t.fields
    && (KeyAccepts(sem, s, k, v) <==> KeyAccepts(sem', t, k, v))
  }

  /** `t` holds the collapsed child of `s` under `k`, whose schemas agree. */
  ghost predicate KeyCollapsed(sem: Sem, sem': Sem, s: Json, t: Json, k: string) {
    && s.Object? && t.Object? && k in s.fields && k in t.fields
    && Collapsed(s.fields[k]).Some? && t.fields[k] == Collapsed(s.fields[k]).value
    && KeyMeaningful(s, k) && SubschemasAgree(sem, sem', s.fields[k], KeywordOf(k))
  }

  lemma ListKeyAgrees(sem: Sem, sem': Sem, s: Json, t: Json, k: string, v: Json)
    requires KeyCollapsed(sem, sem', s, t, k)
    requires KeywordOf(k).AnyOf? || KeywordOf(k).AllOf? || KeywordOf(k).OneOf?
    ensures KeyAgrees(sem, sem', s, t, k, v)
  {
    ListMeaning(sem, sem', s.fields[k], v);
  }

  lemma PropertiesKeyAgrees(sem: Sem, sem': Sem, s: Json, t: Json, k: string, v: Json)
    requires KeyCollapsed(sem, sem', s, t, k) && KeywordOf(k).Properties?
    ensures KeyAgrees(sem, sem', s, t, k, v)
  {
    PropertiesMeaning(sem, sem', s.fields[k], v);
  }

  lemma SchemaKeyAgrees(sem: Sem, sem': Sem, s: Json, t: Json, k: string, v: Json, refs: set<string>)
    requires KeyCollapsed(sem, sem', s, t, k) && PropertyNames(s) == PropertyNames(t) && AgreeOn(sem, sem', refs)
    requires KeywordOf(k).Not? || KeywordOf(k).Items? || KeywordOf(k).Additional?
    ensures KeyAgrees(sem, sem', s, t, k, v)
  {
    var x := s.fields[k];
    if KeywordOf(k).Items? {
      ItemsMeaning(sem, sem', x, v);
    } else if KeywordOf(k).Additional? && x.Object? {
      AdditionalMeaning(sem, sem', x, v, PropertyNames(s));
      CollapsedObjects(x);
    }
  }

  /** A keyword with nothing beneath it that could collapse. */
  lemma PlainKeyAgrees(sem: Sem, sem': Sem, s: Json, t: Json, k: string, v: Json, refs: set<string>)
    requires KeyCollapsed(sem, sem', s, t, k) && AgreeOn(sem, sem', refs)
    requires KeywordOf(k).Type? || KeywordOf(k).Enum? || KeywordOf(k).Other?
    requires k == "$ref" ==> !s.fields[k].Str?
    ensures KeyAgrees(sem, sem', s, t, k, v)
  {
    assert Stable(s.fields[k]);
    assert sem(k, s.fields[k], v) <==> sem'(k, s.fields[k], v);
  }

  /** Children with the same meaning give a keyword the same meaning. */
  lemma KeyMeaning(sem: Sem, sem': Sem, s: Json, t: Json, k: string, v: Json, refs: set<string>)
    requires KeyCollapsed(sem, sem', s, t, k) && PropertyNames(s) == PropertyNames(t) && AgreeOn(sem, sem', refs)
    requires k == "$ref" ==> !s.fields[k].Str?
    ensures KeyAgrees(sem, sem', s, t, k, v)
  {
    match KeywordOf(k)
    case AnyOf => ListKeyAgrees(sem, sem', s, t, k, v);
    case AllOf => ListKeyAgrees(sem, sem', s, t, k, v);
    case OneOf => ListKeyAgrees(sem, sem', s, t, k, v);
    case Properties => PropertiesKeyAgrees(sem, sem', s, t, k, v);
    case Not => SchemaKeyAgrees(sem, sem', s, t, k, v, refs);
    case Items => SchemaKeyAgrees(sem, sem', s, t, k, v, refs);
    case Additional => SchemaKeyAgrees(sem, sem', s, t, k, v, refs);
    case _ => PlainKeyAgrees(sem, sem', s, t, k, v, refs);
  }

  lemma PropertiesMeaning(sem: Sem, sem': Sem, x: Json, v: Json)
    requires x.Object? && Collapsed(x).Some? && forall p :: p in x.fields ==> Meaningful(x.fields[p])
    requires SubschemasAgree(sem, sem', x, Properties)
    ensures var y := Collapsed(x).value;
            && y.Object? && y.fields.Keys == x.fields.Keys
            && (v.Object? ==> forall p :: p in x.fields && p in v.fields ==>
                  (Accepts(sem, x.fields[p], v.fields[p]) <==> Accepts(sem', y.fields[p], v.fields[p])))
  {
    PropertiesKept(x);
    var y := Collapsed(x).value;
    if v.Object? {
      forall p | p in x.fields && p in v.fields
        ensures Accepts(sem, x.fields[p], v.fields[p]) <==> Accepts(sem', y.fields[p], v.fields[p])
      {
        assert SchemaAgrees(sem, sem', x.fields[p]);
      }
    }
  }

  lemma ItemsMeaning(sem: Sem, sem': Sem, x: Json, v: Json)
    requires SchemaAgrees(sem, sem', x)
    ensures v.Array? ==> ((forall i :: 0 <= i < |v.items| ==> Accepts(sem, x, v.items[i])) <==>
                          (forall i :: 0 <= i < |v.items| ==> Accepts(sem', Collapsed(x).value, v.items[i])))
  {
  }

  lemma AdditionalMeaning(sem: Sem, sem': Sem, x: Json, v: Json, names: set<string>)
    requires SchemaAgrees(sem, sem', x)
    ensures v.Object? ==> ((forall p :: p in v.fields && p !in names ==> Accepts(sem, x, v.fields[p])) <==>
                           (forall p :: p in v.fields && p !in names ==>
                               Accepts(sem', Collapsed(x).value, v.fields[p])))
  {
  }

  // ---- Step 2: the callback on the node itself ----

  lemma {:induction false} GatherMembers(branches: seq<Json>, v: Json)
    requires Gather(branches).Enums?
    ensures v in Gather(branches).values <==>
              exists i :: 0 <= i < |branches| && StringEnum(branches[i]) && v in branches[i].fields["enum"].items
  {
    if branches != [] {
      GatherMembers(branches[1..], v);
      assert StringEnum(branches[0]);
      if i :| 0 <= i < |branches| && StringEnum(branches[i]) && v in branches[i].fields["enum"].items {
        if i > 0 {
          assert branches[1..][i - 1] == branches[i];
        }
      }
      if i :| 0 <= i < |branches[1..]| && StringEnum(branches[1..][i]) && v in branches[1..][i].fields["enum"].items {
        assert branches[i + 1] == branches[1..][i];
      }
    }
  }

  lemma BranchMeaning(sem: Sem, b: Json, v: Json)
    requires StringEnum(b) && b.fields.Keys == {"type", "enum"}
    ensures Accepts(sem, b, v) <==> v.Str? && v in b.fields["enum"].items
  {
    assert KeyAccepts(sem, b, "type", v) <==> v.Str?;
    assert KeyAccepts(sem, b, "enum", v) <==> v in b.fields["enum"].items;
  }

  lemma UnionMeaning(sem: Sem, fields: map<string, Json>, v: Json)
    requires Collapsible(fields) && CleanFields(fields)
    ensures Gather(fields["anyOf"].items).Enums?
    ensures KeyAccepts(sem, Object(fields), "anyOf", v) <==> v.Str? && v in Gather(fields["anyOf"].items).values
  {
    var branches := fields["anyOf"].items;
    GatherExact(branches);
    GatherMembers(branches, v);
    forall i | 0 <= i < |branches|
      ensures i in Matching(sem, fields["anyOf"], v) <==> v.Str? && v in branches[i].fields["enum"].items
    {
      BranchMeaning(sem, branches[i], v);
    }
  }

  lemma OtherKeysSame(sem: Sem, a: map<string, Json>, b: map<string, Json>, k: string, v: Json)
    requires k in a && k in b && a[k] == b[k]
    requires PropertyNames(Object(a)) == PropertyNames(Object(b))
    ensures KeyAccepts(sem, Object(a), k, v) <==> KeyAccepts(sem, Object(b), k, v)
  {
  }

  lemma NodeMeaning(sem: Sem, fields: map<string, Json>, v: Json)
    requires CollapseNode(fields).Some? && CleanFields(fields)
    ensures Accepts(sem, Object(fields), v) <==> Accepts(sem, Object(CollapseNode(fields).value), v)
  {
    var out := CollapseNode(fields).value;
    if "anyOf" in fields {
      GatherExact(fields["anyOf"].items);
    }
    assert OwnRef(out) == OwnRef(fields);
    if Collapsible(fields) && OwnRef(fields).None? {
      var values := Gather(fields["anyOf"].items).values;
      UnionMeaning(sem, fields, v);
      assert out.Keys == fields.Keys - {"anyOf"} + {"type", "enum"};
      assert KeyAccepts(sem, Object(out), "type", v) <==> v.Str?;
      assert KeyAccepts(sem, Object(out), "enum", v) <==> v in values;
      forall k | k in fields && k != "anyOf"
        ensures k in out && (KeyAccepts(sem, Object(fields), k, v) <==> KeyAccepts(sem, Object(out), k, v))
      {
        OtherKeysSame(sem, fields, out, k, v);
      }
    }
  }

  // ---- The whole pass ----

  lemma FieldsMeaning(sem: Sem, sem': Sem, refs: set<string>, s: Json, v: Json)
    requires Meaningful(s) && (forall k :: k in s.fields ==> Collapsed(s.fields[k]).Some?)
    requires AgreeOn(sem, sem', refs) && RefsIn(s) <= refs
    requires forall k :: k in s.fields ==> SubschemasAgree(sem, sem', s.fields[k], KeywordOf(k))
    ensures Accepts(sem, s, v) <==> Accepts(sem', Object(CollapsedFields(s)), v)
  {
    var t := Object(CollapsedFields(s));
    RefsBeneath(s);
    SameOwnRef(s);
    if OwnRef(s.fields).Some? {
      assert sem("$ref", s.fields["$ref"], v) <==> sem'("$ref", s.fields["$ref"], v);
    } else {
      SameNames(s);
      forall k | k in s.fields
        ensures KeyAgrees(sem, sem', s, t, k, v)
      {
        assert KeyMeaningful(s, k);
        KeyMeaning(sem, sem', s, t, k, v, refs);
      }
      AgreeEverywhere(sem, sem', s, t, v);
    }
  }

  lemma SameOwnRef(s: Json)
    requires s.Object? && (forall k :: k in s.fields ==> Collapsed(s.fields[k]).Some?)
    ensures OwnRef(CollapsedFields(s)) == OwnRef(s.fields)
    ensures OwnRef(s.fields).Some? ==> CollapsedFields(s)["$ref"] == s.fields["$ref"]
  {
    if "$ref" in s.fields {
      var x := s.fields["$ref"];
      assert CollapsedFields(s)["$ref"] == Collapsed(x).value;
      assert x.Str? <==> Collapsed(x).value.Str?;
    }
  }

  lemma AgreeEverywhere(sem: Sem, sem': Sem, s: Json, t: Json, v: Json)
    requires s.Object? && t.Object? && s.fields.Keys == t.fields.Keys
    requires OwnRef(s.fields).None? && OwnRef(t.fields).None?
    requires forall k :: k in s.fields ==> KeyAgrees(sem, sem', s, t, k, v)
    ensures Accepts(sem, s, v) <==> Accepts(sem', t, v)
  {
    forall k | k in s.fields
      ensures KeyAccepts(sem, s, k, v) <==> KeyAccepts(sem', t, k, v)
    {
      assert KeyAgrees(sem, sem', s, t, k, v);
    }
  }

  /** The collapse accepts exactly the values the schema accepted, as long as the references in it do. */
  lemma {:induction false} CollapseKeepsMeaning(sem: Sem, sem': Sem, refs: set<string>, s: Json)
    requires Meaningful(s) && Collapsed(s).Some? && AgreeOn(sem, sem', refs) && RefsIn(s) <= refs
    ensures SameMeaning(sem, sem', s, Collapsed(s).value)
    decreases s, 1
  {
    RefsBeneath(s);
    forall k | k in s.fields
      ensures Collapsed(s.fields[k]).Some? && SubschemasAgree(sem, sem', s.fields[k], KeywordOf(k))
    {
      assert KeyMeaningful(s, k);
      assert Collapsed(s.fields[k]).Some?;
      SubschemasKeepMeaning(sem, sem', refs, s, k);
    }
    forall v
      ensures Accepts(sem, s, v) <==> Accepts(sem', Collapsed(s).value, v)
    {
      FieldsMeaning(sem, sem', refs, s, v);
      NodeMeaning(sem', CollapsedFields(s), v);
    }
  }

  lemma {:induction false} SubschemasKeepMeaning(sem: Sem, sem': Sem, refs: set<string>, s: Json, k: string)
    requires s.Object? && k in s.fields && KeyMeaningful(s, k) && Collapsed(s.fields[k]).Some?
    requires AgreeOn(sem, sem', refs) && RefsIn(s.fields[k]) <= refs
    ensures SubschemasAgree(sem, sem', s.fields[k], KeywordOf(k))
    decreases s, 0
  {
    var x := s.fields[k];
    RefsBeneath(x);
    match KeywordOf(k)
    case Not => CollapseKeepsMeaning(sem, sem', refs, x);
    case Items => CollapseKeepsMeaning(sem, sem', refs, x);
    case Additional => if x.Object? { CollapseKeepsMeaning(sem, sem', refs, x); }
    case Properties =>
      forall p | p in x.fields
        ensures SchemaAgrees(sem, sem', x.fields[p])
      {
        CollapseKeepsMeaning(sem, sem', refs, x.fields[p]);
      }
    case AnyOf => ListKeepsMeaning(sem, sem', refs, x);
    case AllOf => ListKeepsMeaning(sem, sem', refs, x);
    case OneOf => ListKeepsMeaning(sem, sem', refs, x);
    case _ =>
  }

  lemma {:induction false} ListKeepsMeaning(sem: Sem, sem': Sem, refs: set<string>, x: Json)
    requires x.Array? && Collapsed(x).Some? && forall i :: 0 <= i < |x.items| ==> Meaningful(x.items[i])
    requires AgreeOn(sem, sem', refs) && RefsIn(x) <= refs
    ensures forall i :: 0 <= i < |x.items| ==> SchemaAgrees(sem, sem', x.items[i])
    decreases x, 2
  {
    RefsBeneath(x);
    forall i | 0 <= i < |x.items|
      ensures SchemaAgrees(sem, sem', x.items[i])
    {
      assert Collapsed(x.items[i]).Some?;
      CollapseKeepsMeaning(sem, sem', refs, x.items[i]);
    }
  }
}

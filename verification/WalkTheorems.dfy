/** What the gap walk reports, said without the walk: a member is reported exactly when a route of
    used fields leads to an unused one.  Over-counting usage follows from it. */
module WalkTheorems {
  import opened Text
  import opened Oas
  import opened SchemaView
  import opened Gaps
  import opened Walk

  /** One hop of a route: into array items, into a union branch, into a struct field. */
  datatype Hop = Element | Branch(index: nat) | Field(index: nat)

  /** The walk goes on into a schema of this view read as type `t`. */
  predicate Followed(c: Context, active: set<string>, v: View, t: TypeId) {
    && !v.deprecated && !v.readOnly && v.unsupported == ""
    && !IsOpaque(c, t) && ActiveKey(v, t) !in active && t in c.types
  }

  predicate Visible(child: View) {
    !child.deprecated && !child.readOnly && child.unsupported == ""
  }

  function ElemOf(kind: Kind): Option<GoType> {
    match kind
    case SliceOf(elem) => Some(elem)
    case ArrayOf(elem) => Some(elem)
    case _ => None
  }

  predicate PlainObject(c: Context, v: View, t: TypeId) {
    Info(c, t).kind.Struct? && Info(c, t).variants.None? && |v.oneOf| == 0
  }

  predicate UnionObject(c: Context, v: View, t: TypeId) {
    Info(c, t).kind.Struct? && Info(c, t).variants.Some? && |Info(c, t).variants.value| == |v.oneOf|
  }

  /** `route` leads from the schema, through used fields only, to the unused field `m`. */
  ghost predicate Reports(c: Context, active: set<string>, ref: SchemaRef, goType: GoType, path: string,
      route: seq<Hop>, m: Member)
    requires Faithful(c)
    decreases |route|, 0
  {
    && route != [] && c.view(ref).Ok?
    && var v := c.view(ref).value;
    && var t := Deref(goType);
    && Followed(c, active, v, t)
    && var active' := active + {ActiveKey(v, t)};
    && match route[0]
       case Element =>
         && ElemOf(c.types[t].kind).Some? && v.items.Some?
         && Reports(c, active', v.items.value, ElemOf(c.types[t].kind).value, path + "[]", route[1..], m)
       case Branch(i) =>
         && UnionObject(c, v, t) && i < |v.oneOf|
         && Reports(c, active', v.oneOf[i], Info(c, t).variants.value[i], path, route[1..], m)
       case Field(i) =>
         && PlainObject(c, v, t) && i < |v.properties|
         && FieldReports(c, active', v, i, t, path, route[1..], m)
  }

  ghost predicate FieldReports(c: Context, active: set<string>, v: View, i: nat, t: TypeId, path: string,
      rest: seq<Hop>, m: Member)
    requires Faithful(c) && i < |v.properties|
    decreases |rest|, 1
  {
    var prop := v.properties[i];
    && prop.name in Info(c, t).fields && c.view(prop.ref).Ok?
    && var child := c.view(prop.ref).value;
    && Visible(child)
    && var entry := Info(c, t).fields[prop.name];
    && var fieldPath := JoinFieldPath(path, prop.name);
    && if FieldUsed(c, entry) then Reports(c, active, prop.ref, entry.typ, fieldPath, rest, m)
       else rest == [] && m == Member(fieldPath, prop.ref.pointer, child.xState)
  }

  /** Some route reports `m`. */
  ghost predicate Reported(c: Context, active: set<string>, ref: SchemaRef, goType: GoType, path: string, m: Member)
    requires Faithful(c)
  {
    exists route :: Reports(c, active, ref, goType, path, route, m)
  }

  // ---- The three ways the walk goes on ----

  lemma GapsOfElements(c: Context, active: set<string>, ref: SchemaRef, goType: GoType, path: string, v: View,
      elem: GoType)
    requires Faithful(c) && c.view(ref) == Ok(v) && Followed(c, active, v, Deref(goType))
    requires ElemOf(c.types[Deref(goType)].kind) == Some(elem) && v.items.Some?
    ensures GapsOf(c, active, ref, goType, path) ==
            GapsOf(c, active + {ActiveKey(v, Deref(goType))}, v.items.value, elem, path + "[]")
  {
    var active' := active + {ActiveKey(v, Deref(goType))};
    assert ViewGapsOf(c, active, ref, v, goType, path) == KindGapsOf(c, active', ref, v, Deref(goType), path);
    assert ViewGapsOf(c, active, ref, v, goType, path) == ElementGapsOf(c, active', ref, v, elem, path);
  }

  lemma GapsOfUnion(c: Context, active: set<string>, ref: SchemaRef, goType: GoType, path: string, v: View)
    requires Faithful(c) && c.view(ref) == Ok(v) && Followed(c, active, v, Deref(goType))
    requires UnionObject(c, v, Deref(goType)) && |v.oneOf| > 0
    ensures GapsOf(c, active, ref, goType, path) ==
            UnionGapsOf(c, active + {ActiveKey(v, Deref(goType))}, ref, v, Info(c, Deref(goType)).variants.value, 0,
                path)
  {
    var t := Deref(goType);
    var active' := active + {ActiveKey(v, t)};
    assert ViewGapsOf(c, active, ref, v, goType, path) == KindGapsOf(c, active', ref, v, t, path);
    assert ViewGapsOf(c, active, ref, v, goType, path) == ObjectGapsOf(c, active', ref, v, t, path);
    assert ObjectGapsOf(c, active', ref, v, t, path) == UnionOf(c, active', ref, v, Info(c, t).variants.value, path);
  }

  lemma GapsOfStruct(c: Context, active: set<string>, ref: SchemaRef, goType: GoType, path: string, v: View)
    requires Faithful(c) && c.view(ref) == Ok(v) && Followed(c, active, v, Deref(goType))
    requires PlainObject(c, v, Deref(goType))
    ensures var t := Deref(goType);
            var props := StructGapsOf(c, active + {ActiveKey(v, t)}, ref, v, 0, t, path).result;
            GapsOf(c, active, ref, goType, path).result ==
            if props.Ok? then Ok(AllMembers(props.value)) else Err(props.error)
  {
    var t := Deref(goType);
    var active' := active + {ActiveKey(v, t)};
    assert ViewGapsOf(c, active, ref, v, goType, path) == KindGapsOf(c, active', ref, v, t, path);
    assert ViewGapsOf(c, active, ref, v, goType, path) == ObjectGapsOf(c, active', ref, v, t, path);
  }

  /** A walk with something to report went on in one of them. */
  lemma NonemptyGoesOn(c: Context, active: set<string>, ref: SchemaRef, goType: GoType, path: string)
    requires Faithful(c)
    requires GapsOf(c, active, ref, goType, path).result.Ok? && GapsOf(c, active, ref, goType, path).result.value != []
    ensures c.view(ref).Ok? && Followed(c, active, c.view(ref).value, Deref(goType))
    ensures var v, t := c.view(ref).value, Deref(goType);
            || (ElemOf(c.types[t].kind).Some? && v.items.Some?)
            || (UnionObject(c, v, t) && |v.oneOf| > 0)
            || PlainObject(c, v, t)
  {
    var v, t := c.view(ref).value, Deref(goType);
    var active' := active + {ActiveKey(v, t)};
    assert GapsOf(c, active, ref, goType, path) == ViewGapsOf(c, active, ref, v, goType, path);
    assert Followed(c, active, v, t);
    assert ViewGapsOf(c, active, ref, v, goType, path) == KindGapsOf(c, active', ref, v, t, path);
    if ElemOf(c.types[t].kind).Some? {
      assert ViewGapsOf(c, active, ref, v, goType, path) ==
               ElementGapsOf(c, active', ref, v, ElemOf(c.types[t].kind).value, path);
    } else if c.types[t].kind.Struct? {
      assert ViewGapsOf(c, active, ref, v, goType, path) == ObjectGapsOf(c, active', ref, v, t, path);
      if Info(c, t).variants.Some? {
        assert ObjectGapsOf(c, active', ref, v, t, path) ==
                 UnionOf(c, active', ref, v, Info(c, t).variants.value, path);
      }
    }
  }

  // ---- The walk reports only what a route reaches ----

  lemma {:induction false} GapsSound(c: Context, active: set<string>, ref: SchemaRef, goType: GoType, path: string,
      m: Member) returns (route: seq<Hop>)
    requires Faithful(c)
    requires GapsOf(c, active, ref, goType, path).result.Ok? && m in GapsOf(c, active, ref, goType, path).result.value
    ensures Reports(c, active, ref, goType, path, route, m)
    decreases Budget(c, active, ref), 2, 0
  {
    NonemptyGoesOn(c, active, ref, goType, path);
    var v, t := c.view(ref).value, Deref(goType);
    if ElemOf(c.types[t].kind).Some? {
      route := ElementsSound(c, active, ref, goType, path, v, m);
    } else if Info(c, t).variants.Some? {
      route := BranchesSound(c, active, ref, goType, path, v, m);
    } else {
      route := FieldsSound(c, active, ref, goType, path, v, m);
    }
  }

  lemma {:induction false} ElementsSound(c: Context, active: set<string>, ref: SchemaRef, goType: GoType, path: string,
      v: View, m: Member) returns (route: seq<Hop>)
    requires Faithful(c) && c.view(ref) == Ok(v) && Followed(c, active, v, Deref(goType))
    requires ElemOf(c.types[Deref(goType)].kind).Some? && v.items.Some?
    requires GapsOf(c, active, ref, goType, path).result.Ok? && m in GapsOf(c, active, ref, goType, path).result.value
    ensures Reports(c, active, ref, goType, path, route, m)
    decreases Budget(c, active, ref), 1, 0
  {
    var t := Deref(goType);
    var active' := active + {ActiveKey(v, t)};
    var elem := ElemOf(c.types[t].kind).value;
    GapsOfElements(c, active, ref, goType, path, v, elem);
    DescentStep(c, active, ref, v, t);
    ItemsStep(c, active', ref, v);
    var rest := GapsSound(c, active', v.items.value, elem, path + "[]", m);
    route := [Element] + rest;
  }

  lemma {:induction false} BranchesSound(c: Context, active: set<string>, ref: SchemaRef, goType: GoType, path: string,
      v: View, m: Member) returns (route: seq<Hop>)
    requires Faithful(c) && c.view(ref) == Ok(v) && Followed(c, active, v, Deref(goType))
    requires UnionObject(c, v, Deref(goType)) && |v.oneOf| > 0
    requires GapsOf(c, active, ref, goType, path).result.Ok? && m in GapsOf(c, active, ref, goType, path).result.value
    ensures Reports(c, active, ref, goType, path, route, m)
    decreases Budget(c, active, ref), 1, 0
  {
    var t := Deref(goType);
    GapsOfUnion(c, active, ref, goType, path, v);
    DescentStep(c, active, ref, v, t);
    var i, rest := UnionSound(c, active + {ActiveKey(v, t)}, ref, v, Info(c, t).variants.value, 0, path, m);
    route := [Branch(i)] + rest;
  }

  lemma {:induction false} FieldsSound(c: Context, active: set<string>, ref: SchemaRef, goType: GoType, path: string,
      v: View, m: Member) returns (route: seq<Hop>)
    requires Faithful(c) && c.view(ref) == Ok(v) && Followed(c, active, v, Deref(goType))
    requires PlainObject(c, v, Deref(goType))
    requires GapsOf(c, active, ref, goType, path).result.Ok? && m in GapsOf(c, active, ref, goType, path).result.value
    ensures Reports(c, active, ref, goType, path, route, m)
    decreases Budget(c, active, ref), 1, 0
  {
    var t := Deref(goType);
    var active' := active + {ActiveKey(v, t)};
    GapsOfStruct(c, active, ref, goType, path, v);
    MemberOfAll(StructGapsOf(c, active', ref, v, 0, t, path).result.value, m);
    DescentStep(c, active, ref, v, t);
    var i, rest := StructSound(c, active', ref, v, 0, t, path, m);
    route := [Field(i)] + rest;
  }

  lemma {:induction false} MemberOfAll(gaps: seq<PropGap>, m: Member)
    ensures m in AllMembers(gaps) <==> exists g :: g in gaps && m in g.members
  {
    if gaps != [] {
      MemberOfAll(gaps[1..], m);
      assert gaps == [gaps[0]] + gaps[1..];
    }
  }

  lemma {:induction false} UnionSound(c: Context, active: set<string>, ref: SchemaRef, v: View, variants: seq<GoType>,
      from: nat, path: string, m: Member)
    returns (i: nat, rest: seq<Hop>)
    requires Faithful(c) && c.view(ref) == Ok(v) && from <= |v.oneOf| == |variants|
    requires UnionGapsOf(c, active, ref, v, variants, from, path).result.Ok?
    requires m in UnionGapsOf(c, active, ref, v, variants, from, path).result.value
    ensures i < |v.oneOf| && Reports(c, active, v.oneOf[i], variants[i], path, rest, m)
    decreases Budget(c, active, ref), 3, |v.oneOf| - from
  {
    BranchStep(c, active, ref, v, from);
    if m in GapsOf(c, active, v.oneOf[from], variants[from], path).result.value {
      i := from;
      rest := GapsSound(c, active, v.oneOf[from], variants[from], path, m);
    } else {
      i, rest := UnionSound(c, active, ref, v, variants, from + 1, path, m);
    }
  }

  lemma {:induction false} StructSound(c: Context, active: set<string>, ref: SchemaRef, v: View, from: nat, t: TypeId,
      path: string, m: Member)
    returns (i: nat, rest: seq<Hop>)
    requires Faithful(c) && c.view(ref) == Ok(v) && from <= |v.properties|
    requires StructGapsOf(c, active, ref, v, from, t, path).result.Ok?
    requires exists g :: g in StructGapsOf(c, active, ref, v, from, t, path).result.value && m in g.members
    ensures i < |v.properties| && FieldReports(c, active, v, i, t, path, rest, m)
    decreases Budget(c, active, ref), 3, |v.properties| - from
  {
    if g :| g in PropertyGap(c, active, ref, v, from, t, path).result.value && m in g.members {
      i := from;
      rest := PropertySound(c, active, ref, v, from, t, path, g, m);
    } else {
      i, rest := StructSound(c, active, ref, v, from + 1, t, path, m);
    }
  }

  /** Where the gap of one property comes from. */
  lemma GapOfProperty(c: Context, active: set<string>, ref: SchemaRef, v: View, i: nat, t: TypeId, path: string,
      g: PropGap)
    requires Faithful(c) && c.view(ref) == Ok(v) && i < |v.properties|
    requires var r := PropertyGap(c, active, ref, v, i, t, path).result; r.Ok? && g in r.value
    ensures var prop := v.properties[i];
            && prop.name in Info(c, t).fields && c.view(prop.ref).Ok? && Visible(c.view(prop.ref).value)
            && var entry := Info(c, t).fields[prop.name];
            && var fieldPath := JoinFieldPath(path, prop.name);
            && if FieldUsed(c, entry) then GapsOf(c, active, prop.ref, entry.typ, fieldPath).result == Ok(g.members)
               else g.members == [Member(fieldPath, prop.ref.pointer, c.view(prop.ref).value.xState)]
  {
  }

  lemma {:induction false} PropertySound(c: Context, active: set<string>, ref: SchemaRef, v: View, i: nat, t: TypeId,
      path: string, g: PropGap, m: Member) returns (rest: seq<Hop>)
    requires Faithful(c) && c.view(ref) == Ok(v) && i < |v.properties|
    requires var r := PropertyGap(c, active, ref, v, i, t, path).result; r.Ok? && g in r.value && m in g.members
    ensures FieldReports(c, active, v, i, t, path, rest, m)
    decreases Budget(c, active, ref), 3, 0
  {
    GapOfProperty(c, active, ref, v, i, t, path, g);
    var prop := v.properties[i];
    var entry := Info(c, t).fields[prop.name];
    if FieldUsed(c, entry) {
      PropertyStep(c, active, ref, v, i);
      rest := GapsSound(c, active, prop.ref, entry.typ, JoinFieldPath(path, prop.name), m);
    } else {
      rest := [];
    }
  }

  // ---- A walk that succeeds misses no route ----

  lemma {:induction false} GapsComplete(c: Context, active: set<string>, ref: SchemaRef, goType: GoType, path: string,
      route: seq<Hop>, m: Member)
    requires Faithful(c)
    requires GapsOf(c, active, ref, goType, path).result.Ok? && Reports(c, active, ref, goType, path, route, m)
    ensures m in GapsOf(c, active, ref, goType, path).result.value
    decreases |route|, 0, 0
  {
    var v := c.view(ref).value;
    var t := Deref(goType);
    var active' := active + {ActiveKey(v, t)};
    match route[0]
    case Element =>
      GapsOfElements(c, active, ref, goType, path, v, ElemOf(c.types[t].kind).value);
      GapsComplete(c, active', v.items.value, ElemOf(c.types[t].kind).value, path + "[]", route[1..], m);
    case Branch(i) =>
      GapsOfUnion(c, active, ref, goType, path, v);
      UnionComplete(c, active', ref, v, Info(c, t).variants.value, 0, path, i, route[1..], m);
    case Field(i) =>
      GapsOfStruct(c, active, ref, goType, path, v);
      StructComplete(c, active', ref, v, 0, t, path, i, route[1..], m);
      MemberOfAll(StructGapsOf(c, active', ref, v, 0, t, path).result.value, m);
  }

  lemma {:induction false} UnionComplete(c: Context, active: set<string>, ref: SchemaRef, v: View,
      variants: seq<GoType>, from: nat, path: string, i: nat, rest: seq<Hop>, m: Member)
    requires Faithful(c) && c.view(ref) == Ok(v) && from <= i < |v.oneOf| == |variants|
    requires UnionGapsOf(c, active, ref, v, variants, from, path).result.Ok?
    requires Reports(c, active, v.oneOf[i], variants[i], path, rest, m)
    ensures m in UnionGapsOf(c, active, ref, v, variants, from, path).result.value
    decreases |rest|, 1, i - from
  {
    if i == from {
      GapsComplete(c, active, v.oneOf[i], variants[i], path, rest, m);
    } else {
      UnionComplete(c, active, ref, v, variants, from + 1, path, i, rest, m);
    }
  }

  lemma {:induction false} StructComplete(c: Context, active: set<string>, ref: SchemaRef, v: View, from: nat,
      t: TypeId, path: string, i: nat, rest: seq<Hop>, m: Member)
    requires Faithful(c) && c.view(ref) == Ok(v) && from <= i < |v.properties|
    requires StructGapsOf(c, active, ref, v, from, t, path).result.Ok?
    requires FieldReports(c, active, v, i, t, path, rest, m)
    ensures exists g :: g in StructGapsOf(c, active, ref, v, from, t, path).result.value && m in g.members
    decreases |rest|, 1, i - from
  {
    var first := PropertyGap(c, active, ref, v, from, t, path);
    var later := StructGapsOf(c, active, ref, v, from + 1, t, path);
    if i == from {
      var prop := v.properties[i];
      var entry := Info(c, t).fields[prop.name];
      if FieldUsed(c, entry) {
        GapsComplete(c, active, prop.ref, entry.typ, JoinFieldPath(path, prop.name), rest, m);
      }
      assert m in first.result.value[0].members;
      assert first.result.value[0] in first.result.value + later.result.value;
    } else {
      StructComplete(c, active, ref, v, from + 1, t, path, i, rest, m);
      var g :| g in later.result.value && m in g.members;
      assert g in first.result.value + later.result.value;
    }
  }

  /** The members of a successful walk are exactly the unused fields that routes of used fields reach. */
  lemma GapsExact(c: Context, active: set<string>, ref: SchemaRef, goType: GoType, path: string, m: Member)
    requires Faithful(c) && GapsOf(c, active, ref, goType, path).result.Ok?
    ensures m in GapsOf(c, active, ref, goType, path).result.value <==>
            Reported(c, active, ref, goType, path, m)
  {
    if m in GapsOf(c, active, ref, goType, path).result.value {
      var route := GapsSound(c, active, ref, goType, path, m);
      assert Reports(c, active, ref, goType, path, route, m);
    } else {
      forall route
        ensures !Reports(c, active, ref, goType, path, route, m)
      {
        if Reports(c, active, ref, goType, path, route, m) {
          GapsComplete(c, active, ref, goType, path, route, m);
          assert false;
        }
      }
    }
  }

  // ---- Over-counting usage ----

  /** The same field path, or one strictly beneath it. */
  ghost predicate Beneath(path: string, top: string) {
    path == top || (top < path && (path[|top|] == '.' || path[|top|] == '['))
  }

  /** `more` is `c` with at least its usage marks. */
  ghost predicate Overcounts(more: Context, c: Context) {
    && more == c.(usage := more.usage)
    && c.usage.fields <= more.usage.fields
    && c.usage.opaqueTypes <= more.usage.opaqueTypes
  }

  /** `jsonFields` never yields an empty JSON name. */
  ghost predicate NamedFields(c: Context) {
    forall t :: t in c.types ==> "" !in c.types[t].fields
  }

  lemma {:induction false} ReportsBeneath(c: Context, active: set<string>, ref: SchemaRef, goType: GoType, path: string,
      route: seq<Hop>, m: Member)
    requires Faithful(c) && path != "" && Reports(c, active, ref, goType, path, route, m)
    ensures Beneath(m.field, path) && m.field != path
    decreases |route|
  {
    var v := c.view(ref).value;
    var t := Deref(goType);
    var active' := active + {ActiveKey(v, t)};
    match route[0]
    case Element =>
      ReportsBeneath(c, active', v.items.value, ElemOf(c.types[t].kind).value, path + "[]", route[1..], m);
    case Branch(i) =>
      ReportsBeneath(c, active', v.oneOf[i], Info(c, t).variants.value[i], path, route[1..], m);
    case Field(i) =>
      var prop := v.properties[i];
      var entry := Info(c, t).fields[prop.name];
      if FieldUsed(c, entry) {
        ReportsBeneath(c, active', prop.ref, entry.typ, path + "." + prop.name, route[1..], m);
      }
  }

  /** A route under more usage passes, or ends at, a field that less usage leaves unused. */
  lemma {:induction false} RouteUnderLessUsage(c: Context, more: Context, active: set<string>, ref: SchemaRef,
      goType: GoType, path: string, route: seq<Hop>, m: Member)
    returns (route': seq<Hop>, m': Member)
    requires Faithful(c) && Faithful(more) && Overcounts(more, c) && NamedFields(c)
    requires Reports(more, active, ref, goType, path, route, m)
    ensures Reports(c, active, ref, goType, path, route', m') && Beneath(m.field, m'.field)
    decreases |route|, 0
  {
    var v := c.view(ref).value;
    var t := Deref(goType);
    var active' := active + {ActiveKey(v, t)};
    assert Followed(c, active, v, t);
    var rest;
    match route[0]
    case Element =>
      rest, m' := RouteUnderLessUsage(c, more, active', v.items.value, ElemOf(c.types[t].kind).value, path + "[]",
          route[1..], m);
      route' := [Element] + rest;
    case Branch(i) =>
      rest, m' := RouteUnderLessUsage(c, more, active', v.oneOf[i], Info(c, t).variants.value[i], path, route[1..], m);
      route' := [Branch(i)] + rest;
    case Field(i) =>
      rest, m' := FieldUnderLessUsage(c, more, active', v, i, t, path, route[1..], m);
      route' := [Field(i)] + rest;
  }

  lemma {:induction false} FieldUnderLessUsage(c: Context, more: Context, active: set<string>, v: View, i: nat,
      t: TypeId, path: string, rest: seq<Hop>, m: Member)
    returns (rest': seq<Hop>, m': Member)
    requires Faithful(c) && Faithful(more) && Overcounts(more, c) && NamedFields(c)
    requires i < |v.properties| && FieldReports(more, active, v, i, t, path, rest, m)
    ensures FieldReports(c, active, v, i, t, path, rest', m') && Beneath(m.field, m'.field)
    decreases |rest|, 1
  {
    var prop := v.properties[i];
    var entry := Info(c, t).fields[prop.name];
    var fieldPath := JoinFieldPath(path, prop.name);
    if FieldUsed(c, entry) {
      rest', m' := RouteUnderLessUsage(c, more, active, prop.ref, entry.typ, fieldPath, rest, m);
    } else {
      rest', m' := [], Member(fieldPath, prop.ref.pointer, c.view(prop.ref).value.xState);
      if FieldUsed(more, entry) {
        assert prop.name != "";
        ReportsBeneath(more, active, prop.ref, entry.typ, fieldPath, rest, m);
      }
    }
  }

  /** Over-counting usage can hide gaps but never invents one. */
  lemma OvercountingNeverInvents(c: Context, more: Context, active: set<string>, ref: SchemaRef, goType: GoType,
      path: string, m: Member)
    requires Faithful(c) && Faithful(more) && Overcounts(more, c) && NamedFields(c)
    requires GapsOf(c, active, ref, goType, path).result.Ok? && GapsOf(more, active, ref, goType, path).result.Ok?
    requires m in GapsOf(more, active, ref, goType, path).result.value
    ensures exists m' :: m' in GapsOf(c, active, ref, goType, path).result.value && Beneath(m.field, m'.field)
  {
    var route := GapsSound(more, active, ref, goType, path, m);
    var route', m' := RouteUnderLessUsage(c, more, active, ref, goType, path, route, m);
    GapsComplete(c, active, ref, goType, path, route', m');
  }

  // ---- Whole request bodies ----

  predicate BodyFollowed(c: Context, v: View, t: TypeId) {
    v.unsupported == "" && !IsOpaque(c, t)
  }

  /** Routes through a body: union branches first, then a top-level field. */
  ghost predicate BodyReports(c: Context, active: set<string>, ref: SchemaRef, goType: GoType, route: seq<Hop>,
      m: Member)
    requires Faithful(c)
    decreases |route|
  {
    && route != [] && c.view(ref).Ok?
    && var v := c.view(ref).value;
    && var t := Deref(goType);
    && BodyFollowed(c, v, t)
    && match route[0]
       case Element => false
       case Branch(i) =>
         && Info(c, t).variants.Some? && i < |v.oneOf| == |Info(c, t).variants.value|
         && BodyReports(c, active, v.oneOf[i], Info(c, t).variants.value[i], route[1..], m)
       case Field(i) =>
         && Info(c, t).variants.None? && Info(c, t).kind.Struct? && i < |v.properties|
         && FieldReports(c, active, v, i, t, "", route[1..], m)
  }

  ghost predicate HasMember(gaps: seq<PropGap>, m: Member) {
    exists g :: g in gaps && m in g.members
  }

  lemma {:induction false} BodySound(c: Context, active: set<string>, ref: SchemaRef, goType: GoType, m: Member)
    returns (route: seq<Hop>)
    requires Faithful(c) && UnionsEnd(ReadingOf(c), ref, goType)
    requires BodyGapsOf(c, active, ref, goType).result.Ok? &&
               HasMember(BodyGapsOf(c, active, ref, goType).result.value, m)
    ensures BodyReports(c, active, ref, goType, route, m)
    decreases UnionDepth(ReadingOf(c), ref, goType), 1, 0
  {
    var v := c.view(ref).value;
    var t := Deref(goType);
    assert BodyFollowed(c, v, t);
    if Info(c, t).variants.Some? {
      var variants := Info(c, t).variants.value;
      assert BodyGapsOf(c, active, ref, goType) == BodyUnionOf(c, active, ref, goType, v, variants, 0);
      var i, rest := BodyUnionSound(c, active, ref, goType, v, variants, 0, m);
      route := [Branch(i)] + rest;
    } else {
      assert BodyGapsOf(c, active, ref, goType) == StructGapsOf(c, active, ref, v, 0, t, "");
      var i, rest := StructSound(c, active, ref, v, 0, t, "", m);
      route := [Field(i)] + rest;
    }
  }

  lemma {:induction false} BodyUnionSound(c: Context, active: set<string>, ref: SchemaRef, goType: GoType, v: View,
      variants: seq<GoType>, from: nat, m: Member)
    returns (i: nat, rest: seq<Hop>)
    requires Faithful(c) && UnionsEnd(ReadingOf(c), ref, goType) && c.view(ref) == Ok(v) && v.unsupported == ""
    requires !IsOpaque(c, Deref(goType))
    requires Info(c, Deref(goType)).variants == Some(variants) && from <= |v.oneOf| == |variants|
    requires BodyUnionOf(c, active, ref, goType, v, variants, from).result.Ok?
    requires HasMember(BodyUnionOf(c, active, ref, goType, v, variants, from).result.value, m)
    ensures i < |v.oneOf| && BodyReports(c, active, v.oneOf[i], variants[i], rest, m)
    decreases UnionDepth(ReadingOf(c), ref, goType), 0, |v.oneOf| - from
  {
    UnionDepthDrops(c, ref, goType, v, variants, from);
    var first := BodyGapsOf(c, active, v.oneOf[from], variants[from]);
    var later := BodyUnionOf(c, active, ref, goType, v, variants, from + 1);
    assert BodyUnionOf(c, active, ref, goType, v, variants, from) == Then(first, later);
    if HasMember(first.result.value, m) {
      i := from;
      rest := BodySound(c, active, v.oneOf[from], variants[from], m);
    } else {
      assert HasMember(later.result.value, m);
      i, rest := BodyUnionSound(c, active, ref, goType, v, variants, from + 1, m);
    }
  }

  lemma {:induction false} BodyComplete(c: Context, active: set<string>, ref: SchemaRef, goType: GoType,
      route: seq<Hop>, m: Member)
    requires Faithful(c) && UnionsEnd(ReadingOf(c), ref, goType)
    requires BodyGapsOf(c, active, ref, goType).result.Ok? && BodyReports(c, active, ref, goType, route, m)
    ensures HasMember(BodyGapsOf(c, active, ref, goType).result.value, m)
    decreases |route|, 0, 0
  {
    var v := c.view(ref).value;
    var t := Deref(goType);
    match route[0]
    case Branch(i) =>
      var variants := Info(c, t).variants.value;
      assert BodyGapsOf(c, active, ref, goType) == BodyUnionOf(c, active, ref, goType, v, variants, 0);
      BodyUnionComplete(c, active, ref, goType, v, variants, 0, i, route[1..], m);
    case Field(i) =>
      assert BodyGapsOf(c, active, ref, goType) == StructGapsOf(c, active, ref, v, 0, t, "");
      StructComplete(c, active, ref, v, 0, t, "", i, route[1..], m);
  }

  lemma {:induction false} BodyUnionComplete(c: Context, active: set<string>, ref: SchemaRef, goType: GoType, v: View,
      variants: seq<GoType>, from: nat, i: nat, rest: seq<Hop>, m: Member)
    requires Faithful(c) && UnionsEnd(ReadingOf(c), ref, goType) && c.view(ref) == Ok(v) && v.unsupported == ""
    requires !IsOpaque(c, Deref(goType))
    requires Info(c, Deref(goType)).variants == Some(variants) && from <= i < |v.oneOf| == |variants|
    requires BodyUnionOf(c, active, ref, goType, v, variants, from).result.Ok?
    requires BodyReports(c, active, v.oneOf[i], variants[i], rest, m)
    ensures HasMember(BodyUnionOf(c, active, ref, goType, v, variants, from).result.value, m)
    decreases |rest|, 1, i - from
  {
    UnionDepthDrops(c, ref, goType, v, variants, from);
    var first := BodyGapsOf(c, active, v.oneOf[from], variants[from]);
    var later := BodyUnionOf(c, active, ref, goType, v, variants, from + 1);
    assert BodyUnionOf(c, active, ref, goType, v, variants, from) == Then(first, later);
    if i == from {
      BodyComplete(c, active, v.oneOf[i], variants[i], rest, m);
      var g :| g in first.result.value && m in g.members;
      assert g in first.result.value + later.result.value;
    } else {
      BodyUnionComplete(c, active, ref, goType, v, variants, from + 1, i, rest, m);
      var g :| g in later.result.value && m in g.members;
      assert g in first.result.value + later.result.value;
    }
  }

  ghost predicate BodyReported(c: Context, active: set<string>, ref: SchemaRef, goType: GoType, m: Member)
    requires Faithful(c)
  {
    exists route :: BodyReports(c, active, ref, goType, route, m)
  }

  /** The members of a successfully walked body are exactly the unused fields its routes reach. */
  lemma BodyExact(c: Context, active: set<string>, ref: SchemaRef, goType: GoType, m: Member)
    requires Faithful(c) && UnionsEnd(ReadingOf(c), ref, goType) && BodyGapsOf(c, active, ref, goType).result.Ok?
    ensures HasMember(BodyGapsOf(c, active, ref, goType).result.value, m) <==> BodyReported(c, active, ref, goType, m)
  {
    if HasMember(BodyGapsOf(c, active, ref, goType).result.value, m) {
      var route := BodySound(c, active, ref, goType, m);
      assert BodyReports(c, active, ref, goType, route, m);
    } else {
      forall route
        ensures !BodyReports(c, active, ref, goType, route, m)
      {
        if BodyReports(c, active, ref, goType, route, m) {
          BodyComplete(c, active, ref, goType, route, m);
          assert false;
        }
      }
    }
  }

  lemma {:induction false} BodyRouteUnderLessUsage(c: Context, more: Context, active: set<string>, ref: SchemaRef,
      goType: GoType, route: seq<Hop>, m: Member)
    returns (route': seq<Hop>, m': Member)
    requires Faithful(c) && Faithful(more) && Overcounts(more, c) && NamedFields(c)
    requires BodyReports(more, active, ref, goType, route, m)
    ensures BodyReports(c, active, ref, goType, route', m') && Beneath(m.field, m'.field)
    decreases |route|
  {
    var v := c.view(ref).value;
    var t := Deref(goType);
    assert BodyFollowed(c, v, t);
    var rest;
    match route[0]
    case Branch(i) =>
      rest, m' := BodyRouteUnderLessUsage(c, more, active, v.oneOf[i], Info(c, t).variants.value[i], route[1..], m);
      route' := [Branch(i)] + rest;
    case Field(i) =>
      rest, m' := FieldUnderLessUsage(c, more, active, v, i, t, "", route[1..], m);
      route' := [Field(i)] + rest;
  }

  /** If the walk of a body ends, it also ends with more usage marks. */
  lemma MoreUsageEnds(c: Context, more: Context, ref: SchemaRef, goType: GoType)
    requires Overcounts(more, c) && UnionsEnd(ReadingOf(c), ref, goType)
    ensures UnionsEnd(ReadingOf(more), ref, goType)
  {
    var n: nat :| EndsWithin(ReadingOf(c), ref, goType, n);
    MoreOpaqueEnds(ReadingOf(c), ReadingOf(more), ref, goType, n);
  }

  /** Over-counting usage never invents a gap in a whole request body. */
  lemma BodyOvercounting(c: Context, more: Context, active: set<string>, ref: SchemaRef, goType: GoType, m: Member)
    requires Faithful(c) && Faithful(more) && Overcounts(more, c) && NamedFields(c)
    requires UnionsEnd(ReadingOf(c), ref, goType) && UnionsEnd(ReadingOf(more), ref, goType)
    requires BodyGapsOf(c, active, ref, goType).result.Ok? && BodyGapsOf(more, active, ref, goType).result.Ok?
    requires HasMember(BodyGapsOf(more, active, ref, goType).result.value, m)
    ensures exists m' :: HasMember(BodyGapsOf(c, active, ref, goType).result.value, m') && Beneath(m.field, m'.field)
  {
    var route := BodySound(more, active, ref, goType, m);
    var route', m' := BodyRouteUnderLessUsage(c, more, active, ref, goType, route, m);
    BodyComplete(c, active, ref, goType, route', m');
  }

  // ---- Query parameters ----

  lemma ParamOvercounting(c: Context, more: Context, active: set<string>, param: Param, entry: JsonField, m: Member)
    requires Faithful(c) && Faithful(more) && Overcounts(more, c) && NamedFields(c) && param.name != ""
    requires ParamGap(c, active, param, entry).result.Ok? && ParamGap(more, active, param, entry).result.Ok?
    requires m in ParamGap(more, active, param, entry).result.value
    ensures exists m' :: m' in ParamGap(c, active, param, entry).result.value && Beneath(m.field, m'.field)
  {
    if FieldUsed(c, entry) {
      var ref := SchemaRef(MappingValue(param.ref.node, "schema").value, param.ref.pointer + "/schema");
      OvercountingNeverInvents(c, more, active, ref, entry.typ, param.name, m);
    } else {
      var own := Member(param.name, param.ref.pointer, StringValue(param.ref.node, "x-state"));
      assert own in ParamGap(c, active, param, entry).result.value;
      if FieldUsed(more, entry) {
        var ref := SchemaRef(MappingValue(param.ref.node, "schema").value, param.ref.pointer + "/schema");
        var route := GapsSound(more, active, ref, entry.typ, param.name, m);
        ReportsBeneath(more, active, ref, entry.typ, param.name, route, m);
      }
    }
  }

  /** Over-counting usage never invents a gap among the query parameters of an operation. */
  lemma {:induction false} QueryOvercounting(c: Context, more: Context, active: set<string>, params: seq<Param>,
      fields: map<string, JsonField>, m: Member)
    requires Faithful(c) && Faithful(more) && Overcounts(more, c) && NamedFields(c) && "" !in fields
    requires QueryGapsOf(c, active, params, fields).result.Ok? && QueryGapsOf(more, active, params, fields).result.Ok?
    requires HasMember(QueryGapsOf(more, active, params, fields).result.value, m)
    ensures exists m' :: HasMember(QueryGapsOf(c, active, params, fields).result.value, m') &&
              Beneath(m.field, m'.field)
    decreases |params|
  {
    if params[0].deprecated {
      QueryOvercounting(c, more, active, params[1..], fields, m);
    } else {
      var entry := fields[params[0].name];
      var head, head' := QueryHead(c, active, params, fields), QueryHead(more, active, params, fields);
      var tail := QueryGapsOf(c, active, params[1..], fields).result.value;
      var tail' := QueryGapsOf(more, active, params[1..], fields).result.value;
      var g :| g in [head'] + tail' && m in g.members;
      if g == head' {
        ParamOvercounting(c, more, active, params[0], entry, m);
        var m' :| m' in head.members && Beneath(m.field, m'.field);
        assert head in [head] + tail;
        assert HasMember([head] + tail, m');
      } else {
        assert HasMember(tail', m);
        QueryOvercounting(c, more, active, params[1..], fields, m);
        var m' :| HasMember(tail, m') && Beneath(m.field, m'.field);
        var g' :| g' in tail && m' in g'.members;
        assert g' in [head] + tail;
        assert HasMember([head] + tail, m');
      }
    }
  }

  /** The entry of the first parameter, when it is not deprecated. */
  ghost function QueryHead(c: Context, active: set<string>, params: seq<Param>,
      fields: map<string, JsonField>): (g: PropGap)
    requires Faithful(c) && params != [] && !params[0].deprecated && QueryGapsOf(c, active, params, fields).result.Ok?
    ensures g.members == ParamGap(c, active, params[0], fields[params[0].name]).result.value
    ensures QueryGapsOf(c, active, params[1..], fields).result.Ok?
    ensures QueryGapsOf(c, active, params, fields).result.value ==
              [g] + QueryGapsOf(c, active, params[1..], fields).result.value
  {
    QueryGapsOf(c, active, params, fields).result.value[0]
  }
}

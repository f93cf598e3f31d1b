/** The gap walk: a request schema and its Go type followed in lockstep, reporting every request
    field that no reachable code uses. */
module Walk {
  import opened Collections
  import opened Text
  import opened Oas
  import opened SchemaView
  import opened Gaps

  // ---- Go types as a finite graph, usage as marks ----

  type TypeId = string

  datatype GoType = Pointer(elem: GoType) | Type(id: TypeId)

  function Deref(t: GoType): TypeId {
    match t
    case Pointer(elem) => Deref(elem)
    case Type(id) => id
  }

  datatype Kind = SliceOf(elem: GoType) | ArrayOf(elem: GoType) | Struct | Map | Interface | Basic

  datatype JsonField = JsonField(owner: TypeId, goName: string, typ: GoType)

  /** `variants` is what `unionVariants` yields, `source` the type a defined type was declared from. */
  datatype TypeInfo = TypeInfo(kind: Kind, fields: map<string, JsonField>, variants: Option<seq<GoType>>,
      source: Option<TypeId>)

  datatype Usage = Usage(fields: set<(TypeId, string)>, opaqueTypes: set<TypeId>)

  /** One resource's walk.  `view` is the document's own `view` operation; see `Faithful`. */
  datatype Context = Context(root: Node, view: SchemaRef -> Result<View>, types: map<TypeId, TypeInfo>, usage: Usage,
      resource: string)

  datatype Param = Param(name: string, deprecated: bool, ref: SchemaRef)

  ghost predicate ViewFact(c: Context, ref: SchemaRef) {
    AllOfAcyclic(c.root) && c.view(ref) == ViewOf(c.root, ref)
  }

  /** `view` is the view of the document, which therefore has no cycle made only of `allOf` edges. */
  ghost predicate Faithful(c: Context) {
    forall ref :: ViewFact(c, ref)
  }

  /** Every document without such a cycle has a walk, whatever the Go types and the usage. */
  lemma ContextExists(root: Node, types: map<TypeId, TypeInfo>, usage: Usage, resource: string) returns (c: Context)
    requires AllOfAcyclic(root)
    ensures Faithful(c) && c.root == root && c.types == types && c.usage == usage && c.resource == resource
  {
    c := Context(root, ref => ViewOf(root, ref), types, usage, resource);
  }

  function Info(c: Context, t: TypeId): TypeInfo {
    if t in c.types then c.types[t] else TypeInfo(Basic, map[], None, None)
  }

  predicate FieldUsed(c: Context, f: JsonField) {
    (f.owner, f.goName) in c.usage.fields
  }

  predicate IsOpaque(c: Context, t: TypeId) {
    OpaqueIn(c.types, c.usage.opaqueTypes, t)
  }

  predicate OpaqueIn(types: map<TypeId, TypeInfo>, opaqueTypes: set<TypeId>, t: TypeId) {
    t in opaqueTypes || (t in types && types[t].source.Some? && types[t].source.value in opaqueTypes)
  }

  function JoinFieldPath(path: string, name: string): string {
    if path == "" then name else path + "." + name
  }

  function ActiveKey(v: View, t: TypeId): string {
    v.pointer + "|" + t
  }

  // ---- What a walk yields: members or an error, and the shapes skipped on the way ----

  datatype Outcome<T> = Outcome(result: Result<seq<T>>, skipped: seq<SkippedShape>)

  function Nothing<T>(): Outcome<T> {
    Outcome(Ok([]), [])
  }

  function Fail<T>(e: Error): Outcome<T> {
    Outcome(Err(e), [])
  }

  function SkipOne<T>(c: Context, pointer: string, shape: string): Outcome<T> {
    Outcome(Ok([]), [SkippedShape(c.resource, pointer, shape)])
  }

  /** Results of a first step followed by those of the rest. */
  function Then<T>(first: Outcome<T>, rest: Outcome<T>): Outcome<T>
    requires first.result.Ok?
  {
    Outcome(if rest.result.Ok? then Ok(first.result.value + rest.result.value) else rest.result,
            first.skipped + rest.skipped)
  }

  function AllMembers(gaps: seq<PropGap>): seq<Member> {
    if gaps == [] then [] else gaps[0].members + AllMembers(gaps[1..])
  }

  // ---- Termination: the keys that can still become active ----

  ghost function Keys(c: Context, ref: SchemaRef): set<string> {
    set r, t | r in Reach(c.root, ref) && t in c.types :: r.pointer + "|" + t
  }

  ghost function Budget(c: Context, active: set<string>, ref: SchemaRef): nat {
    |Keys(c, ref) - active|
  }

  /** Moving to something within reach never raises the budget. */
  lemma BudgetShrinks(c: Context, active: set<string>, ref: SchemaRef, r: SchemaRef)
    requires r in Reach(c.root, ref)
    ensures Budget(c, active, r) <= Budget(c, active, ref)
  {
    ReachShrinks(c.root, ref, r);
    assert Keys(c, r) <= Keys(c, ref);
    SubsetSize(Keys(c, r) - active, Keys(c, ref) - active);
  }

  /** Activating a fresh key of a known type lowers it. */
  lemma BudgetDrops(c: Context, active: set<string>, ref: SchemaRef, v: View, t: TypeId)
    requires SchemaRef(v.node, v.pointer) in Reach(c.root, ref) && t in c.types && ActiveKey(v, t) !in active
    ensures Budget(c, active + {ActiveKey(v, t)}, ref) < Budget(c, active, ref)
  {
    var key := ActiveKey(v, t);
    assert SchemaRef(v.node, v.pointer).pointer + "|" + t in Keys(c, ref);
    SubsetSize(Keys(c, ref) - (active + {key}), Keys(c, ref) - active);
    assert key in Keys(c, ref) - active;
  }

  lemma ViewInReach(c: Context, ref: SchemaRef)
    requires Faithful(c) && c.view(ref).Ok?
    ensures ViewIn(c.view(ref).value, Reach(c.root, ref))
  {
    assert ViewFact(c, ref);
    ReachIsClosed(c.root, ref);
    ViewStaysIn(c.root, ref, Reach(c.root, ref));
  }

  lemma DescentStep(c: Context, active: set<string>, ref: SchemaRef, v: View, t: TypeId)
    requires Faithful(c) && c.view(ref) == Ok(v) && t in c.types && ActiveKey(v, t) !in active
    ensures Budget(c, active + {ActiveKey(v, t)}, ref) < Budget(c, active, ref)
  {
    ViewInReach(c, ref);
    BudgetDrops(c, active, ref, v, t);
  }

  lemma ItemsStep(c: Context, active: set<string>, ref: SchemaRef, v: View)
    requires Faithful(c) && c.view(ref) == Ok(v) && v.items.Some?
    ensures Budget(c, active, v.items.value) <= Budget(c, active, ref)
  {
    ViewInReach(c, ref);
    BudgetShrinks(c, active, ref, v.items.value);
  }

  lemma BranchStep(c: Context, active: set<string>, ref: SchemaRef, v: View, i: nat)
    requires Faithful(c) && c.view(ref) == Ok(v) && i < |v.oneOf|
    ensures Budget(c, active, v.oneOf[i]) <= Budget(c, active, ref)
  {
    ViewInReach(c, ref);
    BudgetShrinks(c, active, ref, v.oneOf[i]);
  }

  lemma PropertyStep(c: Context, active: set<string>, ref: SchemaRef, v: View, i: nat)
    requires Faithful(c) && c.view(ref) == Ok(v) && i < |v.properties|
    ensures Budget(c, active, v.properties[i].ref) <= Budget(c, active, ref)
  {
    ViewInReach(c, ref);
    assert v.properties[i] in v.properties;
    BudgetShrinks(c, active, ref, v.properties[i].ref);
  }

  // ---- The walk as a function ----

  function GapsOf(c: Context, active: set<string>, ref: SchemaRef, goType: GoType, path: string): Outcome<Member>
    requires Faithful(c)
    decreases Budget(c, active, ref), 2, 0
  {
    match c.view(ref)
    case Err(e) => Fail(e)
    case Ok(v) => ViewGapsOf(c, active, ref, v, goType, path)
  }

  function ViewGapsOf(c: Context, active: set<string>, ref: SchemaRef, v: View, goType: GoType,
      path: string): Outcome<Member>
    requires Faithful(c) && c.view(ref) == Ok(v)
    decreases Budget(c, active, ref), 1, 0
  {
    var t := Deref(goType);
    var key := ActiveKey(v, t);
    if v.deprecated || v.readOnly then Nothing()
    else if v.unsupported != "" then SkipOne(c, ref.pointer, v.unsupported)
    else if IsOpaque(c, t) || key in active || t !in c.types then Nothing()
    else
      DescentStep(c, active, ref, v, t);
      KindGapsOf(c, active + {key}, ref, v, t, path)
  }

  /** Beyond the guard: what the kind of the Go type calls for. */
  function KindGapsOf(c: Context, active: set<string>, ref: SchemaRef, v: View, t: TypeId,
      path: string): Outcome<Member>
    requires Faithful(c) && c.view(ref) == Ok(v) && t in c.types
    decreases Budget(c, active, ref), 6, 0
  {
    match c.types[t].kind
    case SliceOf(elem) => ElementGapsOf(c, active, ref, v, elem, path)
    case ArrayOf(elem) => ElementGapsOf(c, active, ref, v, elem, path)
    case Struct => ObjectGapsOf(c, active, ref, v, t, path)
    case Map => SkipOne(c, ref.pointer, "map-valued field: dynamic keys cannot be proven unused")
    case Interface => SkipOne(c, ref.pointer, "untyped value: contents cannot be proven unused")
    case Basic => Nothing()
  }

  function ElementGapsOf(c: Context, active: set<string>, ref: SchemaRef, v: View, elem: GoType,
      path: string): Outcome<Member>
    requires Faithful(c) && c.view(ref) == Ok(v)
    decreases Budget(c, active, ref), 3, 0
  {
    if v.items.None? then Nothing()
    else
      ItemsStep(c, active, ref, v);
      GapsOf(c, active, v.items.value, elem, path + "[]")
  }

  function ObjectGapsOf(c: Context, active: set<string>, ref: SchemaRef, v: View, t: TypeId,
      path: string): Outcome<Member>
    requires Faithful(c) && c.view(ref) == Ok(v)
    decreases Budget(c, active, ref), 5, 0
  {
    var variants := Info(c, t).variants;
    if variants.Some? then UnionOf(c, active, ref, v, variants.value, path)
    else if |v.oneOf| > 0 then SkipOne(c, ref.pointer, "oneOf or anyOf without a union Go type")
    else
      var props := StructGapsOf(c, active, ref, v, 0, t, path);
      Outcome(if props.result.Ok? then Ok(AllMembers(props.result.value)) else Err(props.result.error), props.skipped)
  }

  function UnionOf(c: Context, active: set<string>, ref: SchemaRef, v: View, variants: seq<GoType>,
      path: string): Outcome<Member>
    requires Faithful(c) && c.view(ref) == Ok(v)
    decreases Budget(c, active, ref), 4, 0
  {
    if |v.oneOf| == 0 then SkipOne(c, ref.pointer, "union Go type without oneOf or anyOf")
    else if |v.oneOf| != |variants| then Fail(BranchMismatch(ref.pointer, |v.oneOf|, |variants|))
    else UnionGapsOf(c, active, ref, v, variants, 0, path)
  }

  function UnionGapsOf(c: Context, active: set<string>, ref: SchemaRef, v: View, variants: seq<GoType>, i: nat,
      path: string): Outcome<Member>
    requires Faithful(c) && c.view(ref) == Ok(v) && i <= |v.oneOf| == |variants|
    decreases Budget(c, active, ref), 3, |v.oneOf| - i
  {
    if i == |v.oneOf| then Nothing()
    else
      BranchStep(c, active, ref, v, i);
      var found := GapsOf(c, active, v.oneOf[i], variants[i], path);
      if found.result.Err? then found
      else Then(found, UnionGapsOf(c, active, ref, v, variants, i + 1, path))
  }

  /** The fields of the Go struct that no property matched. */
  function UnmatchedGoFields(c: Context, v: View, t: TypeId): set<string> {
    Info(c, t).fields.Keys - Names(v.properties)
  }

  function StructGapsOf(c: Context, active: set<string>, ref: SchemaRef, v: View, i: nat, t: TypeId,
      path: string): Outcome<PropGap>
    requires Faithful(c) && c.view(ref) == Ok(v) && i <= |v.properties|
    decreases Budget(c, active, ref), 3, |v.properties| - i
  {
    if i == |v.properties| then
      if UnmatchedGoFields(c, v, t) == {} then Nothing() else Fail(UnmatchedFields(UnmatchedGoFields(c, v, t)))
    else
      var first := PropertyGap(c, active, ref, v, i, t, path);
      if first.result.Err? then first
      else Then(first, StructGapsOf(c, active, ref, v, i + 1, t, path))
  }

  /** One turn of the property loop: at most one entry. */
  function PropertyGap(c: Context, active: set<string>, ref: SchemaRef, v: View, i: nat, t: TypeId,
      path: string): Outcome<PropGap>
    requires Faithful(c) && c.view(ref) == Ok(v) && i < |v.properties|
    decreases Budget(c, active, ref), 2, 0
  {
    var prop := v.properties[i];
    if prop.name !in Info(c, t).fields then Fail(UnmatchedProperty(prop.name, prop.ref.pointer))
    else
      match c.view(prop.ref)
      case Err(e) => Fail(e)
      case Ok(child) =>
        if child.deprecated || child.readOnly then Nothing()
        else if child.unsupported != "" then SkipOne(c, prop.ref.pointer, child.unsupported)
        else
          var entry := Info(c, t).fields[prop.name];
          var fieldPath := JoinFieldPath(path, prop.name);
          if FieldUsed(c, entry) then
            PropertyStep(c, active, ref, v, i);
            var found := ViewGapsOf(c, active, prop.ref, child, entry.typ, fieldPath);
            Outcome(if found.result.Ok? then Ok([PropGap(prop.name, prop.ref, prop.required, found.result.value,
                false)])
                    else Err(found.result.error),
                    found.skipped)
          else
            Outcome(Ok([PropGap(prop.name, prop.ref, prop.required, [Member(fieldPath, prop.ref.pointer, child.xState)],
                false)]), [])
  }

  // ---- Request bodies ----

  /** All that the nesting of unions depends on: the views, the types they are read against, and which are opaque. */
  datatype Reading = Reading(view: SchemaRef -> Result<View>, types: map<TypeId, TypeInfo>, opaqueTypes: set<TypeId>)

  function ReadingOf(c: Context): Reading {
    Reading(c.view, c.types, c.usage.opaqueTypes)
  }

  /** The i-th branch of a union body, read as the i-th variant. */
  ghost predicate IsBranch(g: Reading, ref: SchemaRef, goType: GoType, i: nat, branch: SchemaRef, variant: GoType) {
    && g.view(ref).Ok? && Deref(goType) in g.types && !OpaqueIn(g.types, g.opaqueTypes, Deref(goType))
    && var v := g.view(ref).value;
    && var variants := g.types[Deref(goType)].variants;
    && v.unsupported == "" && variants.Some? && i < |v.oneOf| == |variants.value|
    && branch == v.oneOf[i] && variant == variants.value[i]
  }

  /** No more than `n` union bodies are nested from here on. */
  ghost predicate EndsWithin(g: Reading, ref: SchemaRef, goType: GoType, n: nat)
    decreases n
  {
    forall i: nat, branch, variant ::
      IsBranch(g, ref, goType, i, branch, variant) ==> n > 0 && EndsWithin(g, branch, variant, n - 1)
  }

  /** The unions of this body nest finitely: `bodyGaps` has no cycle guard of its own. */
  ghost predicate UnionsEnd(g: Reading, ref: SchemaRef, goType: GoType) {
    exists n: nat :: EndsWithin(g, ref, goType, n)
  }

  ghost predicate IsDepth(g: Reading, ref: SchemaRef, goType: GoType, n: nat) {
    EndsWithin(g, ref, goType, n) && forall m: nat :: m < n ==> !EndsWithin(g, ref, goType, m)
  }

  lemma {:induction false} DepthExists(g: Reading, ref: SchemaRef, goType: GoType, n: nat)
    requires EndsWithin(g, ref, goType, n)
    ensures exists m: nat :: IsDepth(g, ref, goType, m)
    decreases n
  {
    if m: nat :| m < n && EndsWithin(g, ref, goType, m) {
      DepthExists(g, ref, goType, m);
    } else {
      assert IsDepth(g, ref, goType, n);
    }
  }

  /** How deep the unions of a body nest. */
  ghost function UnionDepth(g: Reading, ref: SchemaRef, goType: GoType): (d: nat)
    requires UnionsEnd(g, ref, goType)
    ensures IsDepth(g, ref, goType, d)
  {
    var n: nat :| EndsWithin(g, ref, goType, n);
    DepthExists(g, ref, goType, n);
    var d: nat :| IsDepth(g, ref, goType, d);
    d
  }

  lemma UnionDepthDrops(c: Context, ref: SchemaRef, goType: GoType, v: View, variants: seq<GoType>, i: nat)
    requires UnionsEnd(ReadingOf(c), ref, goType) && c.view(ref) == Ok(v) && v.unsupported == ""
    requires !IsOpaque(c, Deref(goType))
    requires Info(c, Deref(goType)).variants == Some(variants) && i < |v.oneOf| == |variants|
    ensures UnionsEnd(ReadingOf(c), v.oneOf[i], variants[i])
    ensures UnionDepth(ReadingOf(c), v.oneOf[i], variants[i]) < UnionDepth(ReadingOf(c), ref, goType)
  {
    var d := UnionDepth(ReadingOf(c), ref, goType);
    assert IsBranch(ReadingOf(c), ref, goType, i, v.oneOf[i], variants[i]);
    assert EndsWithin(ReadingOf(c), v.oneOf[i], variants[i], d - 1);
  }

  /** More opaque types only cut the nesting shorter. */
  lemma {:induction false} MoreOpaqueEnds(g: Reading, more: Reading, ref: SchemaRef, goType: GoType, n: nat)
    requires more == g.(opaqueTypes := more.opaqueTypes) && g.opaqueTypes <= more.opaqueTypes
    requires EndsWithin(g, ref, goType, n)
    ensures EndsWithin(more, ref, goType, n)
    decreases n
  {
    forall i: nat, branch, variant | IsBranch(more, ref, goType, i, branch, variant)
      ensures n > 0 && EndsWithin(more, branch, variant, n - 1)
    {
      assert IsBranch(g, ref, goType, i, branch, variant);
      MoreOpaqueEnds(g, more, branch, variant, n - 1);
    }
  }

  function BodyGapsOf(c: Context, active: set<string>, ref: SchemaRef, goType: GoType): Outcome<PropGap>
    requires Faithful(c) && UnionsEnd(ReadingOf(c), ref, goType)
    decreases UnionDepth(ReadingOf(c), ref, goType), 1, 0
  {
    match c.view(ref)
    case Err(e) => Fail(e)
    case Ok(v) =>
      var t := Deref(goType);
      var variants := Info(c, t).variants;
      if v.unsupported != "" then SkipOne(c, ref.pointer, v.unsupported)
      else if IsOpaque(c, t) then Nothing()
      else if variants.Some? then
        if |v.oneOf| == 0 then SkipOne(c, ref.pointer, "union Go type without oneOf or anyOf")
        else if |v.oneOf| != |variants.value| then Fail(BranchMismatch(ref.pointer, |v.oneOf|, |variants.value|))
        else BodyUnionOf(c, active, ref, goType, v, variants.value, 0)
      else if !Info(c, t).kind.Struct? || |v.properties| == 0 then
        SkipOne(c, ref.pointer, "request body is not an object with properties")
      else StructGapsOf(c, active, ref, v, 0, t, "")
  }

  function BodyUnionOf(c: Context, active: set<string>, ref: SchemaRef, goType: GoType, v: View, variants: seq<GoType>,
      i: nat): Outcome<PropGap>
    requires Faithful(c) && UnionsEnd(ReadingOf(c), ref, goType) && c.view(ref) == Ok(v) && v.unsupported == ""
    requires !IsOpaque(c, Deref(goType))
    requires Info(c, Deref(goType)).variants == Some(variants) && i <= |v.oneOf| == |variants|
    decreases UnionDepth(ReadingOf(c), ref, goType), 0, |v.oneOf| - i
  {
    if i == |v.oneOf| then Nothing()
    else
      UnionDepthDrops(c, ref, goType, v, variants, i);
      var found := BodyGapsOf(c, active, v.oneOf[i], variants[i]);
      if found.result.Err? then found
      else Then(found, BodyUnionOf(c, active, ref, goType, v, variants, i + 1))
  }

  // ---- Query parameters ----

  function ParamGap(c: Context, active: set<string>, param: Param, entry: JsonField): Outcome<Member>
    requires Faithful(c)
  {
    if !FieldUsed(c, entry) then
      Outcome(Ok([Member(param.name, param.ref.pointer, StringValue(param.ref.node, "x-state"))]), [])
    else
      var schema := MappingValue(param.ref.node, "schema");
      if schema.None? then Nothing()
      else GapsOf(c, active, SchemaRef(schema.value, param.ref.pointer + "/schema"), entry.typ, param.name)
  }

  function QueryGapsOf(c: Context, active: set<string>, params: seq<Param>,
      fields: map<string, JsonField>): Outcome<PropGap>
    requires Faithful(c)
    decreases |params|
  {
    if params == [] then Nothing()
    else if params[0].deprecated then QueryGapsOf(c, active, params[1..], fields)
    else if params[0].name !in fields then Fail(UnmatchedProperty(params[0].name, params[0].ref.pointer))
    else
      var found := ParamGap(c, active, params[0], fields[params[0].name]);
      if found.result.Err? then Outcome(Err(found.result.error), found.skipped)
      else
        var gap := PropGap(params[0].name, params[0].ref, BoolValue(params[0].ref.node, "required"), found.result.value,
            true);
        Then(Outcome(Ok([gap]), found.skipped), QueryGapsOf(c, active, params[1..], fields))
  }

  // ---- The walker object ----

  /** `walker`: recursive methods that set and delete entries of `active` and append to `skipped`. */
  class Walker {
    const c: Context
    var skipped: seq<SkippedShape>
    var active: set<string>

    constructor (c: Context)
      ensures this.c == c && skipped == [] && active == {}
    {
      this.c := c;
      skipped, active := [], {};
    }

    method Skip(pointer: string, shape: string)
      modifies this`skipped
      ensures skipped == old(skipped) + [SkippedShape(c.resource, pointer, shape)]
    {
      skipped := skipped + [SkippedShape(c.resource, pointer, shape)];
    }

    method ViewAt(ref: SchemaRef) returns (r: Result<View>)
      requires Faithful(c)
      ensures r == c.view(ref)
    {
      assert ViewFact(c, ref);
      r := BuildView(c.root, ref);
    }

    method Gaps(ref: SchemaRef, goType: GoType, path: string) returns (r: Result<seq<Member>>)
      requires Faithful(c)
      modifies this
      ensures active == old(active)
      ensures r == GapsOf(c, active, ref, goType, path).result
      ensures skipped == old(skipped) + GapsOf(c, active, ref, goType, path).skipped
      decreases Budget(c, active, ref), 2, 0
    {
      var v := ViewAt(ref);
      if v.Err? {
        return Err(v.error);
      }
      r := ViewGaps(ref, v.value, goType, path);
    }

    method ViewGaps(ref: SchemaRef, v: View, goType: GoType, path: string) returns (r: Result<seq<Member>>)
      requires Faithful(c) && c.view(ref) == Ok(v)
      modifies this
      ensures active == old(active)
      ensures r == ViewGapsOf(c, active, ref, v, goType, path).result
      ensures skipped == old(skipped) + ViewGapsOf(c, active, ref, v, goType, path).skipped
      decreases Budget(c, active, ref), 1, 0
    {
      if v.deprecated || v.readOnly {
        return Ok([]);
      }
      if v.unsupported != "" {
        Skip(ref.pointer, v.unsupported);
        return Ok([]);
      }
      var t := Deref(goType);
      var key := ActiveKey(v, t);
      if IsOpaque(c, t) || key in active || t !in c.types {
        return Ok([]);
      }
      DescentStep(c, active, ref, v, t);
      ghost var before := active;
      assert ViewGapsOf(c, before, ref, v, goType, path) == KindGapsOf(c, before + {key}, ref, v, t, path);
      active := active + {key};
      r := KindGaps(ref, v, t, path);
      active := active - {key};
      assert active == before;
    }

    method KindGaps(ref: SchemaRef, v: View, t: TypeId, path: string) returns (r: Result<seq<Member>>)
      requires Faithful(c) && c.view(ref) == Ok(v) && t in c.types
      modifies this
      ensures active == old(active)
      ensures r == KindGapsOf(c, active, ref, v, t, path).result
      ensures skipped == old(skipped) + KindGapsOf(c, active, ref, v, t, path).skipped
      decreases Budget(c, active, ref), 5, 0
    {
      match c.types[t].kind {
        case SliceOf(elem) => r := ElementGaps(ref, v, elem, path);
        case ArrayOf(elem) => r := ElementGaps(ref, v, elem, path);
        case Struct => r := ObjectGaps(ref, v, t, path);
        case Map =>
          Skip(ref.pointer, "map-valued field: dynamic keys cannot be proven unused");
          r := Ok([]);
        case Interface =>
          Skip(ref.pointer, "untyped value: contents cannot be proven unused");
          r := Ok([]);
        case Basic => r := Ok([]);
      }
    }

    method ElementGaps(ref: SchemaRef, v: View, elem: GoType, path: string) returns (r: Result<seq<Member>>)
      requires Faithful(c) && c.view(ref) == Ok(v)
      modifies this
      ensures active == old(active)
      ensures r == ElementGapsOf(c, active, ref, v, elem, path).result
      ensures skipped == old(skipped) + ElementGapsOf(c, active, ref, v, elem, path).skipped
      decreases Budget(c, active, ref), 3, 0
    {
      if v.items.None? {
        return Ok([]);
      }
      ItemsStep(c, active, ref, v);
      r := Gaps(v.items.value, elem, path + "[]");
    }

    method ObjectGaps(ref: SchemaRef, v: View, t: TypeId, path: string) returns (r: Result<seq<Member>>)
      requires Faithful(c) && c.view(ref) == Ok(v)
      modifies this
      ensures active == old(active)
      ensures r == ObjectGapsOf(c, active, ref, v, t, path).result
      ensures skipped == old(skipped) + ObjectGapsOf(c, active, ref, v, t, path).skipped
      decreases Budget(c, active, ref), 4, 0
    {
      var variants := Info(c, t).variants;
      if variants.Some? {
        r := UnionBranches(ref, v, variants.value, path);
        return;
      }
      if |v.oneOf| > 0 {
        Skip(ref.pointer, "oneOf or anyOf without a union Go type");
        return Ok([]);
      }
      var props := StructGaps(ref, v, t, path);
      if props.Err? {
        return Err(props.error);
      }
      var members := JoinMembers(props.value);
      return Ok(members);
    }

    method UnionBranches(ref: SchemaRef, v: View, variants: seq<GoType>, path: string) returns (r: Result<seq<Member>>)
      requires Faithful(c) && c.view(ref) == Ok(v)
      modifies this
      ensures active == old(active)
      ensures r == UnionOf(c, active, ref, v, variants, path).result
      ensures skipped == old(skipped) + UnionOf(c, active, ref, v, variants, path).skipped
      decreases Budget(c, active, ref), 3, 1
    {
      if |v.oneOf| == 0 {
        Skip(ref.pointer, "union Go type without oneOf or anyOf");
        return Ok([]);
      }
      if |v.oneOf| != |variants| {
        return Err(BranchMismatch(ref.pointer, |v.oneOf|, |variants|));
      }
      r := UnionLoop(ref, v, variants, path);
    }

    method UnionLoop(ref: SchemaRef, v: View, variants: seq<GoType>, path: string) returns (r: Result<seq<Member>>)
      requires Faithful(c) && c.view(ref) == Ok(v) && |v.oneOf| == |variants|
      modifies this
      ensures active == old(active)
      ensures r == UnionGapsOf(c, active, ref, v, variants, 0, path).result
      ensures skipped == old(skipped) + UnionGapsOf(c, active, ref, v, variants, 0, path).skipped
      decreases Budget(c, active, ref), 3, 0
    {
      var out: seq<Member> := [];
      ghost var all := UnionGapsOf(c, active, ref, v, variants, 0, path);
      ThenNothing(all);
      ghost var done := Nothing<Member>();
      for i := 0 to |v.oneOf|
        invariant active == old(active)
        invariant done.result == Ok(out) && skipped == old(skipped) + done.skipped
        invariant all == Then(done, UnionGapsOf(c, active, ref, v, variants, i, path))
      {
        BranchStep(c, active, ref, v, i);
        var found := Gaps(v.oneOf[i], variants[i], path);
        ConcatAssociates(old(skipped), done.skipped, GapsOf(c, active, v.oneOf[i], variants[i], path).skipped);
        if found.Err? {
          return found;
        }
        ThenAssociates(done, GapsOf(c, active, v.oneOf[i], variants[i], path),
            UnionGapsOf(c, active, ref, v, variants, i + 1, path));
        done := Then(done, GapsOf(c, active, v.oneOf[i], variants[i], path));
        out := out + found.value;
      }
      ThenNothing(done);
      return Ok(out);
    }

    method StructGaps(ref: SchemaRef, v: View, t: TypeId, path: string) returns (r: Result<seq<PropGap>>)
      requires Faithful(c) && c.view(ref) == Ok(v)
      modifies this
      ensures active == old(active)
      ensures r == StructGapsOf(c, active, ref, v, 0, t, path).result
      ensures skipped == old(skipped) + StructGapsOf(c, active, ref, v, 0, t, path).skipped
      decreases Budget(c, active, ref), 3, 0
    {
      var matched: set<string> := {};
      var out: seq<PropGap> := [];
      ghost var all := StructGapsOf(c, active, ref, v, 0, t, path);
      ThenNothing(all);
      ghost var done := Nothing<PropGap>();
      for i := 0 to |v.properties|
        invariant active == old(active)
        invariant matched == Names(v.properties[..i])
        invariant done.result == Ok(out) && skipped == old(skipped) + done.skipped
        invariant all == Then(done, StructGapsOf(c, active, ref, v, i, t, path))
      {
        var found := PropertyTurn(ref, v, i, t, path);
        ConcatAssociates(old(skipped), done.skipped, PropertyGap(c, active, ref, v, i, t, path).skipped);
        if found.Err? {
          return found;
        }
        ThenAssociates(done, PropertyGap(c, active, ref, v, i, t, path),
            StructGapsOf(c, active, ref, v, i + 1, t, path));
        NamesGrow(v.properties, i);
        matched := matched + {v.properties[i].name};
        done := Then(done, PropertyGap(c, active, ref, v, i, t, path));
        out := out + found.value;
      }
      assert v.properties[..|v.properties|] == v.properties;
      var extra := Info(c, t).fields.Keys - matched;
      if extra != {} {
        return Err(UnmatchedFields(extra));
      }
      ThenNothing(done);
      return Ok(out);
    }

    /** The body of the property loop of `structGaps`. */
    method PropertyTurn(ref: SchemaRef, v: View, i: nat, t: TypeId, path: string) returns (r: Result<seq<PropGap>>)
      requires Faithful(c) && c.view(ref) == Ok(v) && i < |v.properties|
      modifies this
      ensures active == old(active)
      ensures r == PropertyGap(c, active, ref, v, i, t, path).result
      ensures skipped == old(skipped) + PropertyGap(c, active, ref, v, i, t, path).skipped
      decreases Budget(c, active, ref), 2, 0
    {
      var prop := v.properties[i];
      if prop.name !in Info(c, t).fields {
        return Err(UnmatchedProperty(prop.name, prop.ref.pointer));
      }
      var seen := ViewAt(prop.ref);
      if seen.Err? {
        return Err(seen.error);
      }
      var child := seen.value;
      if child.deprecated || child.readOnly {
        return Ok([]);
      }
      if child.unsupported != "" {
        Skip(prop.ref.pointer, child.unsupported);
        return Ok([]);
      }
      var entry := Info(c, t).fields[prop.name];
      var fieldPath := JoinFieldPath(path, prop.name);
      var members := [Member(fieldPath, prop.ref.pointer, child.xState)];
      if FieldUsed(c, entry) {
        PropertyStep(c, active, ref, v, i);
        var found := ViewGaps(prop.ref, child, entry.typ, fieldPath);
        if found.Err? {
          return Err(found.error);
        }
        members := found.value;
      }
      return Ok([PropGap(prop.name, prop.ref, prop.required, members, false)]);
    }

    method BodyGaps(ref: SchemaRef, goType: GoType) returns (r: Result<seq<PropGap>>)
      requires Faithful(c) && UnionsEnd(ReadingOf(c), ref, goType)
      modifies this
      ensures active == old(active)
      ensures r == BodyGapsOf(c, active, ref, goType).result
      ensures skipped == old(skipped) + BodyGapsOf(c, active, ref, goType).skipped
      decreases UnionDepth(ReadingOf(c), ref, goType), 1
    {
      var seen := ViewAt(ref);
      if seen.Err? {
        return Err(seen.error);
      }
      var v := seen.value;
      if v.unsupported != "" {
        Skip(ref.pointer, v.unsupported);
        return Ok([]);
      }
      var t := Deref(goType);
      if IsOpaque(c, t) {
        return Ok([]);
      }
      var variants := Info(c, t).variants;
      if variants.Some? {
        if |v.oneOf| == 0 {
          Skip(ref.pointer, "union Go type without oneOf or anyOf");
          return Ok([]);
        }
        if |v.oneOf| != |variants.value| {
          return Err(BranchMismatch(ref.pointer, |v.oneOf|, |variants.value|));
        }
        r := BodyBranches(ref, goType, v, variants.value);
        return;
      }
      if !Info(c, t).kind.Struct? || |v.properties| == 0 {
        Skip(ref.pointer, "request body is not an object with properties");
        return Ok([]);
      }
      r := StructGaps(ref, v, t, "");
    }

    method BodyBranches(ref: SchemaRef, goType: GoType, v: View, variants: seq<GoType>)
      returns (r: Result<seq<PropGap>>)
      requires Faithful(c) && UnionsEnd(ReadingOf(c), ref, goType) && c.view(ref) == Ok(v) && v.unsupported == ""
      requires !IsOpaque(c, Deref(goType))
      requires Info(c, Deref(goType)).variants == Some(variants) && |v.oneOf| == |variants|
      modifies this
      ensures active == old(active)
      ensures r == BodyUnionOf(c, active, ref, goType, v, variants, 0).result
      ensures skipped == old(skipped) + BodyUnionOf(c, active, ref, goType, v, variants, 0).skipped
      decreases UnionDepth(ReadingOf(c), ref, goType), 0
    {
      var out: seq<PropGap> := [];
      ghost var all := BodyUnionOf(c, active, ref, goType, v, variants, 0);
      ThenNothing(all);
      ghost var done := Nothing<PropGap>();
      for i := 0 to |v.oneOf|
        invariant active == old(active)
        invariant done.result == Ok(out) && skipped == old(skipped) + done.skipped
        invariant all == Then(done, BodyUnionOf(c, active, ref, goType, v, variants, i))
      {
        UnionDepthDrops(c, ref, goType, v, variants, i);
        var found := BodyGaps(v.oneOf[i], variants[i]);
        ConcatAssociates(old(skipped), done.skipped, BodyGapsOf(c, active, v.oneOf[i], variants[i]).skipped);
        if found.Err? {
          return found;
        }
        ThenAssociates(done, BodyGapsOf(c, active, v.oneOf[i], variants[i]),
            BodyUnionOf(c, active, ref, goType, v, variants, i + 1));
        done := Then(done, BodyGapsOf(c, active, v.oneOf[i], variants[i]));
        out := out + found.value;
      }
      ThenNothing(done);
      return Ok(out);
    }

    method QueryGaps(params: seq<Param>, paramsType: Option<GoType>) returns (r: Result<seq<PropGap>>)
      requires Faithful(c)
      modifies this
      ensures active == old(active)
      ensures params != [] && paramsType.None? ==> r == Err(NoParamsStruct) && skipped == old(skipped)
      ensures params == [] ==> r == Ok([]) && skipped == old(skipped)
      ensures paramsType.Some? ==>
                var o := QueryGapsOf(c, active, params, Info(c, Deref(paramsType.value)).fields);
                r == o.result && skipped == old(skipped) + o.skipped
    {
      if params == [] {
        return Ok([]);
      }
      if paramsType.None? {
        return Err(NoParamsStruct);
      }
      var fields := Info(c, Deref(paramsType.value)).fields;
      var out: seq<PropGap> := [];
      ghost var all := QueryGapsOf(c, active, params, fields);
      ThenNothing(all);
      ghost var done := Nothing<PropGap>();
      for i := 0 to |params|
        invariant active == old(active)
        invariant done.result == Ok(out) && skipped == old(skipped) + done.skipped
        invariant all == Then(done, QueryGapsOf(c, active, params[i..], fields))
      {
        assert params[i..][0] == params[i] && params[i..][1..] == params[i + 1..];
        var param := params[i];
        if param.deprecated {
          continue;
        }
        if param.name !in fields {
          return Err(UnmatchedProperty(param.name, param.ref.pointer));
        }
        var found := ParamTurn(param, fields[param.name]);
        ConcatAssociates(old(skipped), done.skipped, ParamGap(c, active, param, fields[param.name]).skipped);
        if found.Err? {
          return Err(found.error);
        }
        var gap := PropGap(param.name, param.ref, BoolValue(param.ref.node, "required"), found.value, true);
        ThenAssociates(done, Outcome(Ok([gap]), ParamGap(c, active, param, fields[param.name]).skipped),
            QueryGapsOf(c, active, params[i + 1..], fields));
        done := Then(done, Outcome(Ok([gap]), ParamGap(c, active, param, fields[param.name]).skipped));
        out := out + [gap];
      }
      ThenNothing(done);
      return Ok(out);
    }

    method ParamTurn(param: Param, entry: JsonField) returns (r: Result<seq<Member>>)
      requires Faithful(c)
      modifies this
      ensures active == old(active)
      ensures r == ParamGap(c, active, param, entry).result
      ensures skipped == old(skipped) + ParamGap(c, active, param, entry).skipped
    {
      if !FieldUsed(c, entry) {
        return Ok([Member(param.name, param.ref.pointer, StringValue(param.ref.node, "x-state"))]);
      }
      var schema := MappingValue(param.ref.node, "schema");
      if schema.None? {
        return Ok([]);
      }
      r := Gaps(SchemaRef(schema.value, param.ref.pointer + "/schema"), entry.typ, param.name);
    }
  }

  /** Loops accumulate: what is done, then one more turn, then the rest. */
  lemma ThenAssociates<T>(done: Outcome<T>, first: Outcome<T>, rest: Outcome<T>)
    requires done.result.Ok? && first.result.Ok?
    ensures Then(done, Then(first, rest)) == Then(Then(done, first), rest)
  {
    assert done.skipped + (first.skipped + rest.skipped) == (done.skipped + first.skipped) + rest.skipped;
    if rest.result.Ok? {
      assert done.result.value + (first.result.value + rest.result.value) ==
               (done.result.value + first.result.value) + rest.result.value;
    }
  }

  lemma ThenNothing<T>(o: Outcome<T>)
    ensures Then(Nothing(), o) == o
    ensures o.result.Ok? ==> Then(o, Nothing()) == o
  {
    assert [] + o.skipped == o.skipped == o.skipped + [];
    if o.result.Ok? {
      assert [] + o.result.value == o.result.value == o.result.value + [];
    }
  }

  /** The loop at the end of `objectGaps`. */
  method JoinMembers(props: seq<PropGap>) returns (members: seq<Member>)
    ensures members == AllMembers(props)
  {
    members := [];
    for i := 0 to |props|
      invariant AllMembers(props) == members + AllMembers(props[i..])
    {
      assert props[i..][1..] == props[i + 1..];
      members := members + props[i].members;
    }
  }
}

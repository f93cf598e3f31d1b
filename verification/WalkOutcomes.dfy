/** When a walk fails, and what it skips: exactly when a route of used fields leads to a place that cannot be matched,
    and exactly the shapes at the ends of routes that cannot be followed. */
module WalkOutcomes {
  import opened Text
  import opened Oas
  import opened SchemaView
  import opened Gaps
  import opened Walk
  import opened WalkTheorems
  import opened WalkEntries

  /** A place in a walk: what is active, the schema, the Go type it is read as, and the field path so far. */
  datatype Spot = Spot(active: set<string>, ref: SchemaRef, goType: GoType, path: string)

  function OutcomeAt(c: Context, s: Spot): Outcome<Member>
    requires Faithful(c)
  {
    GapsOf(c, s.active, s.ref, s.goType, s.path)
  }

  /** The walk goes on into the schema at this place. */
  predicate Enters(c: Context, s: Spot) {
    c.view(s.ref).Ok? && Followed(c, s.active, c.view(s.ref).value, Deref(s.goType))
  }

  /** The property is visible, has a Go field, and that is used. */
  predicate WalkedField(c: Context, v: View, t: TypeId, i: nat)
    requires i < |v.properties|
  {
    && v.properties[i].name in Info(c, t).fields && VisibleAt(c, v, i)
    && FieldUsed(c, Info(c, t).fields[v.properties[i].name])
  }

  function FieldSpot(c: Context, active: set<string>, v: View, t: TypeId, i: nat, path: string): Spot
    requires i < |v.properties| && v.properties[i].name in Info(c, t).fields
  {
    var prop := v.properties[i];
    Spot(active, prop.ref, Info(c, t).fields[prop.name].typ, JoinFieldPath(path, prop.name))
  }

  /** Where a hop of used fields leads. */
  function Step(c: Context, s: Spot, hop: WalkTheorems.Hop): Option<Spot> {
    if !Enters(c, s) then None
    else
      var v, t := c.view(s.ref).value, Deref(s.goType);
      var active := s.active + {ActiveKey(v, t)};
      match hop
      case Element =>
        var elem := ElemOf(c.types[t].kind);
        if elem.Some? && v.items.Some? then Some(Spot(active, v.items.value, elem.value, s.path + "[]")) else None
      case Branch(i) =>
        if UnionObject(c, v, t) && i < |v.oneOf| then
          Some(Spot(active, v.oneOf[i], Info(c, t).variants.value[i], s.path))
        else None
      case Field(i) =>
        if PlainObject(c, v, t) && i < |v.properties| && WalkedField(c, v, t, i) then
          Some(FieldSpot(c, active, v, t, i, s.path))
        else None
  }

  ghost predicate Arrives(c: Context, s: Spot, route: seq<WalkTheorems.Hop>, end: Spot)
    decreases |route|
  {
    if route == [] then s == end
    else Step(c, s, route[0]).Some? && Arrives(c, Step(c, s, route[0]).value, route[1..], end)
  }

  lemma StepDrops(c: Context, s: Spot, hop: WalkTheorems.Hop)
    requires Faithful(c) && Step(c, s, hop).Some?
    ensures var next := Step(c, s, hop).value; Budget(c, next.active, next.ref) < Budget(c, s.active, s.ref)
  {
    var v, t := c.view(s.ref).value, Deref(s.goType);
    var active := s.active + {ActiveKey(v, t)};
    DescentStep(c, s.active, s.ref, v, t);
    match hop
    case Element => ItemsStep(c, active, s.ref, v);
    case Branch(i) => BranchStep(c, active, s.ref, v, i);
    case Field(i) => PropertyStep(c, active, s.ref, v, i);
  }

  // ---- Failing ----

  /** Properties and Go fields do not match one to one, or a property has no view. */
  ghost predicate StructDefect(c: Context, v: View, t: TypeId) {
    Names(v.properties) != Info(c, t).fields.Keys ||
    exists i :: 0 <= i < |v.properties| && c.view(v.properties[i].ref).Err?
  }

  /** The place itself cannot be matched. */
  ghost predicate Defect(c: Context, s: Spot) {
    || c.view(s.ref).Err?
    || (Enters(c, s) &&
        var v, t := c.view(s.ref).value, Deref(s.goType);
        Info(c, t).kind.Struct? &&
        if Info(c, t).variants.Some? then |v.oneOf| > 0 && |v.oneOf| != |Info(c, t).variants.value|
        else |v.oneOf| == 0 && StructDefect(c, v, t))
  }

  ghost predicate FailsBelow(c: Context, s: Spot)
    requires Faithful(c)
  {
    exists hop :: Step(c, s, hop).Some? && OutcomeAt(c, Step(c, s, hop).value).result.Err?
  }

  /** One property makes the loop fail. */
  ghost predicate FieldFails(c: Context, active: set<string>, v: View, t: TypeId, i: nat, path: string)
    requires Faithful(c) && i < |v.properties|
  {
    || v.properties[i].name !in Info(c, t).fields
    || c.view(v.properties[i].ref).Err?
    || (WalkedField(c, v, t, i) && OutcomeAt(c, FieldSpot(c, active, v, t, i, path)).result.Err?)
  }

  lemma PropertyFails(c: Context, active: set<string>, ref: SchemaRef, v: View, i: nat, t: TypeId, path: string)
    requires Faithful(c) && c.view(ref) == Ok(v) && i < |v.properties|
    ensures PropertyGap(c, active, ref, v, i, t, path).result.Err? <==> FieldFails(c, active, v, t, i, path)
  {
  }

  lemma {:induction false} StructFails(c: Context, active: set<string>, ref: SchemaRef, v: View, from: nat, t: TypeId,
      path: string)
    requires Faithful(c) && c.view(ref) == Ok(v) && from <= |v.properties|
    ensures StructGapsOf(c, active, ref, v, from, t, path).result.Err? <==>
            UnmatchedGoFields(c, v, t) != {} ||
            exists i :: from <= i < |v.properties| && FieldFails(c, active, v, t, i, path)
    decreases |v.properties| - from
  {
    if from < |v.properties| {
      PropertyFails(c, active, ref, v, from, t, path);
      StructFails(c, active, ref, v, from + 1, t, path);
    }
  }

  lemma {:induction false} UnionFails(c: Context, active: set<string>, ref: SchemaRef, v: View, variants: seq<GoType>,
      from: nat, path: string)
    requires Faithful(c) && c.view(ref) == Ok(v) && from <= |v.oneOf| == |variants|
    ensures UnionGapsOf(c, active, ref, v, variants, from, path).result.Err? <==>
            exists i :: from <= i < |v.oneOf| && GapsOf(c, active, v.oneOf[i], variants[i], path).result.Err?
    decreases |v.oneOf| - from
  {
    if from < |v.oneOf| {
      UnionFails(c, active, ref, v, variants, from + 1, path);
    }
  }

  lemma EntersKind(c: Context, s: Spot)
    requires Faithful(c) && Enters(c, s)
    ensures var v, t := c.view(s.ref).value, Deref(s.goType);
            OutcomeAt(c, s) == KindGapsOf(c, s.active + {ActiveKey(v, t)}, s.ref, v, t, s.path)
  {
    var v := c.view(s.ref).value;
    assert OutcomeAt(c, s) == ViewGapsOf(c, s.active, s.ref, v, s.goType, s.path);
  }

  lemma StaysOut(c: Context, s: Spot)
    requires Faithful(c) && !Enters(c, s)
    ensures OutcomeAt(c, s).result.Err? <==> c.view(s.ref).Err?
  {
    if c.view(s.ref).Ok? {
      assert OutcomeAt(c, s) == ViewGapsOf(c, s.active, s.ref, c.view(s.ref).value, s.goType, s.path);
    }
  }

  lemma ElementsFail(c: Context, s: Spot)
    requires Faithful(c) && Enters(c, s) && !Info(c, Deref(s.goType)).kind.Struct?
    ensures OutcomeAt(c, s).result.Err? <==>
            Step(c, s, Element).Some? && OutcomeAt(c, Step(c, s, Element).value).result.Err?
    ensures forall hop :: Step(c, s, hop).Some? ==> hop == Element
  {
    EntersKind(c, s);
  }

  lemma UnionLevelFails(c: Context, s: Spot)
    requires Faithful(c) && Enters(c, s) && Info(c, Deref(s.goType)).kind.Struct?
    requires Info(c, Deref(s.goType)).variants.Some?
    ensures OutcomeAt(c, s).result.Err? <==> Defect(c, s) || FailsBelow(c, s)
  {
    var v, t := c.view(s.ref).value, Deref(s.goType);
    var active, variants := s.active + {ActiveKey(v, t)}, Info(c, t).variants.value;
    EntersKind(c, s);
    assert OutcomeAt(c, s) == ObjectGapsOf(c, active, s.ref, v, t, s.path);
    assert OutcomeAt(c, s) == UnionOf(c, active, s.ref, v, variants, s.path);
    if |v.oneOf| == |variants| && |v.oneOf| > 0 {
      UnionFails(c, active, s.ref, v, variants, 0, s.path);
      if i :| 0 <= i < |v.oneOf| && GapsOf(c, active, v.oneOf[i], variants[i], s.path).result.Err? {
        assert Step(c, s, Branch(i)) == Some(Spot(active, v.oneOf[i], variants[i], s.path));
      }
      BranchesOnly(c, s, v, t);
    } else {
      BranchesOnly(c, s, v, t);
    }
  }

  /** Out of a union only branches lead, out of another struct only fields. */
  lemma BranchesOnly(c: Context, s: Spot, v: View, t: TypeId)
    requires Enters(c, s) && c.view(s.ref) == Ok(v) && Deref(s.goType) == t && Info(c, t).kind.Struct?
    ensures forall hop :: Step(c, s, hop).Some? ==>
              if Info(c, t).variants.Some? then hop.Branch? && UnionObject(c, v, t) && hop.index < |v.oneOf|
              else hop.Field? && PlainObject(c, v, t) && hop.index < |v.properties| && WalkedField(c, v, t, hop.index)
  {
  }

  lemma StructLevelFails(c: Context, s: Spot)
    requires Faithful(c) && Enters(c, s) && Info(c, Deref(s.goType)).kind.Struct?
    requires Info(c, Deref(s.goType)).variants.None?
    ensures OutcomeAt(c, s).result.Err? <==> Defect(c, s) || FailsBelow(c, s)
  {
    var v, t := c.view(s.ref).value, Deref(s.goType);
    var active := s.active + {ActiveKey(v, t)};
    EntersKind(c, s);
    assert OutcomeAt(c, s) == ObjectGapsOf(c, active, s.ref, v, t, s.path);
    BranchesOnly(c, s, v, t);
    if |v.oneOf| == 0 {
      StructFails(c, active, s.ref, v, 0, t, s.path);
      FieldsFail(c, active, v, t, s.path);
      if i :| 0 <= i < |v.properties| && WalkedField(c, v, t, i) &&
              OutcomeAt(c, FieldSpot(c, active, v, t, i, s.path)).result.Err? {
        assert Step(c, s, Field(i)) == Some(FieldSpot(c, active, v, t, i, s.path));
      }
    }
  }

  lemma FieldsFail(c: Context, active: set<string>, v: View, t: TypeId, path: string)
    requires Faithful(c)
    ensures UnmatchedGoFields(c, v, t) != {} ||
            (exists i :: 0 <= i < |v.properties| && FieldFails(c, active, v, t, i, path)) <==>
            StructDefect(c, v, t) ||
            exists i :: 0 <= i < |v.properties| && WalkedField(c, v, t, i) &&
                        OutcomeAt(c, FieldSpot(c, active, v, t, i, path)).result.Err?
  {
    NamesMatch(c, v, t);
    if i :| 0 <= i < |v.properties| && v.properties[i].name !in Info(c, t).fields {
      assert FieldFails(c, active, v, t, i, path);
    }
    if i :| 0 <= i < |v.properties| && c.view(v.properties[i].ref).Err? {
      assert FieldFails(c, active, v, t, i, path);
    }
    if i :| 0 <= i < |v.properties| && WalkedField(c, v, t, i) &&
            OutcomeAt(c, FieldSpot(c, active, v, t, i, path)).result.Err? {
      assert FieldFails(c, active, v, t, i, path);
    }
  }

  lemma NamesMatch(c: Context, v: View, t: TypeId)
    ensures Names(v.properties) == Info(c, t).fields.Keys <==>
            UnmatchedGoFields(c, v, t) == {} &&
            forall i :: 0 <= i < |v.properties| ==> v.properties[i].name in Info(c, t).fields
  {
    var names, keys := Names(v.properties), Info(c, t).fields.Keys;
    assert keys - names == {} <==> keys <= names by {
      if keys - names == {} {
        forall k | k in keys
          ensures k in names
        {
          assert k !in keys - names;
        }
      }
    }
    assert forall i :: 0 <= i < |v.properties| ==> v.properties[i].name in names;
    assert names <= keys <==> forall i :: 0 <= i < |v.properties| ==> v.properties[i].name in keys;
  }

  /** The walk fails at a place if and only if the place cannot be matched or the walk fails at the next one. */
  lemma LevelFails(c: Context, s: Spot)
    requires Faithful(c)
    ensures OutcomeAt(c, s).result.Err? <==> Defect(c, s) || FailsBelow(c, s)
  {
    if !Enters(c, s) {
      StaysOut(c, s);
    } else if !Info(c, Deref(s.goType)).kind.Struct? {
      ElementsFail(c, s);
    } else if Info(c, Deref(s.goType)).variants.Some? {
      UnionLevelFails(c, s);
    } else {
      StructLevelFails(c, s);
    }
  }

  ghost predicate LeadsToDefect(c: Context, s: Spot) {
    exists route, end :: Arrives(c, s, route, end) && Defect(c, end)
  }

  lemma {:induction false} FailureFound(c: Context, s: Spot) returns (route: seq<WalkTheorems.Hop>, end: Spot)
    requires Faithful(c) && OutcomeAt(c, s).result.Err?
    ensures Arrives(c, s, route, end) && Defect(c, end)
    decreases Budget(c, s.active, s.ref)
  {
    LevelFails(c, s);
    if Defect(c, s) {
      route, end := [], s;
    } else {
      var hop :| Step(c, s, hop).Some? && OutcomeAt(c, Step(c, s, hop).value).result.Err?;
      StepDrops(c, s, hop);
      var rest;
      rest, end := FailureFound(c, Step(c, s, hop).value);
      route := [hop] + rest;
    }
  }

  lemma {:induction false} DefectFails(c: Context, s: Spot, route: seq<WalkTheorems.Hop>, end: Spot)
    requires Faithful(c) && Arrives(c, s, route, end) && Defect(c, end)
    ensures OutcomeAt(c, s).result.Err?
    decreases |route|
  {
    LevelFails(c, s);
    if route != [] {
      DefectFails(c, Step(c, s, route[0]).value, route[1..], end);
    }
  }

  /** A walk fails if and only if a route of used fields leads to a place that cannot be matched: no view, properties
      and Go fields that do not correspond, or branches and variants of different number. */
  lemma FailsIff(c: Context, s: Spot)
    requires Faithful(c)
    ensures OutcomeAt(c, s).result.Err? <==> LeadsToDefect(c, s)
  {
    if OutcomeAt(c, s).result.Err? {
      var route, end := FailureFound(c, s);
    } else if route, end :| Arrives(c, s, route, end) && Defect(c, end) {
      DefectFails(c, s, route, end);
    }
  }

  // ---- Skipping ----

  predicate IsShape(c: Context, ref: SchemaRef, shape: string, x: SkippedShape) {
    x == SkippedShape(c.resource, ref.pointer, shape)
  }

  /** The schema is not hidden, and its shape is not supported. */
  predicate UnsupportedAt(c: Context, ref: SchemaRef, x: SkippedShape) {
    && c.view(ref).Ok?
    && var v := c.view(ref).value;
    && !v.deprecated && !v.readOnly && v.unsupported != "" && IsShape(c, ref, v.unsupported, x)
  }

  /** The Go type or the schema at this place has a shape the walk cannot follow. */
  predicate Unfollowed(c: Context, ref: SchemaRef, v: View, t: TypeId, x: SkippedShape) {
    match Info(c, t).kind
    case Map => IsShape(c, ref, "map-valued field: dynamic keys cannot be proven unused", x)
    case Interface => IsShape(c, ref, "untyped value: contents cannot be proven unused", x)
    case Struct =>
      if Info(c, t).variants.Some? then
        |v.oneOf| == 0 && IsShape(c, ref, "union Go type without oneOf or anyOf", x)
      else |v.oneOf| > 0 && IsShape(c, ref, "oneOf or anyOf without a union Go type", x)
    case _ => false
  }

  ghost predicate FieldSkipped(c: Context, v: View, x: SkippedShape) {
    exists i :: 0 <= i < |v.properties| && UnsupportedAt(c, v.properties[i].ref, x)
  }

  ghost predicate SkippedHere(c: Context, s: Spot, x: SkippedShape) {
    || UnsupportedAt(c, s.ref, x)
    || (Enters(c, s) &&
        var v, t := c.view(s.ref).value, Deref(s.goType);
        Unfollowed(c, s.ref, v, t, x) || (PlainObject(c, v, t) && FieldSkipped(c, v, x)))
  }

  ghost predicate SkippedBelow(c: Context, s: Spot, x: SkippedShape)
    requires Faithful(c)
  {
    exists hop :: Step(c, s, hop).Some? && x in OutcomeAt(c, Step(c, s, hop).value).skipped
  }

  ghost predicate FieldSkips(c: Context, active: set<string>, v: View, t: TypeId, i: nat, path: string, x: SkippedShape)
    requires Faithful(c) && i < |v.properties|
  {
    || UnsupportedAt(c, v.properties[i].ref, x)
    || (WalkedField(c, v, t, i) && x in OutcomeAt(c, FieldSpot(c, active, v, t, i, path)).skipped)
  }

  lemma PropertySkips(c: Context, active: set<string>, ref: SchemaRef, v: View, i: nat, t: TypeId, path: string,
      x: SkippedShape)
    requires Faithful(c) && c.view(ref) == Ok(v) && i < |v.properties|
    requires PropertyGap(c, active, ref, v, i, t, path).result.Ok?
    ensures x in PropertyGap(c, active, ref, v, i, t, path).skipped <==> FieldSkips(c, active, v, t, i, path, x)
  {
  }

  lemma {:induction false} StructSkips(c: Context, active: set<string>, ref: SchemaRef, v: View, from: nat, t: TypeId,
      path: string, x: SkippedShape)
    requires Faithful(c) && c.view(ref) == Ok(v) && from <= |v.properties|
    requires StructGapsOf(c, active, ref, v, from, t, path).result.Ok?
    ensures x in StructGapsOf(c, active, ref, v, from, t, path).skipped <==>
            exists i :: from <= i < |v.properties| && FieldSkips(c, active, v, t, i, path, x)
    decreases |v.properties| - from
  {
    if from < |v.properties| {
      PropertySkips(c, active, ref, v, from, t, path, x);
      StructSkips(c, active, ref, v, from + 1, t, path, x);
    }
  }

  lemma {:induction false} UnionSkips(c: Context, active: set<string>, ref: SchemaRef, v: View, variants: seq<GoType>,
      from: nat, path: string, x: SkippedShape)
    requires Faithful(c) && c.view(ref) == Ok(v) && from <= |v.oneOf| == |variants|
    requires UnionGapsOf(c, active, ref, v, variants, from, path).result.Ok?
    ensures x in UnionGapsOf(c, active, ref, v, variants, from, path).skipped <==>
            exists i :: from <= i < |v.oneOf| && x in GapsOf(c, active, v.oneOf[i], variants[i], path).skipped
    decreases |v.oneOf| - from
  {
    if from < |v.oneOf| {
      UnionSkips(c, active, ref, v, variants, from + 1, path, x);
    }
  }

  lemma OutsideSkips(c: Context, s: Spot, x: SkippedShape)
    requires Faithful(c) && !Enters(c, s) && OutcomeAt(c, s).result.Ok?
    ensures x in OutcomeAt(c, s).skipped <==> UnsupportedAt(c, s.ref, x)
  {
    assert OutcomeAt(c, s) == ViewGapsOf(c, s.active, s.ref, c.view(s.ref).value, s.goType, s.path);
  }

  lemma ElementsSkip(c: Context, s: Spot, x: SkippedShape)
    requires Faithful(c) && Enters(c, s) && !Info(c, Deref(s.goType)).kind.Struct?
    ensures x in OutcomeAt(c, s).skipped <==>
            Unfollowed(c, s.ref, c.view(s.ref).value, Deref(s.goType), x) ||
            (Step(c, s, Element).Some? && x in OutcomeAt(c, Step(c, s, Element).value).skipped)
    ensures forall hop :: Step(c, s, hop).Some? ==> hop == Element
  {
    EntersKind(c, s);
  }

  lemma UnionLevelSkips(c: Context, s: Spot, x: SkippedShape)
    requires Faithful(c) && Enters(c, s) && Info(c, Deref(s.goType)).kind.Struct?
    requires Info(c, Deref(s.goType)).variants.Some? && OutcomeAt(c, s).result.Ok?
    ensures x in OutcomeAt(c, s).skipped <==>
            Unfollowed(c, s.ref, c.view(s.ref).value, Deref(s.goType), x) || SkippedBelow(c, s, x)
  {
    var v, t := c.view(s.ref).value, Deref(s.goType);
    var active, variants := s.active + {ActiveKey(v, t)}, Info(c, t).variants.value;
    EntersKind(c, s);
    assert OutcomeAt(c, s) == ObjectGapsOf(c, active, s.ref, v, t, s.path);
    assert OutcomeAt(c, s) == UnionOf(c, active, s.ref, v, variants, s.path);
    BranchesOnly(c, s, v, t);
    if |v.oneOf| > 0 {
      UnionSkips(c, active, s.ref, v, variants, 0, s.path, x);
      if i :| 0 <= i < |v.oneOf| && x in GapsOf(c, active, v.oneOf[i], variants[i], s.path).skipped {
        assert Step(c, s, Branch(i)) == Some(Spot(active, v.oneOf[i], variants[i], s.path));
      }
    }
  }

  lemma StructLevelSkips(c: Context, s: Spot, x: SkippedShape)
    requires Faithful(c) && Enters(c, s) && Info(c, Deref(s.goType)).kind.Struct?
    requires Info(c, Deref(s.goType)).variants.None? && OutcomeAt(c, s).result.Ok?
    ensures var v, t := c.view(s.ref).value, Deref(s.goType);
            x in OutcomeAt(c, s).skipped <==>
            Unfollowed(c, s.ref, v, t, x) || (PlainObject(c, v, t) && FieldSkipped(c, v, x)) || SkippedBelow(c, s, x)
  {
    var v, t := c.view(s.ref).value, Deref(s.goType);
    var active := s.active + {ActiveKey(v, t)};
    EntersKind(c, s);
    assert OutcomeAt(c, s) == ObjectGapsOf(c, active, s.ref, v, t, s.path);
    BranchesOnly(c, s, v, t);
    if |v.oneOf| == 0 {
      StructSkips(c, active, s.ref, v, 0, t, s.path, x);
      FieldsSkip(c, active, v, t, s.path, x);
      if i :| 0 <= i < |v.properties| && WalkedField(c, v, t, i) &&
              x in OutcomeAt(c, FieldSpot(c, active, v, t, i, s.path)).skipped {
        assert Step(c, s, Field(i)) == Some(FieldSpot(c, active, v, t, i, s.path));
      }
    }
  }

  lemma FieldsSkip(c: Context, active: set<string>, v: View, t: TypeId, path: string, x: SkippedShape)
    requires Faithful(c)
    ensures (exists i :: 0 <= i < |v.properties| && FieldSkips(c, active, v, t, i, path, x)) <==>
            FieldSkipped(c, v, x) ||
            exists i :: 0 <= i < |v.properties| && WalkedField(c, v, t, i) &&
                        x in OutcomeAt(c, FieldSpot(c, active, v, t, i, path)).skipped
  {
    if i :| 0 <= i < |v.properties| && UnsupportedAt(c, v.properties[i].ref, x) {
      assert FieldSkips(c, active, v, t, i, path, x);
    }
    if i :| 0 <= i < |v.properties| && WalkedField(c, v, t, i) &&
            x in OutcomeAt(c, FieldSpot(c, active, v, t, i, path)).skipped {
      assert FieldSkips(c, active, v, t, i, path, x);
    }
  }

  lemma EnteredSupported(c: Context, s: Spot, x: SkippedShape)
    requires Enters(c, s)
    ensures !UnsupportedAt(c, s.ref, x)
  {
  }

  lemma LevelSkips(c: Context, s: Spot, x: SkippedShape)
    requires Faithful(c) && OutcomeAt(c, s).result.Ok?
    ensures x in OutcomeAt(c, s).skipped <==> SkippedHere(c, s, x) || SkippedBelow(c, s, x)
  {
    if !Enters(c, s) {
      OutsideSkips(c, s, x);
    } else {
      EnteredSupported(c, s, x);
      if !Info(c, Deref(s.goType)).kind.Struct? {
        ElementsSkip(c, s, x);
      } else if Info(c, Deref(s.goType)).variants.Some? {
        UnionLevelSkips(c, s, x);
      } else {
        StructLevelSkips(c, s, x);
      }
    }
  }

  ghost predicate LeadsToSkipped(c: Context, s: Spot, x: SkippedShape) {
    exists route, end :: Arrives(c, s, route, end) && SkippedHere(c, end, x)
  }

  lemma {:induction false} SkipFound(c: Context, s: Spot, x: SkippedShape)
    returns (route: seq<WalkTheorems.Hop>, end: Spot)
    requires Faithful(c) && OutcomeAt(c, s).result.Ok? && x in OutcomeAt(c, s).skipped
    ensures Arrives(c, s, route, end) && SkippedHere(c, end, x)
    decreases Budget(c, s.active, s.ref)
  {
    LevelSkips(c, s, x);
    if SkippedHere(c, s, x) {
      route, end := [], s;
    } else {
      var hop :| Step(c, s, hop).Some? && x in OutcomeAt(c, Step(c, s, hop).value).skipped;
      StepDrops(c, s, hop);
      LevelFails(c, s);
      var rest;
      rest, end := SkipFound(c, Step(c, s, hop).value, x);
      route := [hop] + rest;
    }
  }

  lemma {:induction false} SkippedFound(c: Context, s: Spot, route: seq<WalkTheorems.Hop>, end: Spot, x: SkippedShape)
    requires Faithful(c) && OutcomeAt(c, s).result.Ok? && Arrives(c, s, route, end) && SkippedHere(c, end, x)
    ensures x in OutcomeAt(c, s).skipped
    decreases |route|
  {
    LevelSkips(c, s, x);
    if route != [] {
      LevelFails(c, s);
      SkippedFound(c, Step(c, s, route[0]).value, route[1..], end, x);
    }
  }

  /** A walk that succeeds skips exactly the shapes that routes of used fields lead to and that cannot be followed, each
      with its pointer and the reason. */
  lemma SkipsIff(c: Context, s: Spot, x: SkippedShape)
    requires Faithful(c) && OutcomeAt(c, s).result.Ok?
    ensures x in OutcomeAt(c, s).skipped <==> LeadsToSkipped(c, s, x)
  {
    if x in OutcomeAt(c, s).skipped {
      var route, end := SkipFound(c, s, x);
    } else if route, end :| Arrives(c, s, route, end) && SkippedHere(c, end, x) {
      SkippedFound(c, s, route, end, x);
    }
  }

  // ---- Whole request bodies ----

  /** The branches lead through union bodies to another body. */
  ghost predicate Nested(c: Context, ref: SchemaRef, goType: GoType, branches: seq<nat>, end: SchemaRef,
      endType: GoType)
    decreases |branches|
  {
    if branches == [] then ref == end && goType == endType
    else
      && c.view(ref).Ok? && BodyFollowed(c, c.view(ref).value, Deref(goType))
      && var v, variants := c.view(ref).value, Info(c, Deref(goType)).variants;
      && variants.Some? && branches[0] < |v.oneOf| == |variants.value|
      && Nested(c, v.oneOf[branches[0]], variants.value[branches[0]], branches[1..], end, endType)
  }

  ghost predicate FieldLeadsToDefect(c: Context, active: set<string>, v: View, t: TypeId) {
    exists i :: 0 <= i < |v.properties| && WalkedField(c, v, t, i) &&
                LeadsToDefect(c, FieldSpot(c, active, v, t, i, ""))
  }

  /** The body itself cannot be matched, or beneath one of its fields something cannot. */
  ghost predicate BodyDefect(c: Context, active: set<string>, ref: SchemaRef, goType: GoType) {
    || c.view(ref).Err?
    || (BodyFollowed(c, c.view(ref).value, Deref(goType)) &&
        var v, t := c.view(ref).value, Deref(goType);
        if Info(c, t).variants.Some? then |v.oneOf| > 0 && |v.oneOf| != |Info(c, t).variants.value|
        else Info(c, t).kind.Struct? && |v.properties| > 0 &&
             (StructDefect(c, v, t) || FieldLeadsToDefect(c, active, v, t)))
  }

  lemma BodyFieldsFail(c: Context, active: set<string>, ref: SchemaRef, v: View, t: TypeId)
    requires Faithful(c) && c.view(ref) == Ok(v)
    ensures StructGapsOf(c, active, ref, v, 0, t, "").result.Err? <==>
            StructDefect(c, v, t) || FieldLeadsToDefect(c, active, v, t)
  {
    StructFails(c, active, ref, v, 0, t, "");
    FieldsFail(c, active, v, t, "");
    forall i | 0 <= i < |v.properties| && WalkedField(c, v, t, i)
      ensures OutcomeAt(c, FieldSpot(c, active, v, t, i, "")).result.Err? <==>
              LeadsToDefect(c, FieldSpot(c, active, v, t, i, ""))
    {
      FailsIff(c, FieldSpot(c, active, v, t, i, ""));
    }
  }

  /** A union body whose branches are walked. */
  predicate Branching(c: Context, ref: SchemaRef, goType: GoType) {
    && c.view(ref).Ok? && BodyFollowed(c, c.view(ref).value, Deref(goType))
    && var variants := Info(c, Deref(goType)).variants;
    && variants.Some? && |c.view(ref).value.oneOf| == |variants.value|
  }

  lemma BodyLeaf(c: Context, active: set<string>, ref: SchemaRef, goType: GoType)
    requires Faithful(c) && UnionsEnd(ReadingOf(c), ref, goType) && !Branching(c, ref, goType)
    ensures BodyGapsOf(c, active, ref, goType).result.Err? <==> BodyDefect(c, active, ref, goType)
  {
    if c.view(ref).Ok? && BodyFollowed(c, c.view(ref).value, Deref(goType)) {
      BodyFieldsFail(c, active, ref, c.view(ref).value, Deref(goType));
    }
  }

  lemma {:induction false} BodyUnionFails(c: Context, active: set<string>, ref: SchemaRef, goType: GoType, v: View,
      variants: seq<GoType>, from: nat)
    requires Faithful(c) && UnionsEnd(ReadingOf(c), ref, goType) && c.view(ref) == Ok(v)
    requires BodyFollowed(c, v, Deref(goType))
    requires Info(c, Deref(goType)).variants == Some(variants) && from <= |v.oneOf| == |variants|
    ensures BodyUnionOf(c, active, ref, goType, v, variants, from).result.Err? <==>
            exists i :: from <= i < |v.oneOf| && BranchFails(c, active, v, variants, i)
    decreases |v.oneOf| - from
  {
    if from < |v.oneOf| {
      UnionDepthDrops(c, ref, goType, v, variants, from);
      BodyUnionFails(c, active, ref, goType, v, variants, from + 1);
      var found := BodyGapsOf(c, active, v.oneOf[from], variants[from]);
      assert BodyUnionOf(c, active, ref, goType, v, variants, from) ==
             if found.result.Err? then found
             else Then(found, BodyUnionOf(c, active, ref, goType, v, variants, from + 1));
      assert BranchFails(c, active, v, variants, from) <==> found.result.Err?;
    }
  }

  ghost predicate BranchFails(c: Context, active: set<string>, v: View, variants: seq<GoType>, i: nat)
    requires Faithful(c) && i < |v.oneOf| == |variants|
  {
    UnionsEnd(ReadingOf(c), v.oneOf[i], variants[i]) && BodyGapsOf(c, active, v.oneOf[i], variants[i]).result.Err?
  }

  ghost predicate BodyLeadsToDefect(c: Context, active: set<string>, ref: SchemaRef, goType: GoType) {
    exists branches, end, endType ::
      Nested(c, ref, goType, branches, end, endType) && BodyDefect(c, active, end, endType)
  }

  lemma {:induction false} BodyFailsIff(c: Context, active: set<string>, ref: SchemaRef, goType: GoType)
    requires Faithful(c) && UnionsEnd(ReadingOf(c), ref, goType)
    ensures BodyGapsOf(c, active, ref, goType).result.Err? <==> BodyLeadsToDefect(c, active, ref, goType)
    decreases UnionDepth(ReadingOf(c), ref, goType)
  {
    if !Branching(c, ref, goType) {
      BodyLeaf(c, active, ref, goType);
      assert BodyDefect(c, active, ref, goType) ==> Nested(c, ref, goType, [], ref, goType);
      if branches, end, endType :|
          Nested(c, ref, goType, branches, end, endType) && BodyDefect(c, active, end, endType) {
        assert branches == [];
      }
    } else {
      BodyBranchesFail(c, active, ref, goType);
    }
  }

  lemma {:induction false} BodyBranchesFail(c: Context, active: set<string>, ref: SchemaRef, goType: GoType)
    requires Faithful(c) && UnionsEnd(ReadingOf(c), ref, goType) && Branching(c, ref, goType)
    ensures BodyGapsOf(c, active, ref, goType).result.Err? <==> BodyLeadsToDefect(c, active, ref, goType)
    decreases UnionDepth(ReadingOf(c), ref, goType), 0
  {
    var v := c.view(ref).value;
    var variants := Info(c, Deref(goType)).variants.value;
    BodyUnionFails(c, active, ref, goType, v, variants, 0);
    forall i | 0 <= i < |v.oneOf|
      ensures BranchFails(c, active, v, variants, i) <==> BodyLeadsToDefect(c, active, v.oneOf[i], variants[i])
    {
      UnionDepthDrops(c, ref, goType, v, variants, i);
      BodyFailsIff(c, active, v.oneOf[i], variants[i]);
    }
    if i :| 0 <= i < |v.oneOf| && BranchFails(c, active, v, variants, i) {
      var branches, end, endType :| Nested(c, v.oneOf[i], variants[i], branches, end, endType) &&
                                    BodyDefect(c, active, end, endType);
      assert Nested(c, ref, goType, [i] + branches, end, endType);
    }
    if branches, end, endType :| Nested(c, ref, goType, branches, end, endType) && BodyDefect(c, active, end, endType) {
      NotAtUnion(c, active, ref, goType);
      assert branches != [];
      assert Nested(c, v.oneOf[branches[0]], variants[branches[0]], branches[1..], end, endType);
      assert BranchFails(c, active, v, variants, branches[0]);
    }
  }

  lemma NotAtUnion(c: Context, active: set<string>, ref: SchemaRef, goType: GoType)
    requires Branching(c, ref, goType)
    ensures !BodyDefect(c, active, ref, goType)
  {
  }

  ghost predicate FieldLeadsToSkipped(c: Context, active: set<string>, v: View, t: TypeId, x: SkippedShape) {
    exists i :: 0 <= i < |v.properties| && WalkedField(c, v, t, i) &&
                LeadsToSkipped(c, FieldSpot(c, active, v, t, i, ""), x)
  }

  /** The body itself cannot be followed, or one of its properties, or something beneath one of its fields. */
  ghost predicate BodySkipped(c: Context, active: set<string>, ref: SchemaRef, goType: GoType, x: SkippedShape) {
    && c.view(ref).Ok?
    && var v, t := c.view(ref).value, Deref(goType);
    if v.unsupported != "" then IsShape(c, ref, v.unsupported, x)
    else
      && BodyFollowed(c, v, t)
      && if Info(c, t).variants.Some? then |v.oneOf| == 0 && IsShape(c, ref, "union Go type without oneOf or anyOf", x)
         else if !Info(c, t).kind.Struct? || v.properties == [] then
           IsShape(c, ref, "request body is not an object with properties", x)
         else FieldSkipped(c, v, x) || FieldLeadsToSkipped(c, active, v, t, x)
  }

  lemma BodyFieldsSkip(c: Context, active: set<string>, ref: SchemaRef, v: View, t: TypeId, x: SkippedShape)
    requires Faithful(c) && c.view(ref) == Ok(v) && StructGapsOf(c, active, ref, v, 0, t, "").result.Ok?
    ensures x in StructGapsOf(c, active, ref, v, 0, t, "").skipped <==>
            FieldSkipped(c, v, x) || FieldLeadsToSkipped(c, active, v, t, x)
  {
    StructSkips(c, active, ref, v, 0, t, "", x);
    StructFails(c, active, ref, v, 0, t, "");
    FieldsSkip(c, active, v, t, "", x);
    forall i | 0 <= i < |v.properties| && WalkedField(c, v, t, i)
      ensures x in OutcomeAt(c, FieldSpot(c, active, v, t, i, "")).skipped <==>
              LeadsToSkipped(c, FieldSpot(c, active, v, t, i, ""), x)
    {
      assert !FieldFails(c, active, v, t, i, "");
      SkipsIff(c, FieldSpot(c, active, v, t, i, ""), x);
    }
  }

  lemma BodyLeafSkips(c: Context, active: set<string>, ref: SchemaRef, goType: GoType, x: SkippedShape)
    requires Faithful(c) && UnionsEnd(ReadingOf(c), ref, goType)
    requires !Branching(c, ref, goType) || c.view(ref).value.oneOf == []
    requires BodyGapsOf(c, active, ref, goType).result.Ok?
    ensures x in BodyGapsOf(c, active, ref, goType).skipped <==> BodySkipped(c, active, ref, goType, x)
  {
    var v, t := c.view(ref).value, Deref(goType);
    if BodyFollowed(c, v, t) && Info(c, t).variants.None? && Info(c, t).kind.Struct? && |v.properties| > 0 {
      BodyFieldsSkip(c, active, ref, v, t, x);
    }
  }

  lemma {:induction false} BodyUnionSkips(c: Context, active: set<string>, ref: SchemaRef, goType: GoType, v: View,
      variants: seq<GoType>, from: nat, x: SkippedShape)
    requires Faithful(c) && UnionsEnd(ReadingOf(c), ref, goType) && c.view(ref) == Ok(v)
    requires BodyFollowed(c, v, Deref(goType))
    requires Info(c, Deref(goType)).variants == Some(variants) && from <= |v.oneOf| == |variants|
    requires BodyUnionOf(c, active, ref, goType, v, variants, from).result.Ok?
    ensures x in BodyUnionOf(c, active, ref, goType, v, variants, from).skipped <==>
            exists i :: from <= i < |v.oneOf| && BranchSkips(c, active, v, variants, i, x)
    decreases |v.oneOf| - from
  {
    if from < |v.oneOf| {
      UnionDepthDrops(c, ref, goType, v, variants, from);
      var found := BodyGapsOf(c, active, v.oneOf[from], variants[from]);
      var rest := BodyUnionOf(c, active, ref, goType, v, variants, from + 1);
      assert BodyUnionOf(c, active, ref, goType, v, variants, from) ==
             if found.result.Err? then found else Then(found, rest);
      BodyUnionSkips(c, active, ref, goType, v, variants, from + 1, x);
      assert BranchSkips(c, active, v, variants, from, x) <==> x in found.skipped;
    }
  }

  ghost predicate BranchSkips(c: Context, active: set<string>, v: View, variants: seq<GoType>, i: nat,
      x: SkippedShape)
    requires Faithful(c) && i < |v.oneOf| == |variants|
  {
    UnionsEnd(ReadingOf(c), v.oneOf[i], variants[i]) && x in BodyGapsOf(c, active, v.oneOf[i], variants[i]).skipped
  }

  ghost predicate BodyLeadsToSkipped(c: Context, active: set<string>, ref: SchemaRef, goType: GoType, x: SkippedShape) {
    exists branches, end, endType ::
      Nested(c, ref, goType, branches, end, endType) && BodySkipped(c, active, end, endType, x)
  }

  /** A body that is walked with success skips exactly the shapes that branches and then routes lead to. */
  lemma {:induction false} BodySkipsIff(c: Context, active: set<string>, ref: SchemaRef, goType: GoType,
      x: SkippedShape)
    requires Faithful(c) && UnionsEnd(ReadingOf(c), ref, goType) && BodyGapsOf(c, active, ref, goType).result.Ok?
    ensures x in BodyGapsOf(c, active, ref, goType).skipped <==> BodyLeadsToSkipped(c, active, ref, goType, x)
    decreases UnionDepth(ReadingOf(c), ref, goType)
  {
    if !Branching(c, ref, goType) || c.view(ref).value.oneOf == [] {
      BodyLeafSkips(c, active, ref, goType, x);
      assert BodySkipped(c, active, ref, goType, x) ==> Nested(c, ref, goType, [], ref, goType);
      if branches, end, endType :|
          Nested(c, ref, goType, branches, end, endType) && BodySkipped(c, active, end, endType, x) {
        assert branches == [];
      }
    } else {
      BodyBranchesSkip(c, active, ref, goType, x);
    }
  }

  lemma {:induction false} BodyBranchesSkip(c: Context, active: set<string>, ref: SchemaRef, goType: GoType,
      x: SkippedShape)
    requires Faithful(c) && UnionsEnd(ReadingOf(c), ref, goType) && BodyGapsOf(c, active, ref, goType).result.Ok?
    requires Branching(c, ref, goType) && c.view(ref).value.oneOf != []
    ensures x in BodyGapsOf(c, active, ref, goType).skipped <==> BodyLeadsToSkipped(c, active, ref, goType, x)
    decreases UnionDepth(ReadingOf(c), ref, goType), 0
  {
    var v := c.view(ref).value;
    var variants := Info(c, Deref(goType)).variants.value;
    assert BodyGapsOf(c, active, ref, goType) == BodyUnionOf(c, active, ref, goType, v, variants, 0);
    BodyUnionSkips(c, active, ref, goType, v, variants, 0, x);
    BodyUnionFails(c, active, ref, goType, v, variants, 0);
    forall i | 0 <= i < |v.oneOf|
      ensures BranchSkips(c, active, v, variants, i, x) <==> BodyLeadsToSkipped(c, active, v.oneOf[i], variants[i], x)
    {
      UnionDepthDrops(c, ref, goType, v, variants, i);
      assert !BranchFails(c, active, v, variants, i);
      BodySkipsIff(c, active, v.oneOf[i], variants[i], x);
    }
    if i :| 0 <= i < |v.oneOf| && BranchSkips(c, active, v, variants, i, x) {
      var branches, end, endType :| Nested(c, v.oneOf[i], variants[i], branches, end, endType) &&
                                    BodySkipped(c, active, end, endType, x);
      assert Nested(c, ref, goType, [i] + branches, end, endType);
    }
    if branches, end, endType :|
        Nested(c, ref, goType, branches, end, endType) && BodySkipped(c, active, end, endType, x) {
      assert !BodySkipped(c, active, ref, goType, x);
      assert branches != [];
      assert Nested(c, v.oneOf[branches[0]], variants[branches[0]], branches[1..], end, endType);
      assert BranchSkips(c, active, v, variants, branches[0], x);
    }
  }

  // ---- Query parameters ----

  function ParamSpot(active: set<string>, param: Param, entry: JsonField): Option<Spot> {
    var schema := MappingValue(param.ref.node, "schema");
    if schema.None? then None
    else Some(Spot(active, SchemaRef(schema.value, param.ref.pointer + "/schema"), entry.typ, param.name))
  }

  /** A used parameter with a schema, which is walked. */
  predicate WalkedParam(c: Context, active: set<string>, param: Param, fields: map<string, JsonField>) {
    && !param.deprecated && param.name in fields && FieldUsed(c, fields[param.name])
    && ParamSpot(active, param, fields[param.name]).Some?
  }

  ghost predicate ParamFails(c: Context, active: set<string>, param: Param, fields: map<string, JsonField>) {
    || (!param.deprecated && param.name !in fields)
    || (WalkedParam(c, active, param, fields) && LeadsToDefect(c, ParamSpot(active, param, fields[param.name]).value))
  }

  ghost predicate ParamSkips(c: Context, active: set<string>, param: Param, fields: map<string, JsonField>,
      x: SkippedShape)
  {
    WalkedParam(c, active, param, fields) && LeadsToSkipped(c, ParamSpot(active, param, fields[param.name]).value, x)
  }

  lemma ParamOutcome(c: Context, active: set<string>, param: Param, fields: map<string, JsonField>, x: SkippedShape)
    requires Faithful(c) && !param.deprecated && param.name in fields
    ensures var o := ParamGap(c, active, param, fields[param.name]);
            && (o.result.Err? <==> ParamFails(c, active, param, fields))
            && (o.result.Ok? ==> (x in o.skipped <==> ParamSkips(c, active, param, fields, x)))
  {
    if WalkedParam(c, active, param, fields) {
      var s := ParamSpot(active, param, fields[param.name]).value;
      FailsIff(c, s);
      if OutcomeAt(c, s).result.Ok? {
        SkipsIff(c, s, x);
      }
    }
  }

  ghost predicate SomeFails(c: Context, active: set<string>, params: seq<Param>, fields: map<string, JsonField>) {
    exists p :: p in params && ParamFails(c, active, p, fields)
  }

  ghost predicate SomeSkips(c: Context, active: set<string>, params: seq<Param>, fields: map<string, JsonField>,
      x: SkippedShape)
  {
    exists p :: p in params && ParamSkips(c, active, p, fields, x)
  }

  lemma FirstOrLater(c: Context, active: set<string>, params: seq<Param>, fields: map<string, JsonField>,
      x: SkippedShape)
    requires params != []
    ensures SomeFails(c, active, params, fields) <==>
            ParamFails(c, active, params[0], fields) || SomeFails(c, active, params[1..], fields)
    ensures SomeSkips(c, active, params, fields, x) <==>
            ParamSkips(c, active, params[0], fields, x) || SomeSkips(c, active, params[1..], fields, x)
  {
    assert params == [params[0]] + params[1..];
  }

  lemma QueryTurn(c: Context, active: set<string>, params: seq<Param>, fields: map<string, JsonField>, x: SkippedShape)
    requires Faithful(c) && params != []
    ensures var o, rest := QueryGapsOf(c, active, params, fields), QueryGapsOf(c, active, params[1..], fields);
            && (o.result.Err? <==> ParamFails(c, active, params[0], fields) || rest.result.Err?)
            && (o.result.Ok? ==>
                  (x in o.skipped <==> ParamSkips(c, active, params[0], fields, x) || x in rest.skipped))
  {
    if !params[0].deprecated && params[0].name in fields {
      ParamOutcome(c, active, params[0], fields, x);
    }
  }

  /** Query parameters fail exactly when one has no Go field or leads to something that cannot be matched, and otherwise
      skip exactly what the used ones lead to. */
  lemma {:induction false} QueryOutcome(c: Context, active: set<string>, params: seq<Param>,
      fields: map<string, JsonField>, x: SkippedShape)
    requires Faithful(c)
    ensures var o := QueryGapsOf(c, active, params, fields);
            && (o.result.Err? <==> SomeFails(c, active, params, fields))
            && (o.result.Ok? ==> (x in o.skipped <==> SomeSkips(c, active, params, fields, x)))
    decreases |params|
  {
    if params != [] {
      QueryOutcome(c, active, params[1..], fields, x);
      FirstOrLater(c, active, params, fields, x);
      QueryTurn(c, active, params, fields, x);
    }
  }
}

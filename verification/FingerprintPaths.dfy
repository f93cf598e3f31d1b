/** Exactly what a fingerprint tells apart: two projections are equal if and only if every path of child schemas leads
    to corresponding spots in both documents. */
module FingerprintPaths {
  import opened Text
  import opened Oas
  import opened SchemaView
  import opened Fingerprint

  /** One hop into a child schema: a property by its name, or a child of another keyword by its place. */
  datatype Hop = Named(name: string) | Nth(key: string, index: nat)

  /** Where a path leads: to a schema, to a pointer that closes a cycle, or nowhere. */
  datatype Spot = Nowhere | Cut(pointer: string) | Here(ref: SchemaRef)

  function Keyword(hop: Hop): string {
    match hop
    case Named(_) => "properties"
    case Nth(key, _) => key
  }

  /** The last property with the name: an earlier one is overwritten. */
  function LastNamed(props: seq<Property>, name: string): (i: nat)
    requires name in Names(props)
    ensures i < |props| && props[i].name == name
  {
    var n := |props| - 1;
    if props[n].name == name then n
    else
      NamesGrow(props, n);
      assert props[..n + 1] == props;
      LastNamed(props[..n], name)
  }

  /** The place of the child among those of its keyword. */
  ghost function IndexUnder(ref: SchemaRef, hop: Hop): (r: Option<nat>)
    ensures r.Some? ==> Keyword(hop) in CHILD_KEYS && r.value < |ChildRefs(ref, Keyword(hop))|
  {
    match hop
    case Named(name) =>
      if name in Names(OwnProperties(ref)) then
        PropertyChildren(ref);
        Some(LastNamed(OwnProperties(ref), name))
      else None
    case Nth(key, i) =>
      if key in CHILD_KEYS && key != "properties" && i < |ChildRefs(ref, key)| then Some(i) else None
  }

  ghost function Under(ref: SchemaRef, hop: Hop): Option<SchemaRef> {
    var i := IndexUnder(ref, hop);
    if i.Some? then Some(ChildRefs(ref, Keyword(hop))[i.value]) else None
  }

  /** Resolving at every hop, until a pointer comes again. */
  ghost function Follow(root: Node, active: set<string>, ref: SchemaRef, path: seq<Hop>): Spot
    decreases |path|
  {
    match Resolve(root, ref)
    case Err(_) => Nowhere
    case Ok(resolved) =>
      if resolved.pointer in active then if path == [] then Cut(resolved.pointer) else Nowhere
      else if path == [] then Here(resolved)
      else if Under(resolved, path[0]).None? then Nowhere
      else Follow(root, active + {resolved.pointer}, Under(resolved, path[0]).value, path[1..])
  }

  /** Both nodes have the keyword or neither, and the same value of it when it is no schema. */
  ghost predicate SameKeyword(a: SchemaRef, b: SchemaRef, key: string) {
    var va, vb := MappingValue(a.node, key), MappingValue(b.node, key);
    && va.Some? == vb.Some?
    && (key == "additionalProperties" && va.Some? ==>
          va.value.Mapping? == vb.value.Mapping? && (va.value.Mapping? || va == vb))
  }

  /** The same own keys, up to the order of enum and required, and the same child keywords. */
  ghost predicate SameLevel(a: SchemaRef, b: SchemaRef) {
    SameOwn(a.node, b.node) && forall key :: key in CHILD_KEYS ==> SameKeyword(a, b, key)
  }

  ghost predicate SameSpot(x: Spot, y: Spot) {
    match x
    case Nowhere => y.Nowhere?
    case Cut(_) => x == y
    case Here(ref) => y.Here? && SameLevel(ref, y.ref)
  }

  // ---- Children by name ----

  lemma {:induction false} ByNameLast(props: seq<Property>, ps: seq<Projection>, name: string)
    requires |props| == |ps| && name in Names(props)
    ensures name in ByName(props, ps) && ByName(props, ps)[name] == ps[LastNamed(props, name)]
  {
    var n := |props| - 1;
    if props[n].name != name {
      NamesGrow(props, n);
      assert props[..n + 1] == props;
      ByNameLast(props[..n], ps[..n], name);
    }
  }

  ghost predicate SameByName(a: seq<Property>, pa: seq<Projection>, b: seq<Property>, pb: seq<Projection>, name: string)
    requires |a| == |pa| && |b| == |pb|
  {
    && (name in Names(a) <==> name in Names(b))
    && (name in Names(a) && name in Names(b) ==> pa[LastNamed(a, name)] == pb[LastNamed(b, name)])
  }

  lemma ByNameIff(a: seq<Property>, pa: seq<Projection>, b: seq<Property>, pb: seq<Projection>)
    requires |a| == |pa| && |b| == |pb|
    ensures ByName(a, pa) == ByName(b, pb) <==> forall name :: SameByName(a, pa, b, pb, name)
  {
    var ma, mb := ByName(a, pa), ByName(b, pb);
    ByNameKeys(a, pa);
    ByNameKeys(b, pb);
    forall name
      ensures SameByName(a, pa, b, pb, name) <==> (name in ma <==> name in mb) && (name in ma ==> ma[name] == mb[name])
    {
      if name in ma && name in mb {
        ByNameLast(a, pa, name);
        ByNameLast(b, pb, name);
      }
    }
    if forall name :: SameByName(a, pa, b, pb, name) {
      assert forall name :: name in ma <==> SameByName(a, pa, b, pb, name) && name in mb;
      assert ma == mb;
    }
  }

  // ---- Children of one keyword ----

  /** The hops of a keyword find corresponding places in both lists. */
  ghost predicate SameSlots(ra: SchemaRef, rb: SchemaRef, key: string, pa: seq<Projection>, pb: seq<Projection>)
    requires |pa| == |ChildRefs(ra, key)| && |pb| == |ChildRefs(rb, key)|
  {
    forall hop :: Keyword(hop) == key ==> SameSlot(ra, rb, key, pa, pb, hop)
  }

  ghost predicate SameSlot(ra: SchemaRef, rb: SchemaRef, key: string, pa: seq<Projection>, pb: seq<Projection>,
      hop: Hop)
    requires |pa| == |ChildRefs(ra, key)| && |pb| == |ChildRefs(rb, key)| && Keyword(hop) == key
  {
    var ia, ib := IndexUnder(ra, hop), IndexUnder(rb, hop);
    ia.Some? == ib.Some? && (ia.Some? && ib.Some? ==> pa[ia.value] == pb[ib.value])
  }

  /** The projection of a schema is a cycle or an object. */
  ghost predicate OfSchemas(ps: seq<Projection>) {
    forall i :: 0 <= i < |ps| ==> ps[i].Cycle? || ps[i].Object?
  }

  lemma PropertySlots(ra: SchemaRef, rb: SchemaRef, pa: seq<Projection>, pb: seq<Projection>)
    requires |pa| == |ChildRefs(ra, "properties")| == |OwnProperties(ra)|
    requires |pb| == |ChildRefs(rb, "properties")| == |OwnProperties(rb)|
    ensures SameSlots(ra, rb, "properties", pa, pb) <==>
              ByName(OwnProperties(ra), pa) == ByName(OwnProperties(rb), pb)
  {
    var a, b := OwnProperties(ra), OwnProperties(rb);
    ByNameIff(a, pa, b, pb);
    forall name
      ensures SameSlot(ra, rb, "properties", pa, pb, Named(name)) <==> SameByName(a, pa, b, pb, name)
    {
    }
    forall hop | Keyword(hop) == "properties" && hop.Nth?
      ensures SameSlot(ra, rb, "properties", pa, pb, hop)
    {
    }
    if SameSlots(ra, rb, "properties", pa, pb) {
      forall name
        ensures SameByName(a, pa, b, pb, name)
      {
        assert SameSlot(ra, rb, "properties", pa, pb, Named(name));
      }
    }
  }

  lemma SlotBound(ra: SchemaRef, rb: SchemaRef, key: string, pa: seq<Projection>, pb: seq<Projection>, i: nat)
    requires key in CHILD_KEYS && key != "properties"
    requires |pa| == |ChildRefs(ra, key)| && |pb| == |ChildRefs(rb, key)| && SameSlots(ra, rb, key, pa, pb)
    ensures i < |pa| <==> i < |pb|
    ensures i < |pa| && i < |pb| ==> pa[i] == pb[i]
  {
    assert SameSlot(ra, rb, key, pa, pb, Nth(key, i));
  }

  lemma ListedSlots(ra: SchemaRef, rb: SchemaRef, key: string, pa: seq<Projection>, pb: seq<Projection>)
    requires key in CHILD_KEYS && key != "properties"
    requires |pa| == |ChildRefs(ra, key)| && |pb| == |ChildRefs(rb, key)|
    ensures SameSlots(ra, rb, key, pa, pb) <==> pa == pb
  {
    if SameSlots(ra, rb, key, pa, pb) {
      SlotBound(ra, rb, key, pa, pb, |pa|);
      SlotBound(ra, rb, key, pa, pb, |pb|);
      forall i | 0 <= i < |pa|
        ensures pa[i] == pb[i]
      {
        SlotBound(ra, rb, key, pa, pb, i);
      }
    }
  }

  /** What a keyword puts into the projection is the same, if and only if it means the same. */
  lemma WrapIff(ra: SchemaRef, rb: SchemaRef, key: string, pa: seq<Projection>, pb: seq<Projection>)
    requires key in CHILD_KEYS && OfSchemas(pa) && OfSchemas(pb)
    requires |pa| == |ChildRefs(ra, key)| && |pb| == |ChildRefs(rb, key)|
    ensures MappingValue(ra.node, key).Some? == MappingValue(rb.node, key).Some? &&
              Wrap(ra, key, pa) == Wrap(rb, key, pb) <==>
            SameKeyword(ra, rb, key) && SameSlots(ra, rb, key, pa, pb)
  {
    var va, vb := MappingValue(ra.node, key), MappingValue(rb.node, key);
    if va.Some? && vb.Some? {
      if key == "properties" {
        WrapProperties(ra, rb, pa, pb);
      } else {
        ListedSlots(ra, rb, key, pa, pb);
        WrapListed(ra, rb, key, pa, pb);
      }
    } else if va.None? && vb.None? {
      NoSlots(ra, rb, key, pa, pb);
    }
  }

  lemma NoSlots(ra: SchemaRef, rb: SchemaRef, key: string, pa: seq<Projection>, pb: seq<Projection>)
    requires |pa| == |ChildRefs(ra, key)| && |pb| == |ChildRefs(rb, key)|
    requires MappingValue(ra.node, key).None? && MappingValue(rb.node, key).None?
    ensures SameSlots(ra, rb, key, pa, pb)
  {
  }

  lemma WrapProperties(ra: SchemaRef, rb: SchemaRef, pa: seq<Projection>, pb: seq<Projection>)
    requires |pa| == |ChildRefs(ra, "properties")| && |pb| == |ChildRefs(rb, "properties")|
    requires MappingValue(ra.node, "properties").Some? && MappingValue(rb.node, "properties").Some?
    ensures Wrap(ra, "properties", pa) == Wrap(rb, "properties", pb) <==> SameSlots(ra, rb, "properties", pa, pb)
  {
    PropertyChildren(ra);
    PropertyChildren(rb);
    PropertySlots(ra, rb, pa, pb);
    SameSingle("properties", Projection.Object(ByName(OwnProperties(ra), pa)),
               Projection.Object(ByName(OwnProperties(rb), pb)));
  }

  lemma SameSingle(key: string, x: Projection, y: Projection)
    ensures map[key := x] == map[key := y] <==> x == y
  {
    assert map[key := x][key] == x && map[key := y][key] == y;
  }

  lemma WrapListed(ra: SchemaRef, rb: SchemaRef, key: string, pa: seq<Projection>, pb: seq<Projection>)
    requires key in CHILD_KEYS && key != "properties" && OfSchemas(pa) && OfSchemas(pb)
    requires |pa| == |ChildRefs(ra, key)| && |pb| == |ChildRefs(rb, key)|
    requires MappingValue(ra.node, key).Some? && MappingValue(rb.node, key).Some?
    ensures Wrap(ra, key, pa) == Wrap(rb, key, pb) <==> SameKeyword(ra, rb, key) && pa == pb
  {
    var x, y := WrappedValue(ra, key, pa), WrappedValue(rb, key, pb);
    SameSingle(key, x, y);
  }

  /** What `Wrap` puts under a keyword other than `properties`. */
  ghost function WrappedValue(ref: SchemaRef, key: string, ps: seq<Projection>): (p: Projection)
    requires key in CHILD_KEYS && key != "properties"
    requires |ps| == |ChildRefs(ref, key)| && MappingValue(ref.node, key).Some?
    ensures Wrap(ref, key, ps) == map[key := p]
  {
    var value := MappingValue(ref.node, key).value;
    if key == "oneOf" || key == "anyOf" || key == "allOf" then List(ps)
    else if key == "additionalProperties" && !value.Mapping? then Value(value)
    else ps[0]
  }

  // ---- One level ----

  lemma ProjectOpens(root: Node, active: set<string>, ref: SchemaRef, resolved: SchemaRef)
    requires Project(root, active, ref).Ok? && Resolve(root, ref) == Ok(resolved) && resolved.pointer !in active
    ensures ProjectKeys(root, active + {resolved.pointer}, resolved, 0).Ok?
    ensures Project(root, active, ref).value == Projection.Object(OwnFields(resolved.node) +
              ProjectKeys(root, active + {resolved.pointer}, resolved, 0).value)
  {
  }

  lemma ProjectCuts(root: Node, active: set<string>, ref: SchemaRef)
    requires Project(root, active, ref).Ok?
    ensures Resolve(root, ref).Ok?
    ensures Resolve(root, ref).value.pointer in active ==>
              Project(root, active, ref).value == Cycle(Resolve(root, ref).value.pointer)
  {
  }

  lemma ProjectionShape(root: Node, active: set<string>, ref: SchemaRef)
    requires Project(root, active, ref).Ok?
    ensures Project(root, active, ref).value.Cycle? || Project(root, active, ref).value.Object?
  {
  }

  /** The children of a keyword, once the whole level is projected. */
  ghost function Children(root: Node, active: set<string>, resolved: SchemaRef, key: string): (ps: seq<Projection>)
    requires key in CHILD_KEYS && ProjectKeys(root, active, resolved, 0).Ok?
    ensures ProjectChildren(root, active, resolved, key, 0) == Ok(ps) && |ps| == |ChildRefs(resolved, key)|
  {
    var j :| 0 <= j < |CHILD_KEYS| && CHILD_KEYS[j] == key;
    KeysAt(root, active, resolved, 0, j);
    ProjectChildren(root, active, resolved, key, 0).value
  }

  lemma ChildProjects(root: Node, active: set<string>, resolved: SchemaRef, key: string, i: nat)
    requires key in CHILD_KEYS && i < |ChildRefs(resolved, key)| && ProjectKeys(root, active, resolved, 0).Ok?
    ensures Project(root, active, ChildRefs(resolved, key)[i]) == Ok(Children(root, active, resolved, key)[i])
  {
    var ps := Children(root, active, resolved, key);
    ChildrenPointwise(root, active, resolved, key, 0, i);
  }

  lemma ChildrenAreSchemas(root: Node, active: set<string>, resolved: SchemaRef, key: string)
    requires key in CHILD_KEYS && ProjectKeys(root, active, resolved, 0).Ok?
    ensures OfSchemas(Children(root, active, resolved, key))
  {
    var ps := Children(root, active, resolved, key);
    forall i | 0 <= i < |ps|
      ensures ps[i].Cycle? || ps[i].Object?
    {
      ChildProjects(root, active, resolved, key, i);
      ProjectionShape(root, active, ChildRefs(resolved, key)[i]);
    }
  }

  lemma UnderProjects(root: Node, active: set<string>, resolved: SchemaRef, hop: Hop)
    requires ProjectKeys(root, active, resolved, 0).Ok? && IndexUnder(resolved, hop).Some?
    ensures Project(root, active, Under(resolved, hop).value) ==
              Ok(Children(root, active, resolved, Keyword(hop))[IndexUnder(resolved, hop).value])
  {
    ChildProjects(root, active, resolved, Keyword(hop), IndexUnder(resolved, hop).value);
  }

  lemma EqualStep(rootA: Node, activeA: set<string>, ra: SchemaRef, rootB: Node, activeB: set<string>, rb: SchemaRef,
      k: nat)
    requires k < |CHILD_KEYS| && ProjectKeys(rootA, activeA, ra, k).Ok? && ProjectKeys(rootB, activeB, rb, k).Ok?
    ensures ProjectKeys(rootA, activeA, ra, k + 1).Ok? && ProjectKeys(rootB, activeB, rb, k + 1).Ok?
    ensures SameWrapped(rootA, activeA, ra, rootB, activeB, rb, CHILD_KEYS[k]) &&
            ProjectKeys(rootA, activeA, ra, k + 1) == ProjectKeys(rootB, activeB, rb, k + 1) ==>
              ProjectKeys(rootA, activeA, ra, k) == ProjectKeys(rootB, activeB, rb, k)
  {
    KeysStep(rootA, activeA, ra, k);
    KeysStep(rootB, activeB, rb, k);
  }

  lemma KeysEnd(root: Node, active: set<string>, resolved: SchemaRef)
    ensures ProjectKeys(root, active, resolved, |CHILD_KEYS|) == Ok(map[])
  {
  }

  /** Projections of all keywords that differ do so at one of them. */
  lemma {:induction false} DifferingKey(rootA: Node, activeA: set<string>, ra: SchemaRef, rootB: Node,
      activeB: set<string>, rb: SchemaRef, k: nat) returns (j: nat)
    requires k <= |CHILD_KEYS| && ProjectKeys(rootA, activeA, ra, k).Ok? && ProjectKeys(rootB, activeB, rb, k).Ok?
    requires ProjectKeys(rootA, activeA, ra, k) != ProjectKeys(rootB, activeB, rb, k)
    ensures k <= j < |CHILD_KEYS| && !SameWrapped(rootA, activeA, ra, rootB, activeB, rb, CHILD_KEYS[j])
    decreases |CHILD_KEYS| - k
  {
    KeysEnd(rootA, activeA, ra);
    KeysEnd(rootB, activeB, rb);
    EqualStep(rootA, activeA, ra, rootB, activeB, rb, k);
    j := k;
    if SameWrapped(rootA, activeA, ra, rootB, activeB, rb, CHILD_KEYS[k]) {
      j := DifferingKey(rootA, activeA, ra, rootB, activeB, rb, k + 1);
    }
  }

  /** The hop finds a child in both schemas or in neither, and their projections are equal. */
  ghost predicate SameHop(rootA: Node, activeA: set<string>, ra: SchemaRef, rootB: Node, activeB: set<string>,
      rb: SchemaRef, hop: Hop)
  {
    var ua, ub := Under(ra, hop), Under(rb, hop);
    && ua.Some? == ub.Some?
    && (ua.Some? && ub.Some? ==> Project(rootA, activeA, ua.value) == Project(rootB, activeB, ub.value))
  }

  lemma SlotIff(rootA: Node, activeA: set<string>, ra: SchemaRef, rootB: Node, activeB: set<string>, rb: SchemaRef,
      key: string, hop: Hop)
    requires key in CHILD_KEYS && Keyword(hop) == key
    requires ProjectKeys(rootA, activeA, ra, 0).Ok? && ProjectKeys(rootB, activeB, rb, 0).Ok?
    ensures SameSlot(ra, rb, key, Children(rootA, activeA, ra, key), Children(rootB, activeB, rb, key), hop) <==>
              SameHop(rootA, activeA, ra, rootB, activeB, rb, hop)
  {
    if IndexUnder(ra, hop).Some? && IndexUnder(rb, hop).Some? {
      UnderProjects(rootA, activeA, ra, hop);
      UnderProjects(rootB, activeB, rb, hop);
    }
  }

  /** A keyword contributes the same if and only if it means the same and its hops find equal projections. */
  lemma WrappedIff(rootA: Node, activeA: set<string>, ra: SchemaRef, rootB: Node, activeB: set<string>, rb: SchemaRef,
      key: string)
    requires key in CHILD_KEYS
    requires ProjectKeys(rootA, activeA, ra, 0).Ok? && ProjectKeys(rootB, activeB, rb, 0).Ok?
    ensures SameWrapped(rootA, activeA, ra, rootB, activeB, rb, key) <==>
              SameKeyword(ra, rb, key) &&
              forall hop :: Keyword(hop) == key ==> SameHop(rootA, activeA, ra, rootB, activeB, rb, hop)
  {
    var pa, pb := Children(rootA, activeA, ra, key), Children(rootB, activeB, rb, key);
    ChildrenAreSchemas(rootA, activeA, ra, key);
    ChildrenAreSchemas(rootB, activeB, rb, key);
    WrapIff(ra, rb, key, pa, pb);
    forall hop | Keyword(hop) == key
      ensures SameSlot(ra, rb, key, pa, pb, hop) <==> SameHop(rootA, activeA, ra, rootB, activeB, rb, hop)
    {
      SlotIff(rootA, activeA, ra, rootB, activeB, rb, key, hop);
    }
  }

  /** Equal projections of one level give the same level and equal projections at every hop. */
  lemma EqualLevel(rootA: Node, activeA: set<string>, ra: SchemaRef, rootB: Node, activeB: set<string>, rb: SchemaRef)
    requires ProjectKeys(rootA, activeA, ra, 0).Ok? && ProjectKeys(rootB, activeB, rb, 0).Ok?
    requires OwnFields(ra.node) + ProjectKeys(rootA, activeA, ra, 0).value ==
               OwnFields(rb.node) + ProjectKeys(rootB, activeB, rb, 0).value
    ensures SameLevel(ra, rb) && forall hop :: SameHop(rootA, activeA, ra, rootB, activeB, rb, hop)
  {
    SameProjectionSameStructure(rootA, activeA, ra, rootB, activeB, rb);
    forall key | key in CHILD_KEYS
      ensures SameKeyword(ra, rb, key)
      ensures forall hop :: Keyword(hop) == key ==> SameHop(rootA, activeA, ra, rootB, activeB, rb, hop)
    {
      var j :| 0 <= j < |CHILD_KEYS| && CHILD_KEYS[j] == key;
      WrappedIff(rootA, activeA, ra, rootB, activeB, rb, key);
    }
    forall hop | Keyword(hop) !in CHILD_KEYS
      ensures SameHop(rootA, activeA, ra, rootB, activeB, rb, hop)
    {
      assert IndexUnder(ra, hop).None? && IndexUnder(rb, hop).None?;
    }
  }

  /** Projections of one level that differ do so in the level or at a hop. */
  lemma DifferingHop(rootA: Node, activeA: set<string>, ra: SchemaRef, rootB: Node, activeB: set<string>,
      rb: SchemaRef) returns (hop: Hop)
    requires ProjectKeys(rootA, activeA, ra, 0).Ok? && ProjectKeys(rootB, activeB, rb, 0).Ok? && SameLevel(ra, rb)
    requires OwnFields(ra.node) + ProjectKeys(rootA, activeA, ra, 0).value !=
               OwnFields(rb.node) + ProjectKeys(rootB, activeB, rb, 0).value
    ensures !SameHop(rootA, activeA, ra, rootB, activeB, rb, hop)
  {
    SameOwnFields(ra.node, rb.node);
    var j := DifferingKey(rootA, activeA, ra, rootB, activeB, rb, 0);
    WrappedIff(rootA, activeA, ra, rootB, activeB, rb, CHILD_KEYS[j]);
    hop :| Keyword(hop) == CHILD_KEYS[j] && !SameHop(rootA, activeA, ra, rootB, activeB, rb, hop);
  }

  // ---- Every path ----

  ghost predicate SamePaths(rootA: Node, activeA: set<string>, a: SchemaRef, rootB: Node, activeB: set<string>,
      b: SchemaRef)
  {
    forall path :: SameSpot(Follow(rootA, activeA, a, path), Follow(rootB, activeB, b, path))
  }

  lemma {:induction false} EqualSpot(rootA: Node, activeA: set<string>, a: SchemaRef, rootB: Node,
      activeB: set<string>, b: SchemaRef, path: seq<Hop>)
    requires Project(rootA, activeA, a).Ok? && Project(rootA, activeA, a) == Project(rootB, activeB, b)
    ensures SameSpot(Follow(rootA, activeA, a, path), Follow(rootB, activeB, b, path))
    decreases |path|
  {
    ProjectCuts(rootA, activeA, a);
    ProjectCuts(rootB, activeB, b);
    var ra, rb := Resolve(rootA, a).value, Resolve(rootB, b).value;
    if ra.pointer !in activeA {
      ProjectOpens(rootA, activeA, a, ra);
    }
    if rb.pointer !in activeB {
      ProjectOpens(rootB, activeB, b, rb);
    }
    if ra.pointer !in activeA && rb.pointer !in activeB {
      var nextA, nextB := activeA + {ra.pointer}, activeB + {rb.pointer};
      EqualLevel(rootA, nextA, ra, rootB, nextB, rb);
      if path != [] {
        var hop := path[0];
        assert SameHop(rootA, nextA, ra, rootB, nextB, rb, hop);
        if Under(ra, hop).Some? {
          UnderProjects(rootA, nextA, ra, hop);
          EqualSpot(rootA, nextA, Under(ra, hop).value, rootB, nextB, Under(rb, hop).value, path[1..]);
        }
      }
    }
  }

  lemma UnderBudget(root: Node, active: set<string>, resolved: SchemaRef, hop: Hop)
    requires Under(resolved, hop).Some?
    ensures Budget(root, active, Under(resolved, hop).value) <= Budget(root, active, resolved)
  {
    ChildBudget(root, active, resolved, Keyword(hop), IndexUnder(resolved, hop).value);
  }

  lemma FollowOn(root: Node, active: set<string>, ref: SchemaRef, resolved: SchemaRef, hop: Hop, path: seq<Hop>)
    requires Resolve(root, ref) == Ok(resolved) && resolved.pointer !in active
    ensures Follow(root, active, ref, [hop] + path) ==
            if Under(resolved, hop).None? then Nowhere
            else Follow(root, active + {resolved.pointer}, Under(resolved, hop).value, path)
  {
    assert ([hop] + path)[1..] == path;
  }

  lemma Somewhere(root: Node, active: set<string>, ref: SchemaRef)
    requires Project(root, active, ref).Ok?
    ensures !Follow(root, active, ref, []).Nowhere?
  {
    ProjectCuts(root, active, ref);
  }

  /** Under a hop that only one of the schemas has. */
  lemma OneSided(rootA: Node, activeA: set<string>, a: SchemaRef, ra: SchemaRef, rootB: Node, activeB: set<string>,
      b: SchemaRef, rb: SchemaRef, hop: Hop)
    requires Resolve(rootA, a) == Ok(ra) && ra.pointer !in activeA
    requires Resolve(rootB, b) == Ok(rb) && rb.pointer !in activeB
    requires ProjectKeys(rootA, activeA + {ra.pointer}, ra, 0).Ok?
    requires Under(ra, hop).Some? && Under(rb, hop).None?
    ensures !Follow(rootA, activeA, a, [hop]).Nowhere? && Follow(rootB, activeB, b, [hop]).Nowhere?
  {
    assert [hop] + [] == [hop];
    FollowOn(rootA, activeA, a, ra, hop, []);
    FollowOn(rootB, activeB, b, rb, hop, []);
    UnderProjects(rootA, activeA + {ra.pointer}, ra, hop);
    Somewhere(rootA, activeA + {ra.pointer}, Under(ra, hop).value);
  }

  /** Projections that differ do so at some path. */
  lemma {:induction false} DifferingPath(rootA: Node, activeA: set<string>, a: SchemaRef, rootB: Node,
      activeB: set<string>, b: SchemaRef) returns (path: seq<Hop>)
    requires Project(rootA, activeA, a).Ok? && Project(rootB, activeB, b).Ok?
    requires Project(rootA, activeA, a) != Project(rootB, activeB, b)
    ensures !SameSpot(Follow(rootA, activeA, a, path), Follow(rootB, activeB, b, path))
    decreases Budget(rootA, activeA, a), 1
  {
    ProjectCuts(rootA, activeA, a);
    ProjectCuts(rootB, activeB, b);
    var ra, rb := Resolve(rootA, a).value, Resolve(rootB, b).value;
    if ra.pointer in activeA || rb.pointer in activeB || !SameLevel(ra, rb) {
      path := [];
    } else {
      path := DifferingBelow(rootA, activeA, a, ra, rootB, activeB, b, rb);
    }
  }

  lemma {:induction false} DifferingBelow(rootA: Node, activeA: set<string>, a: SchemaRef, ra: SchemaRef, rootB: Node,
      activeB: set<string>, b: SchemaRef, rb: SchemaRef) returns (path: seq<Hop>)
    requires Project(rootA, activeA, a).Ok? && Project(rootB, activeB, b).Ok?
    requires Project(rootA, activeA, a) != Project(rootB, activeB, b)
    requires Resolve(rootA, a) == Ok(ra) && ra.pointer !in activeA
    requires Resolve(rootB, b) == Ok(rb) && rb.pointer !in activeB && SameLevel(ra, rb)
    ensures !SameSpot(Follow(rootA, activeA, a, path), Follow(rootB, activeB, b, path))
    decreases Budget(rootA, activeA, a), 0
  {
    var nextA, nextB := activeA + {ra.pointer}, activeB + {rb.pointer};
    ProjectOpens(rootA, activeA, a, ra);
    ProjectOpens(rootB, activeB, b, rb);
    var hop := DifferingHop(rootA, nextA, ra, rootB, nextB, rb);
    if Under(ra, hop).Some? && Under(rb, hop).None? {
      OneSided(rootA, activeA, a, ra, rootB, activeB, b, rb, hop);
      path := [hop];
    } else if Under(ra, hop).None? {
      OneSided(rootB, activeB, b, rb, rootA, activeA, a, ra, hop);
      path := [hop];
    } else {
      BudgetDrops(rootA, activeA, a, ra);
      UnderBudget(rootA, nextA, ra, hop);
      UnderProjects(rootA, nextA, ra, hop);
      UnderProjects(rootB, nextB, rb, hop);
      var rest := DifferingPath(rootA, nextA, Under(ra, hop).value, rootB, nextB, Under(rb, hop).value);
      FollowOn(rootA, activeA, a, ra, hop, rest);
      FollowOn(rootB, activeB, b, rb, hop, rest);
      path := [hop] + rest;
    }
  }

  /** Projections are equal if and only if every path leads to corresponding spots: the same own keys up to order, the
      same child keywords, and cycles cut at the same pointers. */
  lemma SameProjectionIff(rootA: Node, activeA: set<string>, a: SchemaRef, rootB: Node, activeB: set<string>,
      b: SchemaRef)
    requires Project(rootA, activeA, a).Ok? && Project(rootB, activeB, b).Ok?
    ensures Project(rootA, activeA, a) == Project(rootB, activeB, b) <==>
              SamePaths(rootA, activeA, a, rootB, activeB, b)
  {
    if Project(rootA, activeA, a) == Project(rootB, activeB, b) {
      forall path
        ensures SameSpot(Follow(rootA, activeA, a, path), Follow(rootB, activeB, b, path))
      {
        EqualSpot(rootA, activeA, a, rootB, activeB, b, path);
      }
    } else {
      var path := DifferingPath(rootA, activeA, a, rootB, activeB, b);
    }
  }

  /** So fingerprints by a hash that tells the two projections apart are equal exactly then. */
  lemma SameFingerprintIff(rootA: Node, a: SchemaRef, rootB: Node, b: SchemaRef, hash: Projection -> string)
    requires Project(rootA, {}, a).Ok? && Project(rootB, {}, b).Ok?
    requires var p, q := Project(rootA, {}, a).value, Project(rootB, {}, b).value; hash(p) == hash(q) ==> p == q
    ensures FingerprintOf(rootA, a, hash) == FingerprintOf(rootB, b, hash) <==>
              SamePaths(rootA, {}, a, rootB, {}, b)
  {
    SameProjectionIff(rootA, {}, a, rootB, {}, b);
  }

  // ---- Which keywords are structural ----

  ghost predicate SameValue(a: Node, b: Node, key: string) {
    MappingValue(a, key) == MappingValue(b, key)
  }

  ghost predicate SameList(a: Node, b: Node, key: string) {
    SameTexts(MappingValue(a, key), MappingValue(b, key))
  }

  ghost predicate BothHave(a: Node, b: Node, key: string) {
    MappingValue(a, key).Some? == MappingValue(b, key).Some?
  }

  /** The two schemas agree on `type`, `format` and `deprecated`, on `enum` and `required` up to order, on which child
      keywords they have, and on an `additionalProperties` that is no schema; nothing else counts. */
  lemma SameLevelIff(a: SchemaRef, b: SchemaRef)
    ensures SameLevel(a, b) <==>
            && SameValue(a.node, b.node, "type") && SameValue(a.node, b.node, "format")
            && SameValue(a.node, b.node, "deprecated")
            && SameList(a.node, b.node, "enum") && SameList(a.node, b.node, "required")
            && BothHave(a.node, b.node, "properties") && BothHave(a.node, b.node, "items")
            && BothHave(a.node, b.node, "not") && BothHave(a.node, b.node, "oneOf")
            && BothHave(a.node, b.node, "anyOf") && BothHave(a.node, b.node, "allOf")
            && SameKeyword(a, b, "additionalProperties")
  {
    OwnLevelIff(a.node, b.node);
    ChildLevelIff(a, b);
  }

  lemma OwnLevelIff(a: Node, b: Node)
    ensures SameOwn(a, b) <==>
            && SameValue(a, b, "type") && SameValue(a, b, "format") && SameValue(a, b, "deprecated")
            && SameList(a, b, "enum") && SameList(a, b, "required")
  {
    var keys := ["type", "format", "deprecated", "enum", "required"];
    assert forall k :: k in OWN_KEYS <==> k in keys;
    assert SameOwn(a, b) <==> forall k :: k in keys ==> SameOwnKey(a, b, k);
    TextKeys();
    assert SameOwnKey(a, b, keys[0]) <==> SameValue(a, b, "type");
    assert SameOwnKey(a, b, keys[1]) <==> SameValue(a, b, "format");
    assert SameOwnKey(a, b, keys[2]) <==> SameValue(a, b, "deprecated");
    assert SameOwnKey(a, b, keys[3]) <==> SameList(a, b, "enum");
    assert SameOwnKey(a, b, keys[4]) <==> SameList(a, b, "required");
  }

  lemma TextKeys()
    ensures "enum" in TEXT_KEYS && "required" in TEXT_KEYS
    ensures "type" !in TEXT_KEYS && "format" !in TEXT_KEYS && "deprecated" !in TEXT_KEYS
  {
  }

  lemma ChildLevelIff(a: SchemaRef, b: SchemaRef)
    ensures (forall key :: key in CHILD_KEYS ==> SameKeyword(a, b, key)) <==>
            && BothHave(a.node, b.node, "properties") && BothHave(a.node, b.node, "items")
            && BothHave(a.node, b.node, "not") && BothHave(a.node, b.node, "oneOf")
            && BothHave(a.node, b.node, "anyOf") && BothHave(a.node, b.node, "allOf")
            && SameKeyword(a, b, "additionalProperties")
  {
    var keys := CHILD_KEYS;
    assert keys == ["properties", "items", "not", "oneOf", "anyOf", "allOf", "additionalProperties"];
    assert (forall key :: key in keys ==> SameKeyword(a, b, key)) <==>
           SameKeyword(a, b, keys[0]) && SameKeyword(a, b, keys[1]) && SameKeyword(a, b, keys[2]) &&
           SameKeyword(a, b, keys[3]) && SameKeyword(a, b, keys[4]) && SameKeyword(a, b, keys[5]) &&
           SameKeyword(a, b, keys[6]);
    OtherNames();
    PlainKeyword(a, b, keys[0]);
    PlainKeyword(a, b, keys[1]);
    PlainKeyword(a, b, keys[2]);
    PlainKeyword(a, b, keys[3]);
    PlainKeyword(a, b, keys[4]);
    PlainKeyword(a, b, keys[5]);
  }

  lemma PlainKeyword(a: SchemaRef, b: SchemaRef, key: string)
    requires key != "additionalProperties"
    ensures SameKeyword(a, b, key) <==> BothHave(a.node, b.node, key)
  {
  }

  lemma OtherNames()
    ensures "properties" != "additionalProperties" && "items" != "additionalProperties"
    ensures "not" != "additionalProperties" && "oneOf" != "additionalProperties"
    ensures "anyOf" != "additionalProperties" && "allOf" != "additionalProperties"
  {
  }
}

/** The cycle guard of the walk never hides a gap: whatever a route of used fields reaches without the guard, a
    successful walk reports, perhaps under a shorter field path. */
module GuardTheorems {
  import opened Oas
  import opened Coherence
  import opened SchemaView
  import opened ViewMeaning
  import opened Gaps
  import opened Walk
  import opened WalkTheorems

  // ---- Routes without the guard ----

  /** Where a route ends: at an unused field, known by its pointer and state. */
  datatype End = End(pointer: string, xState: string)

  /** A place on a route: a schema and the Go type it is read as. */
  datatype Place = Place(ref: SchemaRef, goType: GoType)

  function TypeOf(p: Place): TypeId {
    Deref(p.goType)
  }

  /** The walk would go on here, were it not for the guard. */
  ghost predicate Open(c: Context, p: Place) {
    && c.view(p.ref).Ok?
    && Followed(c, {}, c.view(p.ref).value, TypeOf(p))
  }

  ghost predicate FieldAt(c: Context, p: Place, i: nat, used: bool) {
    && Open(c, p)
    && var v := c.view(p.ref).value;
    && PlainObject(c, v, TypeOf(p)) && i < |v.properties| && v.properties[i].name in Info(c, TypeOf(p)).fields
    && c.view(v.properties[i].ref).Ok? && Visible(c.view(v.properties[i].ref).value)
    && FieldUsed(c, Info(c, TypeOf(p)).fields[v.properties[i].name]) == used
  }

  /** A hop the walk makes. */
  ghost predicate Walks(c: Context, p: Place, hop: WalkTheorems.Hop) {
    && Open(c, p)
    && var v := c.view(p.ref).value;
    && match hop
       case Element => ElemOf(c.types[TypeOf(p)].kind).Some? && v.items.Some?
       case Branch(i) => UnionObject(c, v, TypeOf(p)) && i < |v.oneOf|
       case Field(i) => FieldAt(c, p, i, true)
  }

  ghost function Next(c: Context, p: Place, hop: WalkTheorems.Hop): Place
    requires Walks(c, p, hop)
  {
    var v := c.view(p.ref).value;
    match hop
    case Element => Place(v.items.value, ElemOf(c.types[TypeOf(p)].kind).value)
    case Branch(i) => Place(v.oneOf[i], Info(c, TypeOf(p)).variants.value[i])
    case Field(i) => Place(v.properties[i].ref, Info(c, TypeOf(p)).fields[v.properties[i].name].typ)
  }

  /** The last hop, to an unused field. */
  ghost predicate Finds(c: Context, p: Place, hop: WalkTheorems.Hop, end: End) {
    && hop.Field? && FieldAt(c, p, hop.index, false)
    && var ref := c.view(p.ref).value.properties[hop.index].ref;
    && end == End(ref.pointer, c.view(ref).value.xState)
  }

  /** The route leads from the place to the end, with no regard to the guard. */
  ghost predicate Leads(c: Context, p: Place, route: seq<WalkTheorems.Hop>, end: End)
    decreases |route|
  {
    && route != []
    && if |route| == 1 then Finds(c, p, route[0], end)
       else Walks(c, p, route[0]) && Leads(c, Next(c, p, route[0]), route[1..], end)
  }

  ghost function KeyAt(c: Context, p: Place): string
    requires Open(c, p)
  {
    ActiveKey(c.view(p.ref).value, TypeOf(p))
  }

  lemma LeadsOpen(c: Context, p: Place, route: seq<WalkTheorems.Hop>, end: End)
    requires Leads(c, p, route, end)
    ensures Open(c, p)
  {
  }

  /** The places along a route, one per hop. */
  ghost function Places(c: Context, p: Place, route: seq<WalkTheorems.Hop>, end: End): (ps: seq<Place>)
    requires Leads(c, p, route, end)
    ensures |ps| == |route| && ps[0] == p
    decreases |route|
  {
    if |route| == 1 then [p] else [p] + Places(c, Next(c, p, route[0]), route[1..], end)
  }

  lemma {:induction false} PlacesLead(c: Context, p: Place, route: seq<WalkTheorems.Hop>, end: End, i: nat)
    requires Leads(c, p, route, end) && i < |route|
    ensures Leads(c, Places(c, p, route, end)[i], route[i..], end)
    decreases |route|
  {
    if i > 0 {
      PlacesLead(c, Next(c, p, route[0]), route[1..], end, i - 1);
      assert route[1..][i - 1..] == route[i..];
    } else {
      assert route[0..] == route;
    }
  }

  // ---- A route that never repeats a key passes the guard ----

  ghost predicate FreshKeys(c: Context, p: Place, route: seq<WalkTheorems.Hop>, end: End, active: set<string>)
    requires Leads(c, p, route, end)
    decreases |route|
  {
    LeadsOpen(c, p, route, end);
    && KeyAt(c, p) !in active
    && (|route| > 1 ==> FreshKeys(c, Next(c, p, route[0]), route[1..], end, active + {KeyAt(c, p)}))
  }

  lemma {:induction false} FreshIsReported(c: Context, p: Place, path: string, route: seq<WalkTheorems.Hop>, end: End,
                                           active: set<string>) returns (m: Member)
    requires Faithful(c) && Leads(c, p, route, end) && FreshKeys(c, p, route, end, active)
    ensures Reports(c, active, p.ref, p.goType, path, route, m) && m.pointer == end.pointer && m.xState == end.xState
    decreases |route|
  {
    var v, t := c.view(p.ref).value, TypeOf(p);
    assert Followed(c, active, v, t);
    var active' := active + {ActiveKey(v, t)};
    if |route| == 1 {
      var prop := v.properties[route[0].index];
      m := Member(JoinFieldPath(path, prop.name), prop.ref.pointer, c.view(prop.ref).value.xState);
      assert route[1..] == [];
    } else {
      var next := Next(c, p, route[0]);
      match route[0]
      case Element => m := FreshIsReported(c, next, path + "[]", route[1..], end, active');
      case Branch(i) => m := FreshIsReported(c, next, path, route[1..], end, active');
      case Field(i) =>
        m := FreshIsReported(c, next, JoinFieldPath(path, v.properties[i].name), route[1..], end, active');
    }
  }

  // ---- A repeated key can be cut out ----

  /** Type names do not contain the separator of the guard's keys. */
  ghost predicate PlainTypes(c: Context) {
    forall t :: t in c.types ==> '|' !in t
  }

  lemma LongerTail(p: string, t: string, p': string, t': string)
    requires p + "|" + t == p' + "|" + t' && |t| < |t'|
    ensures '|' in t'
  {
    var k := p + "|" + t;
    assert k[|p|] == '|';
    assert t'[|p| - |p'| - 1] == k[|p|];
  }

  lemma KeyParts(p: string, t: string, p': string, t': string)
    requires p + "|" + t == p' + "|" + t' && '|' !in t && '|' !in t'
    ensures p == p' && t == t'
  {
    if |t| < |t'| {
      LongerTail(p, t, p', t');
    } else if |t'| < |t| {
      LongerTail(p', t', p, t);
    } else {
      var k := p + "|" + t;
      assert k[..|p|] == p && k[..|p'|] == p' && k[|p| + 1..] == t && k[|p'| + 1..] == t';
    }
  }

  /** Every ref of the set looks up to its node. */
  ghost predicate AllCoherent(c: Context, refs: set<SchemaRef>) {
    Closed(c.root, refs) && forall r :: r in refs ==> Coherent(c.root, r)
  }

  lemma ViewInSet(c: Context, refs: set<SchemaRef>, ref: SchemaRef)
    requires Faithful(c) && Closed(c.root, refs) && ref in refs && c.view(ref).Ok?
    ensures ViewIn(c.view(ref).value, refs)
  {
    assert ViewFact(c, ref);
    ViewStaysIn(c.root, ref, refs);
  }

  lemma NextInSet(c: Context, refs: set<SchemaRef>, p: Place, hop: WalkTheorems.Hop)
    requires Faithful(c) && Closed(c.root, refs) && p.ref in refs && Walks(c, p, hop)
    ensures Next(c, p, hop).ref in refs
  {
    ViewInSet(c, refs, p.ref);
    var v := c.view(p.ref).value;
    match hop
    case Element =>
    case Branch(i) => assert v.oneOf[i] in v.oneOf;
    case Field(i) => assert v.properties[i] in v.properties;
  }

  lemma {:induction false} PlacesInSet(c: Context, refs: set<SchemaRef>, p: Place, route: seq<WalkTheorems.Hop>,
      end: End, i: nat)
    requires Faithful(c) && Closed(c.root, refs) && p.ref in refs && Leads(c, p, route, end) && i < |route|
    ensures Places(c, p, route, end)[i].ref in refs
    decreases |route|
  {
    if i > 0 {
      NextInSet(c, refs, p, route[0]);
      PlacesInSet(c, refs, Next(c, p, route[0]), route[1..], end, i - 1);
    }
  }

  /** Places with the same key are followed alike. */
  lemma SameKeySameContent(c: Context, refs: set<SchemaRef>, a: Place, b: Place)
    requires Faithful(c) && AllCoherent(c, refs) && PlainTypes(c) && a.ref in refs && b.ref in refs
    requires Open(c, a) && Open(c, b) && KeyAt(c, a) == KeyAt(c, b)
    ensures TypeOf(a) == TypeOf(b) && SameContent(c.view(a.ref).value, c.view(b.ref).value)
  {
    var va, vb := c.view(a.ref).value, c.view(b.ref).value;
    KeyParts(va.pointer, TypeOf(a), vb.pointer, TypeOf(b));
    ViewInSet(c, refs, a.ref);
    ViewInSet(c, refs, b.ref);
    assert Coherent(c.root, SchemaRef(va.node, va.pointer)) && Coherent(c.root, SchemaRef(vb.node, vb.pointer));
    assert ViewFact(c, a.ref) && ViewFact(c, b.ref);
    SameTarget(c.root, a.ref, b.ref);
  }

  lemma SameHop(c: Context, refs: set<SchemaRef>, a: Place, b: Place, hop: WalkTheorems.Hop, end: End)
    requires Faithful(c) && AllCoherent(c, refs) && PlainTypes(c) && a.ref in refs && b.ref in refs
    requires Open(c, a) && Open(c, b) && KeyAt(c, a) == KeyAt(c, b)
    ensures Walks(c, b, hop) ==> Walks(c, a, hop) && Next(c, a, hop) == Next(c, b, hop)
    ensures Finds(c, b, hop, end) ==> Finds(c, a, hop, end)
  {
    SameKeySameContent(c, refs, a, b);
  }

  lemma SameOnward(c: Context, refs: set<SchemaRef>, a: Place, b: Place, route: seq<WalkTheorems.Hop>, end: End)
    requires Faithful(c) && AllCoherent(c, refs) && PlainTypes(c) && a.ref in refs && b.ref in refs
    requires Open(c, a) && Open(c, b) && KeyAt(c, a) == KeyAt(c, b) && Leads(c, b, route, end)
    ensures Leads(c, a, route, end)
  {
    SameHop(c, refs, a, b, route[0], end);
  }

  /** A route can go on in another way from any of its places. */
  lemma {:induction false} GoOn(c: Context, p: Place, route: seq<WalkTheorems.Hop>, end: End, i: nat,
                                onward: seq<WalkTheorems.Hop>)
    requires Leads(c, p, route, end) && i < |route| && Leads(c, Places(c, p, route, end)[i], onward, end)
    ensures Leads(c, p, route[..i] + onward, end)
    decreases |route|
  {
    if i == 0 {
      assert route[..0] + onward == onward;
    } else {
      GoOn(c, Next(c, p, route[0]), route[1..], end, i - 1, onward);
      var whole := route[..i] + onward;
      assert whole[0] == route[0] && whole[1..] == route[1..][..i - 1] + onward;
    }
  }

  /** The key of the place at `i` occurs again at `j`. */
  ghost predicate RepeatsAt(c: Context, p: Place, route: seq<WalkTheorems.Hop>, end: End, i: nat, j: nat)
    requires Leads(c, p, route, end)
  {
    && i < j < |route|
    && var ps := Places(c, p, route, end);
    && Open(c, ps[i]) && Open(c, ps[j]) && KeyAt(c, ps[i]) == KeyAt(c, ps[j])
  }

  lemma CutOut(c: Context, refs: set<SchemaRef>, p: Place, route: seq<WalkTheorems.Hop>, end: End, i: nat, j: nat)
    requires Faithful(c) && AllCoherent(c, refs) && PlainTypes(c) && p.ref in refs
    requires Leads(c, p, route, end) && RepeatsAt(c, p, route, end, i, j)
    ensures Leads(c, p, route[..i] + route[j..], end)
  {
    var ps := Places(c, p, route, end);
    PlacesInSet(c, refs, p, route, end, i);
    PlacesInSet(c, refs, p, route, end, j);
    PlacesLead(c, p, route, end, j);
    SameOnward(c, refs, ps[i], ps[j], route[j..], end);
    GoOn(c, p, route, end, i, route[j..]);
  }

  /** A route is fresh, or meets an active key, or repeats one of its own. */
  lemma {:induction false} FreshOrNot(c: Context, p: Place, route: seq<WalkTheorems.Hop>, end: End, active: set<string>)
    returns (i: nat, j: nat)
    requires Leads(c, p, route, end) && !FreshKeys(c, p, route, end, active)
    ensures j < |route| && Open(c, Places(c, p, route, end)[j])
    ensures KeyAt(c, Places(c, p, route, end)[j]) in active || RepeatsAt(c, p, route, end, i, j)
    decreases |route|
  {
    LeadsOpen(c, p, route, end);
    if KeyAt(c, p) in active {
      i, j := 0, 0;
    } else {
      var next := Next(c, p, route[0]);
      var i', j' := FreshOrNot(c, next, route[1..], end, active + {KeyAt(c, p)});
      var ps, rest := Places(c, p, route, end), Places(c, next, route[1..], end);
      assert ps == [p] + rest;
      assert ps[j' + 1] == rest[j'];
      if KeyAt(c, rest[j']) == KeyAt(c, p) {
        i, j := 0, j' + 1;
      } else {
        i, j := i' + 1, j' + 1;
        if KeyAt(c, rest[j']) !in active {
          assert ps[i' + 1] == rest[i'];
        }
      }
    }
  }

  /** Every route of used fields, taken without the guard, has a guarded route to the same end. */
  lemma {:induction false} GuardHidesNothing(c: Context, refs: set<SchemaRef>, p: Place, path: string,
      route: seq<WalkTheorems.Hop>, end: End)
    returns (route': seq<WalkTheorems.Hop>, m: Member)
    requires Faithful(c) && AllCoherent(c, refs) && PlainTypes(c) && p.ref in refs && Leads(c, p, route, end)
    ensures Reports(c, {}, p.ref, p.goType, path, route', m) && m.pointer == end.pointer && m.xState == end.xState
    decreases |route|
  {
    if FreshKeys(c, p, route, end, {}) {
      route' := route;
      m := FreshIsReported(c, p, path, route, end, {});
    } else {
      var i, j := FreshOrNot(c, p, route, end, {});
      CutOut(c, refs, p, route, end, i, j);
      route', m := GuardHidesNothing(c, refs, p, path, route[..i] + route[j..], end);
    }
  }

  /** So a successful walk reports the end of every unguarded route, when what it meets is coherent and type names do
      not contain the separator of the keys. */
  lemma EveryGapIsReported(c: Context, ref: SchemaRef, goType: GoType, path: string,
      route: seq<WalkTheorems.Hop>, end: End)
    requires Faithful(c) && PlainTypes(c) && Leads(c, Place(ref, goType), route, end)
    requires forall r :: Meets(c.root, ref, r) ==> Coherent(c.root, r)
    requires GapsOf(c, {}, ref, goType, path).result.Ok?
    ensures exists m :: m in GapsOf(c, {}, ref, goType, path).result.value &&
                        m.pointer == end.pointer && m.xState == end.xState
  {
    var refs := MetSet(c.root, ref);
    MetIsClosed(c.root, ref);
    forall r | r in refs
      ensures Coherent(c.root, r)
    {
      InMetSet(c.root, ref, r);
    }
    var route', m := GuardHidesNothing(c, refs, Place(ref, goType), path, route, end);
    GapsComplete(c, {}, ref, goType, path, route', m);
  }

  /** And it reports nothing else: every member is the end of an unguarded route. */
  lemma {:induction false} ReportedLeads(c: Context, active: set<string>, ref: SchemaRef, goType: GoType, path: string,
                                         route: seq<WalkTheorems.Hop>, m: Member)
    requires Faithful(c) && Reports(c, active, ref, goType, path, route, m)
    ensures Leads(c, Place(ref, goType), route, End(m.pointer, m.xState))
    decreases |route|
  {
    var p := Place(ref, goType);
    var v, t := c.view(ref).value, Deref(goType);
    var active' := active + {ActiveKey(v, t)};
    match route[0]
    case Element =>
      ReportedLeads(c, active', v.items.value, ElemOf(c.types[t].kind).value, path + "[]", route[1..], m);
    case Branch(i) =>
      ReportedLeads(c, active', v.oneOf[i], Info(c, t).variants.value[i], path, route[1..], m);
    case Field(i) =>
      var prop := v.properties[i];
      var entry := Info(c, t).fields[prop.name];
      if FieldUsed(c, entry) {
        ReportedLeads(c, active', prop.ref, entry.typ, JoinFieldPath(path, prop.name), route[1..], m);
      }
  }
}

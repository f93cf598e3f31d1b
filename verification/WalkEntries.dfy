/** What the entries of a walk are: one per visible property or parameter, in order, each with the name, ref and
    required flag of its own, and with exactly the members that the routes through it reach. */
module WalkEntries {
  import opened Text
  import opened Oas
  import opened SchemaView
  import opened ViewContents
  import opened Gaps
  import opened Walk
  import opened WalkTheorems

  // ---- Lists that follow places ----

  ghost predicate Rising(places: seq<nat>) {
    forall i, j :: 0 <= i < j < |places| ==> places[i] < places[j]
  }

  lemma ConsRising(first: nat, rest: seq<nat>)
    requires Rising(rest) && forall i :: i in rest ==> first < i
    ensures Rising([first] + rest)
  {
    var all := [first] + rest;
    forall i, j | 0 <= i < j < |all|
      ensures all[i] < all[j]
    {
      assert all[j] == rest[j - 1] && rest[j - 1] in rest;
    }
  }

  // ---- Struct bodies ----

  /** The property has a view and is neither hidden nor unsupported. */
  predicate VisibleAt(c: Context, v: View, i: nat)
    requires i < |v.properties|
  {
    c.view(v.properties[i].ref).Ok? && Visible(c.view(v.properties[i].ref).value)
  }

  ghost predicate FieldReported(c: Context, active: set<string>, v: View, i: nat, t: TypeId, path: string, m: Member)
    requires Faithful(c) && i < |v.properties|
  {
    exists rest :: FieldReports(c, active, v, i, t, path, rest, m)
  }

  predicate OwnEntry(prop: Property, g: PropGap) {
    g.name == prop.name && g.ref == prop.ref && g.required == prop.required && !g.query
  }

  /** `g` is the entry of the i-th property: its name, ref and flag, and the ends of the routes that start there. */
  ghost predicate EntryHolds(c: Context, active: set<string>, v: View, i: nat, t: TypeId, path: string, g: PropGap)
    requires Faithful(c) && i < |v.properties|
  {
    && OwnEntry(v.properties[i], g)
    && forall m :: m in g.members <==> FieldReported(c, active, v, i, t, path, m)
  }

  /** `places` are the visible properties from `from` on, in order. */
  ghost predicate VisiblePlaces(c: Context, v: View, from: nat, places: seq<nat>) {
    && Rising(places)
    && forall i: nat :: i in places <==> from <= i < |v.properties| && VisibleAt(c, v, i)
  }

  ghost predicate EntriesFollow(c: Context, active: set<string>, v: View, t: TypeId, path: string, gaps: seq<PropGap>,
      places: seq<nat>)
    requires Faithful(c)
  {
    && |gaps| == |places|
    && forall k :: 0 <= k < |gaps| ==>
         places[k] < |v.properties| && EntryHolds(c, active, v, places[k], t, path, gaps[k])
  }

  /** An unmarked field is reported itself, under its dotted path; beneath a marked one the walk goes on. */
  lemma FieldReportedIff(c: Context, active: set<string>, v: View, i: nat, t: TypeId, path: string, m: Member)
    requires Faithful(c) && i < |v.properties| && VisibleAt(c, v, i) && v.properties[i].name in Info(c, t).fields
    ensures var prop := v.properties[i];
            var entry := Info(c, t).fields[prop.name];
            var fieldPath := if path == "" then prop.name else path + "." + prop.name;
            FieldReported(c, active, v, i, t, path, m) <==>
            if (entry.owner, entry.goName) in c.usage.fields then
              Reported(c, active, prop.ref, entry.typ, fieldPath, m)
            else m == Member(fieldPath, prop.ref.pointer, c.view(prop.ref).value.xState)
  {
    var prop := v.properties[i];
    var entry := Info(c, t).fields[prop.name];
    var fieldPath := JoinFieldPath(path, prop.name);
    if FieldUsed(c, entry) {
      forall rest
        ensures FieldReports(c, active, v, i, t, path, rest, m) <==>
                Reports(c, active, prop.ref, entry.typ, fieldPath, rest, m)
      {
      }
    } else {
      assert FieldReports(c, active, v, i, t, path, [], m) <==>
             m == Member(fieldPath, prop.ref.pointer, c.view(prop.ref).value.xState);
    }
  }

  /** Nothing is reported beneath a type that is marked, itself or where it was declared from. */
  lemma OpaqueEnds(c: Context, active: set<string>, ref: SchemaRef, goType: GoType, path: string)
    requires Faithful(c) && c.view(ref).Ok?
    requires var t := Deref(goType);
             t in c.usage.opaqueTypes ||
             (t in c.types && c.types[t].source.Some? && c.types[t].source.value in c.usage.opaqueTypes)
    ensures GapsOf(c, active, ref, goType, path).result == Ok([])
  {
    var v := c.view(ref).value;
    assert GapsOf(c, active, ref, goType, path) == ViewGapsOf(c, active, ref, v, goType, path);
  }

  lemma PropertyEntry(c: Context, active: set<string>, ref: SchemaRef, v: View, i: nat, t: TypeId, path: string)
    requires Faithful(c) && c.view(ref) == Ok(v) && i < |v.properties|
    requires PropertyGap(c, active, ref, v, i, t, path).result.Ok?
    ensures var gaps := PropertyGap(c, active, ref, v, i, t, path).result.value;
            |gaps| == (if VisibleAt(c, v, i) then 1 else 0) &&
            (gaps != [] ==> EntryHolds(c, active, v, i, t, path, gaps[0]))
  {
    PropertyShape(c, active, ref, v, i, t, path);
    var gaps := PropertyGap(c, active, ref, v, i, t, path).result.value;
    if gaps != [] {
      forall m
        ensures m in gaps[0].members <==> FieldReported(c, active, v, i, t, path, m)
      {
        PropertyMembers(c, active, ref, v, i, t, path, gaps[0], m);
      }
    }
  }

  lemma PropertyShape(c: Context, active: set<string>, ref: SchemaRef, v: View, i: nat, t: TypeId, path: string)
    requires Faithful(c) && c.view(ref) == Ok(v) && i < |v.properties|
    requires PropertyGap(c, active, ref, v, i, t, path).result.Ok?
    ensures var gaps, prop := PropertyGap(c, active, ref, v, i, t, path).result.value, v.properties[i];
            && |gaps| == (if VisibleAt(c, v, i) then 1 else 0)
            && (gaps != [] ==> OwnEntry(prop, gaps[0]))
  {
  }

  lemma PropertyMembers(c: Context, active: set<string>, ref: SchemaRef, v: View, i: nat, t: TypeId, path: string,
      g: PropGap, m: Member)
    requires Faithful(c) && c.view(ref) == Ok(v) && i < |v.properties|
    requires var r := PropertyGap(c, active, ref, v, i, t, path).result; r.Ok? && g in r.value
    ensures m in g.members <==> FieldReported(c, active, v, i, t, path, m)
  {
    if m in g.members {
      var rest := PropertySound(c, active, ref, v, i, t, path, g, m);
    } else {
      GapOfProperty(c, active, ref, v, i, t, path, g);
      forall rest
        ensures !FieldReports(c, active, v, i, t, path, rest, m)
      {
        NotMember(c, active, v, i, t, path, g, rest, m);
      }
    }
  }

  lemma NotMember(c: Context, active: set<string>, v: View, i: nat, t: TypeId, path: string, g: PropGap,
      rest: seq<WalkTheorems.Hop>, m: Member)
    requires Faithful(c) && i < |v.properties| && m !in g.members
    requires var prop := v.properties[i];
             && prop.name in Info(c, t).fields && c.view(prop.ref).Ok?
             && var entry := Info(c, t).fields[prop.name];
             && var fieldPath := JoinFieldPath(path, prop.name);
             && if FieldUsed(c, entry) then GapsOf(c, active, prop.ref, entry.typ, fieldPath).result == Ok(g.members)
                else g.members == [Member(fieldPath, prop.ref.pointer, c.view(prop.ref).value.xState)]
    ensures !FieldReports(c, active, v, i, t, path, rest, m)
  {
    if FieldReports(c, active, v, i, t, path, rest, m) {
      var prop := v.properties[i];
      var entry := Info(c, t).fields[prop.name];
      if FieldUsed(c, entry) {
        GapsComplete(c, active, prop.ref, entry.typ, JoinFieldPath(path, prop.name), rest, m);
      }
    }
  }

  /** A struct that is walked with success yields exactly one entry per visible property, in their order. */
  lemma {:induction false} StructEntries(c: Context, active: set<string>, ref: SchemaRef, v: View, from: nat, t: TypeId,
      path: string) returns (places: seq<nat>)
    requires Faithful(c) && c.view(ref) == Ok(v) && from <= |v.properties|
    requires StructGapsOf(c, active, ref, v, from, t, path).result.Ok?
    ensures VisiblePlaces(c, v, from, places)
    ensures EntriesFollow(c, active, v, t, path, StructGapsOf(c, active, ref, v, from, t, path).result.value, places)
    decreases |v.properties| - from
  {
    if from == |v.properties| {
      places := [];
    } else {
      StructCons(c, active, ref, v, from, t, path);
      PropertyEntry(c, active, ref, v, from, t, path);
      var rest := StructEntries(c, active, ref, v, from + 1, t, path);
      places := (if VisibleAt(c, v, from) then [from] else []) + rest;
      PlacesCons(c, v, from, rest);
      EntriesCons(c, active, v, t, path, from, PropertyGap(c, active, ref, v, from, t, path).result.value,
                  StructGapsOf(c, active, ref, v, from + 1, t, path).result.value, rest);
    }
  }

  lemma PlacesCons(c: Context, v: View, from: nat, rest: seq<nat>)
    requires from < |v.properties| && VisiblePlaces(c, v, from + 1, rest)
    ensures VisiblePlaces(c, v, from, (if VisibleAt(c, v, from) then [from] else []) + rest)
  {
    assert [] + rest == rest;
    ConsRising(from, rest);
  }

  lemma EntriesCons(c: Context, active: set<string>, v: View, t: TypeId, path: string, from: nat,
      first: seq<PropGap>, later: seq<PropGap>, rest: seq<nat>)
    requires Faithful(c) && from < |v.properties| && |first| == (if VisibleAt(c, v, from) then 1 else 0)
    requires first != [] ==> EntryHolds(c, active, v, from, t, path, first[0])
    requires EntriesFollow(c, active, v, t, path, later, rest)
    ensures EntriesFollow(c, active, v, t, path, first + later, (if VisibleAt(c, v, from) then [from] else []) + rest)
  {
    var places := (if VisibleAt(c, v, from) then [from] else []) + rest;
    forall k | 0 <= k < |first + later|
      ensures places[k] < |v.properties| && EntryHolds(c, active, v, places[k], t, path, (first + later)[k])
    {
      if k >= |first| {
        assert (first + later)[k] == later[k - |first|] && places[k] == rest[k - |first|];
      }
    }
  }

  lemma StructCons(c: Context, active: set<string>, ref: SchemaRef, v: View, from: nat, t: TypeId, path: string)
    requires Faithful(c) && c.view(ref) == Ok(v) && from < |v.properties|
    requires StructGapsOf(c, active, ref, v, from, t, path).result.Ok?
    ensures PropertyGap(c, active, ref, v, from, t, path).result.Ok?
    ensures StructGapsOf(c, active, ref, v, from + 1, t, path).result.Ok?
    ensures StructGapsOf(c, active, ref, v, from, t, path).result.value ==
            PropertyGap(c, active, ref, v, from, t, path).result.value +
            StructGapsOf(c, active, ref, v, from + 1, t, path).result.value
  {
  }

  // ---- Bodies: through unions down to a struct ----

  /** A place in a body: the branches to take, then the property. */
  type Place = seq<nat>

  ghost predicate Before(a: Place, b: Place) {
    a != [] && b != [] && (a[0] < b[0] || (a[0] == b[0] && Before(a[1..], b[1..])))
  }

  /** `p` leads through union branches to a visible property of a struct body. */
  ghost predicate BodyPlace(c: Context, ref: SchemaRef, goType: GoType, p: Place)
    decreases |p|
  {
    && p != [] && c.view(ref).Ok?
    && var v := c.view(ref).value;
    && var t := Deref(goType);
    && BodyFollowed(c, v, t)
    && if Info(c, t).variants.Some? then
         && p[0] < |v.oneOf| == |Info(c, t).variants.value|
         && BodyPlace(c, v.oneOf[p[0]], Info(c, t).variants.value[p[0]], p[1..])
       else Info(c, t).kind.Struct? && |p| == 1 && p[0] < |v.properties| && VisibleAt(c, v, p[0])
  }

  /** `g` is the entry of the property at `p`. */
  ghost predicate BodyEntry(c: Context, active: set<string>, ref: SchemaRef, goType: GoType, p: Place, g: PropGap)
    requires Faithful(c) && BodyPlace(c, ref, goType, p)
    decreases |p|
  {
    var v := c.view(ref).value;
    var t := Deref(goType);
    if Info(c, t).variants.Some? then
      BodyEntry(c, active, v.oneOf[p[0]], Info(c, t).variants.value[p[0]], p[1..], g)
    else EntryHolds(c, active, v, p[0], t, "", g)
  }

  /** The property a place leads to. */
  ghost function PropertyAt(c: Context, ref: SchemaRef, goType: GoType, p: Place): Property
    requires BodyPlace(c, ref, goType, p)
    decreases |p|
  {
    var v := c.view(ref).value;
    var t := Deref(goType);
    if Info(c, t).variants.Some? then PropertyAt(c, v.oneOf[p[0]], Info(c, t).variants.value[p[0]], p[1..])
    else v.properties[p[0]]
  }

  /** The hops to the property at `p`. */
  function HopsTo(p: Place): seq<WalkTheorems.Hop> {
    if p == [] then [] else if |p| == 1 then [Field(p[0])] else [Branch(p[0])] + HopsTo(p[1..])
  }

  /** Some route through the property at `p` ends at `m`. */
  ghost predicate ReachedAt(c: Context, active: set<string>, ref: SchemaRef, goType: GoType, p: Place, m: Member)
    requires Faithful(c)
  {
    exists rest :: BodyReports(c, active, ref, goType, HopsTo(p) + rest, m)
  }

  lemma BranchRoute(c: Context, active: set<string>, ref: SchemaRef, goType: GoType, v: View, p: Place,
      rest: seq<WalkTheorems.Hop>, m: Member)
    requires Faithful(c) && BodyPlace(c, ref, goType, p) && c.view(ref) == Ok(v)
    requires Info(c, Deref(goType)).variants.Some?
    ensures BodyReports(c, active, ref, goType, HopsTo(p) + rest, m) <==>
            BodyReports(c, active, v.oneOf[p[0]], Info(c, Deref(goType)).variants.value[p[0]], HopsTo(p[1..]) + rest, m)
  {
    assert p[1..] != [] && |p| > 1;
    assert HopsTo(p) + rest == [Branch(p[0])] + (HopsTo(p[1..]) + rest);
    assert (HopsTo(p) + rest)[1..] == HopsTo(p[1..]) + rest;
  }

  lemma FieldRoute(c: Context, active: set<string>, ref: SchemaRef, goType: GoType, v: View, p: Place,
      rest: seq<WalkTheorems.Hop>, m: Member)
    requires Faithful(c) && BodyPlace(c, ref, goType, p) && c.view(ref) == Ok(v)
    requires Info(c, Deref(goType)).variants.None?
    ensures BodyReports(c, active, ref, goType, HopsTo(p) + rest, m) <==>
            FieldReports(c, active, v, p[0], Deref(goType), "", rest, m)
  {
    assert (HopsTo(p) + rest)[1..] == rest;
  }

  lemma {:induction false} ReachedIff(c: Context, active: set<string>, ref: SchemaRef, goType: GoType, p: Place,
      g: PropGap, m: Member)
    requires Faithful(c) && BodyPlace(c, ref, goType, p) && BodyEntry(c, active, ref, goType, p, g)
    ensures m in g.members <==> ReachedAt(c, active, ref, goType, p, m)
    decreases |p|
  {
    var v := c.view(ref).value;
    var t := Deref(goType);
    if Info(c, t).variants.Some? {
      var branch, variant := v.oneOf[p[0]], Info(c, t).variants.value[p[0]];
      ReachedIff(c, active, branch, variant, p[1..], g, m);
      if rest :| BodyReports(c, active, ref, goType, HopsTo(p) + rest, m) {
        BranchRoute(c, active, ref, goType, v, p, rest, m);
      }
      if rest :| BodyReports(c, active, branch, variant, HopsTo(p[1..]) + rest, m) {
        BranchRoute(c, active, ref, goType, v, p, rest, m);
      }
    } else {
      if rest :| BodyReports(c, active, ref, goType, HopsTo(p) + rest, m) {
        FieldRoute(c, active, ref, goType, v, p, rest, m);
      }
      if rest :| FieldReports(c, active, v, p[0], t, "", rest, m) {
        FieldRoute(c, active, ref, goType, v, p, rest, m);
      }
    }
  }

  /** The entry at a place has the name, ref and flag of its property, and exactly the ends of the routes through it. */
  lemma {:induction false} BodyEntryIs(c: Context, active: set<string>, ref: SchemaRef, goType: GoType, p: Place,
      g: PropGap)
    requires Faithful(c) && BodyPlace(c, ref, goType, p) && BodyEntry(c, active, ref, goType, p, g)
    ensures OwnEntry(PropertyAt(c, ref, goType, p), g)
    ensures forall m :: m in g.members <==> ReachedAt(c, active, ref, goType, p, m)
    decreases |p|
  {
    var v := c.view(ref).value;
    var t := Deref(goType);
    if Info(c, t).variants.Some? {
      BodyEntryIs(c, active, v.oneOf[p[0]], Info(c, t).variants.value[p[0]], p[1..], g);
    }
    forall m
      ensures m in g.members <==> ReachedAt(c, active, ref, goType, p, m)
    {
      ReachedIff(c, active, ref, goType, p, g, m);
    }
  }

  /** `places` are all places of the body, in order. */
  ghost predicate BodyPlaces(c: Context, ref: SchemaRef, goType: GoType, places: seq<Place>) {
    && (forall i, j :: 0 <= i < j < |places| ==> Before(places[i], places[j]))
    && forall p :: p in places <==> BodyPlace(c, ref, goType, p)
  }

  ghost predicate BodyFollows(c: Context, active: set<string>, ref: SchemaRef, goType: GoType, gaps: seq<PropGap>,
      places: seq<Place>)
    requires Faithful(c)
  {
    && |gaps| == |places|
    && forall k :: 0 <= k < |gaps| ==>
         BodyPlace(c, ref, goType, places[k]) && BodyEntry(c, active, ref, goType, places[k], gaps[k])
  }

  /** The places of the branches from `from` on. */
  ghost predicate UnionPlaces(c: Context, ref: SchemaRef, goType: GoType, from: nat, places: seq<Place>) {
    && (forall i, j :: 0 <= i < j < |places| ==> Before(places[i], places[j]))
    && forall p :: p in places <==> BodyPlace(c, ref, goType, p) && from <= p[0]
  }

  function Prefixed(i: nat, places: seq<Place>): (r: seq<Place>)
    ensures |r| == |places| && forall k :: 0 <= k < |r| ==> r[k] == [i] + places[k]
  {
    seq(|places|, k requires 0 <= k < |places| => [i] + places[k])
  }

  lemma SinglePlaces(c: Context, ref: SchemaRef, goType: GoType, v: View, indices: seq<nat>, places: seq<Place>)
    requires c.view(ref) == Ok(v) && BodyFollowed(c, v, Deref(goType)) && Info(c, Deref(goType)).variants.None?
    requires Info(c, Deref(goType)).kind.Struct? && VisiblePlaces(c, v, 0, indices)
    requires |places| == |indices| && forall k :: 0 <= k < |places| ==> places[k] == [indices[k]]
    ensures BodyPlaces(c, ref, goType, places)
  {
    forall p
      ensures p in places <==> BodyPlace(c, ref, goType, p)
    {
      if p in places {
        var k :| 0 <= k < |places| && places[k] == p;
        assert indices[k] in indices;
      }
      if BodyPlace(c, ref, goType, p) {
        assert p[0] in indices;
        var k :| 0 <= k < |indices| && indices[k] == p[0];
        assert places[k] == p;
      }
    }
  }

  lemma UnionCons(c: Context, ref: SchemaRef, goType: GoType, v: View, variants: seq<GoType>, from: nat,
      own: seq<Place>, rest: seq<Place>)
    requires c.view(ref) == Ok(v) && BodyFollowed(c, v, Deref(goType))
    requires Info(c, Deref(goType)).variants == Some(variants)
    requires from < |v.oneOf| == |variants| && BodyPlaces(c, v.oneOf[from], variants[from], own)
    requires UnionPlaces(c, ref, goType, from + 1, rest)
    ensures UnionPlaces(c, ref, goType, from, Prefixed(from, own) + rest)
  {
    var mine := Prefixed(from, own);
    var all := mine + rest;
    forall p
      ensures p in mine <==> BodyPlace(c, ref, goType, p) && p[0] == from
    {
      if p in mine {
        var k :| 0 <= k < |mine| && mine[k] == p;
        assert p[1..] == own[k] && own[k] in own;
      }
      if BodyPlace(c, ref, goType, p) && p[0] == from {
        assert p[1..] in own;
        var k :| 0 <= k < |own| && own[k] == p[1..];
        assert mine[k] == p;
      }
    }
    forall i, j | 0 <= i < j < |all|
      ensures Before(all[i], all[j])
    {
      if j < |mine| {
        assert all[i][1..] == own[i] && all[j][1..] == own[j];
      } else if |mine| <= i {
        assert Before(rest[i - |mine|], rest[j - |mine|]);
      } else {
        assert all[i] in mine && all[j] == rest[j - |mine|] && all[j] in rest;
      }
    }
  }

  /** A body that is walked with success yields exactly one entry per visible property, branch by branch and in the
      order of the properties. */
  lemma {:induction false} BodyEntries(c: Context, active: set<string>, ref: SchemaRef, goType: GoType)
    returns (places: seq<Place>)
    requires Faithful(c) && UnionsEnd(ReadingOf(c), ref, goType) && BodyGapsOf(c, active, ref, goType).result.Ok?
    ensures BodyPlaces(c, ref, goType, places)
    ensures BodyFollows(c, active, ref, goType, BodyGapsOf(c, active, ref, goType).result.value, places)
    decreases UnionDepth(ReadingOf(c), ref, goType), 1, 0
  {
    var v, t := c.view(ref).value, Deref(goType);
    if !BodyFollowed(c, v, t) {
      places := [];
    } else if Info(c, t).variants.Some? {
      var variants := Info(c, t).variants.value;
      if |v.oneOf| == 0 {
        places := [];
      } else {
        places := UnionEntries(c, active, ref, goType, v, variants, 0);
      }
    } else if Info(c, t).kind.Struct? && |v.properties| > 0 {
      var indices := StructEntries(c, active, ref, v, 0, t, "");
      places := seq(|indices|, k requires 0 <= k < |indices| => [indices[k]]);
      SinglePlaces(c, ref, goType, v, indices, places);
    } else {
      places := [];
    }
  }

  lemma {:induction false} UnionEntries(c: Context, active: set<string>, ref: SchemaRef, goType: GoType, v: View,
      variants: seq<GoType>, from: nat) returns (places: seq<Place>)
    requires Faithful(c) && UnionsEnd(ReadingOf(c), ref, goType) && c.view(ref) == Ok(v)
    requires BodyFollowed(c, v, Deref(goType))
    requires Info(c, Deref(goType)).variants == Some(variants) && from <= |v.oneOf| == |variants|
    requires BodyUnionOf(c, active, ref, goType, v, variants, from).result.Ok?
    ensures UnionPlaces(c, ref, goType, from, places)
    ensures BodyFollows(c, active, ref, goType,
              BodyUnionOf(c, active, ref, goType, v, variants, from).result.value, places)
    decreases UnionDepth(ReadingOf(c), ref, goType), 0, |v.oneOf| - from
  {
    if from == |v.oneOf| {
      places := [];
    } else {
      UnionDepthDrops(c, ref, goType, v, variants, from);
      var own := BodyEntries(c, active, v.oneOf[from], variants[from]);
      var rest := UnionEntries(c, active, ref, goType, v, variants, from + 1);
      UnionCons(c, ref, goType, v, variants, from, own, rest);
      places := Prefixed(from, own) + rest;
      UnionFollows(c, active, ref, goType, v, variants, from,
          BodyGapsOf(c, active, v.oneOf[from], variants[from]).result.value,
          BodyUnionOf(c, active, ref, goType, v, variants, from + 1).result.value, own, rest);
    }
  }

  lemma UnionFollows(c: Context, active: set<string>, ref: SchemaRef, goType: GoType, v: View, variants: seq<GoType>,
      from: nat, first: seq<PropGap>, later: seq<PropGap>, own: seq<Place>, rest: seq<Place>)
    requires Faithful(c) && c.view(ref) == Ok(v) && BodyFollowed(c, v, Deref(goType))
    requires Info(c, Deref(goType)).variants == Some(variants) && from < |v.oneOf| == |variants|
    requires BodyFollows(c, active, v.oneOf[from], variants[from], first, own)
    requires BodyFollows(c, active, ref, goType, later, rest)
    ensures BodyFollows(c, active, ref, goType, first + later, Prefixed(from, own) + rest)
  {
    var gaps, places := first + later, Prefixed(from, own) + rest;
    forall k | 0 <= k < |gaps|
      ensures BodyPlace(c, ref, goType, places[k]) && BodyEntry(c, active, ref, goType, places[k], gaps[k])
    {
      if k < |first| {
        assert places[k][1..] == own[k];
      }
    }
  }

  // ---- Query parameters ----

  /** What may be reported of a parameter: itself when unused, else what lies beneath its schema. */
  ghost predicate ParamReported(c: Context, active: set<string>, param: Param, entry: JsonField, m: Member)
    requires Faithful(c)
  {
    if !FieldUsed(c, entry) then
      m.field == param.name && m.pointer == param.ref.pointer && HasText(param.ref.node, "x-state", m.xState)
    else
      var schema := MappingValue(param.ref.node, "schema");
      && schema.Some?
      && Reported(c, active, SchemaRef(schema.value, param.ref.pointer + "/schema"), entry.typ, param.name, m)
  }

  lemma ParamExact(c: Context, active: set<string>, param: Param, entry: JsonField, m: Member)
    requires Faithful(c) && ParamGap(c, active, param, entry).result.Ok?
    ensures m in ParamGap(c, active, param, entry).result.value <==> ParamReported(c, active, param, entry, m)
  {
    if FieldUsed(c, entry) {
      var schema := MappingValue(param.ref.node, "schema");
      if schema.Some? {
        GapsExact(c, active, SchemaRef(schema.value, param.ref.pointer + "/schema"), entry.typ, param.name, m);
      }
    }
  }

  ghost predicate ParamEntry(c: Context, active: set<string>, param: Param, fields: map<string, JsonField>, g: PropGap)
    requires Faithful(c)
  {
    && g.name == param.name && g.ref == param.ref && g.query && (g.required <==> Flag(param.ref.node, "required"))
    && param.name in fields
    && forall m :: m in g.members <==> ParamReported(c, active, param, fields[param.name], m)
  }

  ghost predicate QueryFollows(c: Context, active: set<string>, params: seq<Param>, fields: map<string, JsonField>,
      gaps: seq<PropGap>, places: seq<nat>)
    requires Faithful(c)
  {
    && |gaps| == |places|
    && forall k :: 0 <= k < |gaps| ==>
         places[k] < |params| && ParamEntry(c, active, params[places[k]], fields, gaps[k])
  }

  ghost predicate QueryPlaces(params: seq<Param>, from: nat, places: seq<nat>) {
    && Rising(places)
    && forall i: nat :: i in places <==> from <= i < |params| && !params[i].deprecated
  }

  /** Query parameters that are walked with success yield exactly one entry for each that is not deprecated, in their
      order. */
  lemma {:induction false} QueryEntries(c: Context, active: set<string>, params: seq<Param>,
      fields: map<string, JsonField>, from: nat) returns (places: seq<nat>)
    requires Faithful(c) && from <= |params| && QueryGapsOf(c, active, params[from..], fields).result.Ok?
    ensures QueryPlaces(params, from, places)
    ensures QueryFollows(c, active, params, fields, QueryGapsOf(c, active, params[from..], fields).result.value, places)
    decreases |params| - from
  {
    if from == |params| {
      places := [];
    } else {
      if params[from].deprecated {
        PastDeprecated(c, active, params, fields, from);
        places := QueryEntries(c, active, params, fields, from + 1);
      } else {
        var g := HeadEntry(c, active, params, fields, from);
        var rest := QueryEntries(c, active, params, fields, from + 1);
        QueryCons(c, active, params, fields, from, g,
                  QueryGapsOf(c, active, params[from + 1..], fields).result.value, rest);
        places := [from] + rest;
      }
    }
  }

  lemma PastDeprecated(c: Context, active: set<string>, params: seq<Param>, fields: map<string, JsonField>, from: nat)
    requires Faithful(c) && from < |params| && params[from].deprecated
    ensures QueryGapsOf(c, active, params[from..], fields) == QueryGapsOf(c, active, params[from + 1..], fields)
  {
    assert params[from..][0] == params[from] && params[from..][1..] == params[from + 1..];
  }

  lemma QueryCons(c: Context, active: set<string>, params: seq<Param>, fields: map<string, JsonField>, from: nat,
      g: PropGap, later: seq<PropGap>, rest: seq<nat>)
    requires Faithful(c) && from < |params| && !params[from].deprecated && QueryPlaces(params, from + 1, rest)
    requires ParamEntry(c, active, params[from], fields, g) && QueryFollows(c, active, params, fields, later, rest)
    ensures QueryPlaces(params, from, [from] + rest)
    ensures QueryFollows(c, active, params, fields, [g] + later, [from] + rest)
  {
    ConsRising(from, rest);
    forall k | 0 <= k < |[g] + later|
      ensures ([from] + rest)[k] < |params|
      ensures ParamEntry(c, active, params[([from] + rest)[k]], fields, ([g] + later)[k])
    {
      if k > 0 {
        assert ([g] + later)[k] == later[k - 1] && ([from] + rest)[k] == rest[k - 1];
      }
    }
  }

  lemma HeadEntry(c: Context, active: set<string>, params: seq<Param>, fields: map<string, JsonField>, from: nat)
    returns (g: PropGap)
    requires Faithful(c) && from < |params| && !params[from].deprecated
    requires QueryGapsOf(c, active, params[from..], fields).result.Ok?
    ensures QueryGapsOf(c, active, params[from + 1..], fields).result.Ok?
    ensures QueryGapsOf(c, active, params[from..], fields).result.value ==
              [g] + QueryGapsOf(c, active, params[from + 1..], fields).result.value
    ensures ParamEntry(c, active, params[from], fields, g)
  {
    assert params[from..][0] == params[from] && params[from..][1..] == params[from + 1..];
    g := QueryHead(c, active, params[from..], fields);
    var entry := fields[params[from].name];
    forall m
      ensures m in g.members <==> ParamReported(c, active, params[from], entry, m)
    {
      ParamExact(c, active, params[from], entry, m);
    }
  }
}

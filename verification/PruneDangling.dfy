/** When the prune leaves a reference dangling: components are kept by the last segment of a reference, which for a
    reference into a component is not the component's name. */
module PruneDangling {
  import opened Text
  import opened Document
  import opened References
  import opened Prune
  import opened Survivors
  import Rename

  /** The reference leads to, or into, a schema or parameter that is not kept. */
  predicate IntoPruned(s: set<string>, p: set<string>, ref: string) {
    var path := PointerPath(ref);
    && path.Some? && |path.value| >= 3 && path.value[0] == "components"
    && ((path.value[1] == "schemas" && path.value[2] !in s) || (path.value[1] == "parameters" && path.value[2] !in p))
  }

  lemma KeptLookup(m: map<string, Json>, names: set<string>, path: seq<string>)
    requires path != [] && AtPath(Object(m), path).Some?
    ensures AtPath(Object(Keep(m, names)), path).Some? <==> path[0] in names
  {
  }

  /** Following a path into a map of sections. */
  lemma IntoSection(components: map<string, Json>, tail: seq<string>)
    requires tail != []
    ensures AtPath(Object(components), tail) ==
            if tail[0] in components then AtPath(components[tail[0]], tail[1..]) else None
  {
  }

  lemma ResolvesAfter(doc: Doc, s: set<string>, p: set<string>, ref: string)
    requires HasSections(doc) && Resolve(doc, ref).Some?
    ensures Resolve(Restrict(doc, s, p), ref).Some? <==> !IntoPruned(s, p, ref)
  {
    var path := PointerPath(ref).value;
    var kept := Restrict(doc, s, p);
    if path[0] == "components" && |path| >= 2 {
      var tail := path[1..];
      IntoSection(doc.components, tail);
      IntoSection(kept.components, tail);
      assert tail[0] == path[1] && tail[1..] == path[2..];
      if |path| == 2 {
        assert tail[1..] == [];
      } else if tail[0] == "schemas" {
        KeptLookup(Schemas(doc), s, tail[1..]);
        assert kept.components["schemas"] == Object(Keep(Schemas(doc), s));
      } else if tail[0] == "parameters" {
        KeptLookup(Parameters(doc), p, tail[1..]);
        assert kept.components["parameters"] == Object(Keep(Parameters(doc), p));
      }
    }
  }

  lemma FewerRefs(doc: Doc, s: set<string>, p: set<string>)
    requires HasSections(doc)
    ensures ScannedRefs(Restrict(doc, s, p)) <= ScannedRefs(doc)
  {
    SubmapRefs(Keep(Schemas(doc), s), Schemas(doc));
    SubmapRefs(Keep(Parameters(doc), p), Parameters(doc));
    SubmapRefs(Restrict(doc, s, p).components, doc.components);
  }

  // ---- The exact condition, from the document alone ----

  /** The reference leads to the entry, or into it. */
  predicate LeadsInto(ref: string, e: Entry) {
    var path := PointerPath(ref);
    && path.Some? && |path.value| >= 3 && path.value[0] == "components"
    && path.value[1] == (if e.SchemaEntry? then "schemas" else "parameters") && path.value[2] == e.name
  }

  /** A reference that will still be there: of an endpoint, of another section, or of an entry that survives. */
  ghost predicate RemainingRef(doc: Doc, r: string)
    requires HasSections(doc)
  {
    r in RootRefs(doc) || exists e :: IsEntry(doc, e) && Survives(doc, e) && r in EntryRefs(doc, e)
  }

  /** It leads to or into an entry that does not survive. */
  ghost predicate IntoLost(doc: Doc, r: string)
    requires HasSections(doc)
  {
    exists e :: IsEntry(doc, e) && !Survives(doc, e) && LeadsInto(r, e)
  }

  lemma RemainingIff(doc: Doc, s: set<string>, p: set<string>, r: string)
    requires HasSections(doc) && LargestSupported(doc, s, p)
    ensures r in ScannedRefs(Restrict(doc, s, p)) <==> RemainingRef(doc, r)
  {
    RestrictedRefs(doc, s, p, r);
    if e :| Kept(s, p, e) && IsEntry(doc, e) && r in EntryRefs(doc, e) {
      SurvivorsAre(doc, s, p, e);
    }
    if e :| IsEntry(doc, e) && Survives(doc, e) && r in EntryRefs(doc, e) {
      SurvivorsAre(doc, s, p, e);
    }
  }

  /** The entry a resolving reference leads into. */
  lemma EntryOnPath(doc: Doc, r: string, e: Entry)
    requires HasSections(doc) && Resolve(doc, r).Some? && LeadsInto(r, e)
    ensures IsEntry(doc, e)
  {
    var path := PointerPath(r).value;
    var tail := path[1..];
    assert tail[0] == path[1] && tail[1..] == path[2..] && tail[1..][0] == e.name;
    IntoSection(doc.components, tail);
    IntoSection(SectionOf(doc, e), tail[1..]);
  }

  lemma IntoLostIff(doc: Doc, s: set<string>, p: set<string>, r: string)
    requires HasSections(doc) && LargestSupported(doc, s, p) && Resolve(doc, r).Some?
    ensures IntoPruned(s, p, r) <==> IntoLost(doc, r)
  {
    if IntoPruned(s, p, r) {
      var path := PointerPath(r).value;
      var e := if path[1] == "schemas" then SchemaEntry(path[2]) else ParameterEntry(path[2]);
      EntryOnPath(doc, r, e);
      SurvivorsAre(doc, s, p, e);
    }
    if e :| IsEntry(doc, e) && !Survives(doc, e) && LeadsInto(r, e) {
      SurvivorsAre(doc, s, p, e);
    }
  }

  /** For the result of the prune (the largest supported part): a document without dangling references keeps none
      if and only if no reference of an endpoint, another section or a surviving entry leads to or into an entry
      that does not survive. */
  lemma PruneDanglesIff(doc: Doc, s: set<string>, p: set<string>)
    requires HasSections(doc) && LargestSupported(doc, s, p) && NoDangling(doc)
    ensures NoDangling(Restrict(doc, s, p)) <==> forall r :: RemainingRef(doc, r) ==> !IntoLost(doc, r)
  {
    FewerRefs(doc, s, p);
    forall r
      ensures r in ScannedRefs(Restrict(doc, s, p)) <==> RemainingRef(doc, r)
      ensures RemainingRef(doc, r) ==> (Resolve(Restrict(doc, s, p), r).Some? <==> !IntoLost(doc, r))
    {
      RemainingIff(doc, s, p, r);
      if RemainingRef(doc, r) {
        ResolvesAfter(doc, s, p, r);
        IntoLostIff(doc, s, p, r);
      }
    }
  }

  lemma NotAlive(keys: set<string>, kept: set<string>, alive: set<string>, name: string)
    requires (keys - kept) * alive == {} && name in keys && name !in kept
    ensures name !in alive
  {
    assert name in alive ==> name in (keys - kept) * alive;
  }

  /** After the prune such a reference leads strictly into the entry: it does not end in the entry's name. */
  lemma OnlyDeepRefsDangle(doc: Doc, s: set<string>, p: set<string>, r: string)
    requires HasSections(doc) && PrunedUnnamed(doc, s, p) && Resolve(doc, r).Some?
    requires r in ScannedRefs(Restrict(doc, s, p)) && IntoPruned(s, p, r)
    ensures LastSegment(r) != PointerPath(r).value[2]
  {
    var path := PointerPath(r).value;
    var name := path[2];
    var tail := path[1..];
    assert tail[0] == path[1] && tail[1..] == path[2..] && tail[1..][0] == name;
    IntoSection(doc.components, tail);
    IntoSection(doc.components[path[1]].fields, tail[1..]);
    assert LastSegment(r) in Alive(Restrict(doc, s, p));
    if path[1] == "schemas" {
      NotAlive(Schemas(doc).Keys, s, Alive(Restrict(doc, s, p)), name);
    } else {
      NotAlive(Parameters(doc).Keys, p, Alive(Restrict(doc, s, p)), name);
    }
  }

  // ---- A document in which one does dangle ----

  lemma {:induction false} LastOf(front: string, name: string)
    requires '/' !in name
    ensures LastSegment(front + "/" + name) == name
  {
    var whole := front + "/" + name;
    if front == "" {
      assert whole[1..] == name;
    } else {
      assert whole[1..] == front[1..] + "/" + name;
      assert whole[1..][|front[1..]|] == '/';
      LastOf(front[1..], name);
    }
  }

  function UsesIt(ref: string): Json {
    Object(map["$ref" := Str(ref)])
  }

  /** An endpoint uses one schema, which refers to a field of another. */
  function DeepUse(name: string, user: string, field: string): Doc {
    Doc(map["schemas" := Object(map[name := Object(map[field := Object(map[])]),
                                    user := UsesIt(Rename.DeepRef(name, field))]),
            "parameters" := Object(map[])],
        map["/" := map["get" := UsesIt(SchemaRefOf(user))]])
  }

  lemma RefNamed(name: string, user: string, field: string)
    requires PlainName(name) && PlainName(user) && PlainName(field)
    ensures LastSegment(SchemaRefOf(user)) == user && LastSegment(Rename.DeepRef(name, field)) == field
  {
    var a, b := "#/" + ("components" + "/" + "schemas"), "#/" + ("components" + "/" + "schemas" + "/" + name);
    assert SchemaRefOf(user) == a + "/" + user;
    assert Rename.DeepRef(name, field) == b + "/" + field;
    LastOf(a, user);
    LastOf(b, field);
  }

  lemma OneRef(ref: string)
    ensures RefsIn(UsesIt(ref)) == {ref}
  {
    assert UsesIt(ref).fields.Keys == {"$ref"};
    assert OwnRef(UsesIt(ref).fields) == Some(ref);
  }

  /** The references of the schemas that are kept. */
  lemma DeepSchemaRefs(name: string, user: string, field: string, s: set<string>)
    requires name != user && name != "$ref" && user != "$ref" && field != "$ref"
    ensures var schemas := Object(Keep(Schemas(DeepUse(name, user, field)), s));
            RefsIn(schemas) == if user in s then {Rename.DeepRef(name, field)} else {}
  {
    var deep := Rename.DeepRef(name, field);
    var kept := Keep(Schemas(DeepUse(name, user, field)), s);
    OneRef(deep);
    NoRefs(field);
    assert OwnRef(kept).None?;
    assert forall k :: k in kept ==> k == name || k == user;
    if user in s {
      assert kept[user] == UsesIt(deep);
      assert deep in RefsIn(kept[user]);
    }
  }

  lemma NoRefs(field: string)
    requires field != "$ref"
    ensures RefsIn(Object(map[field := Object(map[])])) == {}
  {
    var m: map<string, Json> := map[];
    assert RefsIn(Object(m)) == {};
  }

  lemma DeepUseRefs(name: string, user: string, field: string, s: set<string>)
    requires name != user && name != "$ref" && user != "$ref" && field != "$ref"
    ensures var kept := Restrict(DeepUse(name, user, field), s, {});
            && SchemaRefOf(user) in ScannedRefs(kept)
            && (user in s ==> Rename.DeepRef(name, field) in ScannedRefs(kept))
            && ScannedRefs(kept) <= {SchemaRefOf(user), Rename.DeepRef(name, field)}
  {
    var doc := DeepUse(name, user, field);
    var components := Restrict(doc, s, {}).components;
    OneEndpoint(SchemaRefOf(user));
    DeepSchemaRefs(name, user, field, s);
    assert components.Keys == {"schemas", "parameters"};
    assert components["schemas"] == Object(Keep(Schemas(doc), s));
    assert components["parameters"] == Object(map[]);
    TwoSections(components, components["schemas"], components["parameters"]);
  }

  lemma OneEndpoint(ref: string)
    ensures EndpointRefs(map["/" := map["get" := UsesIt(ref)]]) == {ref}
  {
    OneRef(ref);
    var paths := map["/" := map["get" := UsesIt(ref)]];
    assert "/" in paths && "get" in paths["/"] && "get" in METHODS && ref in RefsIn(paths["/"]["get"]);
  }

  lemma TwoSections(components: map<string, Json>, schemas: Json, parameters: Json)
    requires components.Keys == {"schemas", "parameters"} && parameters == Object(map[])
    requires components["schemas"] == schemas && components["parameters"] == parameters
    ensures RefsIn(Object(components)) == RefsIn(schemas)
  {
    var m: map<string, Json> := map[];
    assert RefsIn(Object(m)) == {};
    assert OwnRef(components).None?;
    assert "schemas" in components;
  }

  /** The largest supported part keeps the user and drops what it refers into. */
  lemma DeepUseKept(name: string, user: string, field: string)
    requires PlainName(name) && PlainName(user) && PlainName(field)
    requires name != user && name != field && name != "$ref" && user != "$ref" && field != "$ref"
    ensures LargestSupported(DeepUse(name, user, field), {user}, {})
  {
    var doc := DeepUse(name, user, field);
    DeepUseAlive(name, user, field, {user});
    assert Schemas(doc).Keys == {name, user} && Parameters(doc).Keys == {};
    forall s', p' | Supported(doc, s', p')
      ensures s' <= {user} && p' <= {}
    {
      assert p' == {};
      DeepUseAlive(name, user, field, s');
    }
  }

  lemma DeepUseAlive(name: string, user: string, field: string, s: set<string>)
    requires PlainName(name) && PlainName(user) && PlainName(field)
    requires name != user && name != field && name != "$ref" && user != "$ref" && field != "$ref"
    ensures var alive := Alive(Restrict(DeepUse(name, user, field), s, {}));
            user in alive && name !in alive
  {
    RefNamed(name, user, field);
    DeepUseRefs(name, user, field, s);
  }

  /** The reference into the pruned schema resolves before and dangles after. */
  lemma PruneCanDangle(name: string, user: string, field: string)
    requires PlainName(name) && PlainName(user) && PlainName(field)
    requires name != user && name != field && name != "$ref" && user != "$ref" && field != "$ref"
    ensures var doc, deep := DeepUse(name, user, field), Rename.DeepRef(name, field);
            && LargestSupported(doc, {user}, {}) && deep in ScannedRefs(Restrict(doc, {user}, {}))
            && Resolve(doc, deep).Some? && Resolve(Restrict(doc, {user}, {}), deep).None?
  {
    var doc, deep := DeepUse(name, user, field), Rename.DeepRef(name, field);
    DeepUseKept(name, user, field);
    DeepUseRefs(name, user, field, {user});
    Rename.DeepPointer("components", "schemas", name, field);
    DeepPath(name, user, field);
    assert ["components", "schemas", name, field][1..] == ["schemas", name] + [field];
    ResolvesAfter(doc, {user}, {}, deep);
  }

  lemma DeepPath(name: string, user: string, field: string)
    requires name != user
    ensures AtPath(Object(DeepUse(name, user, field).components), ["schemas", name] + [field]) == Some(Object(map[]))
  {
    var components := Object(DeepUse(name, user, field).components);
    Rename.TwoDown(components, "schemas", name, [field]);
    FieldPath(field);
  }

  lemma FieldPath(field: string)
    ensures AtPath(Object(map[field := Object(map[])]), [field]) == Some(Object(map[]))
  {
    var path := [field];
    assert path[1..] == [];
  }
}

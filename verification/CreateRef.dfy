/** `CreateRef`: a subtree is lifted into a component and replaced by a `$ref` to it. */
module CreateRef {
  import opened Text
  import opened Document
  import opened References

  function RefNode(name: string): Json {
    Object(map["$ref" := Str(SchemaRefOf(name))])
  }

  /** `components` is a map and `schemas`, if there, is one too. */
  ghost predicate SchemasReady(doc: Json) {
    && doc.Object? && "components" in doc.fields && doc.fields["components"].Object?
    && var components := doc.fields["components"].fields;
    && ("schemas" in components ==> components["schemas"].Object?)
    && (forall k :: k in components ==> '.' !in k)
  }

  lemma SchemaSlot(doc: Json, name: string)
    requires SchemasReady(doc) && DotFree(name)
    ensures Settable(doc, SchemaPath(name))
    ensures var components := doc.fields["components"];
            && (AtPath(doc, SchemaPath(name)).None? ==> Get(components, "schemas." + name) == Absent)
            && (AtPath(doc, SchemaPath(name)).Some? ==>
                Get(components, "schemas." + name) == Found(AtPath(doc, SchemaPath(name)).value))
  {
    var components := doc.fields["components"];
    var path := SchemaPath(name);
    assert path[1..] == ["schemas", name] && path[1..][1..] == [name] && path[1..][1..][1..] == [];
    assert AtPath(doc, path) == AtPath(components, ["schemas", name]);
    var key := "schemas." + name;
    assert key == "schemas" + "." + name;
    FirstDotOf("schemas", name);
    assert key[..|"schemas"|] == "schemas" && key[|"schemas"| + 1..] == name;
    assert key[|"schemas"|] == '.';
    if "schemas" in components.fields {
      var schemas := components.fields["schemas"];
      SchemaSlotGet(schemas, name);
      assert AtPath(components, ["schemas", name]) == AtPath(schemas, [name]);
      assert Get(components, key) == Get(schemas, name);
    } else {
      assert key !in components.fields by {
        assert '.' in key;
      }
    }
  }

  lemma SchemaSlotGet(schemas: Json, name: string)
    requires schemas.Object? && DotFree(name)
    ensures AtPath(schemas, [name]) == if name in schemas.fields then Some(schemas.fields[name]) else None
    ensures Get(schemas, name) == if name in schemas.fields then Found(schemas.fields[name]) else Absent
  {
    FirstDotOf(name, "");
    assert name[..|name|] == name;
    assert [name][1..] == [];
  }

  /** The document with the component in place. */
  ghost function WithComponent(doc: Json, name: string, target: Json): Json
    requires Settable(doc, SchemaPath(name))
  {
    if AtPath(doc, SchemaPath(name)).Some? then doc else SetPath(doc, SchemaPath(name), target)
  }

  /** The component slot is free or already holds the same schema. */
  predicate Clear(doc: Json, name: string, target: Json) {
    AtPath(doc, SchemaPath(name)).None? || AtPath(doc, SchemaPath(name)) == Some(target)
  }

  ghost predicate Liftable(doc: Json, full: seq<string>, name: string) {
    && SchemasReady(doc) && DotFree(name) && PlainName(name)
    && Diverge(full, SchemaPath(name)) && Diverge(SchemaPath(name), full)
  }

  lemma WithComponentKeeps(doc: Json, full: seq<string>, name: string, target: Json)
    requires Liftable(doc, full, name) && AtPath(doc, full).Some? && Clear(doc, name, target)
    ensures Settable(doc, SchemaPath(name))
    ensures AtPath(WithComponent(doc, name, target), full) == AtPath(doc, full)
    ensures AtPath(WithComponent(doc, name, target), SchemaPath(name)) == Some(target)
    ensures Settable(WithComponent(doc, name, target), full)
  {
    SchemaSlot(doc, name);
    if AtPath(doc, SchemaPath(name)).None? {
      OthersUnchanged(doc, SchemaPath(name), target, full);
      ReadBack(doc, SchemaPath(name), target);
    }
    ResolvedIsSettable(WithComponent(doc, name, target), full);
  }

  /** The document after the call. */
  ghost function Lifted(doc: Json, full: seq<string>, name: string): Json
    requires Liftable(doc, full, name) && AtPath(doc, full).Some? && Clear(doc, name, AtPath(doc, full).value)
  {
    WithComponentKeeps(doc, full, name, AtPath(doc, full).value);
    SetPath(WithComponent(doc, name, AtPath(doc, full).value), full, RefNode(name))
  }

  /** The transformed document, edited in place. */
  class Schema {
    var doc: Json

    constructor (doc: Json)
      ensures this.doc == doc
    {
      this.doc := doc;
    }

    /** `m.CreateRef(schema, name, key)` for the map at `at` and the dot-free key `path`; `None` is a panic. */
    method CreateRef(at: seq<string>, name: string, path: seq<string>) returns (r: Option<Json>)
      requires path != [] && DotFreePath(path) && AtPath(doc, at).Some? && AtPath(doc, at).value.Object?
      requires Liftable(doc, at + path, name)
      requires Get(AtPath(doc, at).value, Join(path)).Found? ==> AtPath(doc, at + path).Some?
      modifies this
      ensures r.Some? <==> AtPath(old(doc), at + path).Some? && Clear(old(doc), name, AtPath(old(doc), at + path).value)
      ensures r.Some? ==> r.value == RefNode(name) && doc == Lifted(old(doc), at + path, name)
      ensures r.None? ==> doc == old(doc)
    {
      var m := AtPath(doc, at).value;
      AtConcat(doc, at, path);
      if AtPath(m, path).Some? {
        GetAtPath(m, path);
      }
      var found := Get(m, Join(path));
      if !found.Found? {
        return None;
      }
      var target := found.value;
      SchemaSlot(doc, name);
      var existing := Get(doc.fields["components"], "schemas." + name);
      var write := true;
      if existing.Found? {
        if existing.value != target {
          return None;
        }
        write := false;
      }
      WithComponentKeeps(doc, at + path, name, target);
      if write {
        doc := SetPath(doc, SchemaPath(name), target);
      }
      doc := SetPath(doc, at + path, RefNode(name));
      return Some(RefNode(name));
    }
  }

  lemma {:induction false} AtConcat(j: Json, p: seq<string>, q: seq<string>)
    requires AtPath(j, p).Some?
    ensures AtPath(j, p + q) == AtPath(AtPath(j, p).value, q)
    decreases |p|
  {
    if p == [] {
      assert p + q == q;
    } else {
      assert (p + q)[1..] == p[1..] + q;
      AtConcat(Child(j, p[0]).value, p[1..], q);
    }
  }

  // ---- The call preserves meaning ----

  /** The `$ref` node at `path` replaced by what its `$ref` leads to. */
  function InlineAt(doc: Json, path: seq<string>): Option<Json> {
    var node := AtPath(doc, path);
    if node.Some? && node.value.Object? && OwnRef(node.value.fields).Some? && Settable(doc, path) then
      var target := Target(doc, OwnRef(node.value.fields).value);
      if target.Some? then Some(SetPath(doc, path, target.value)) else None
    else None
  }

  /** Inlining the new `$ref` gives back the original document plus that one component, and nothing
      else moved. */
  lemma CreateRefMeaning(doc: Json, full: seq<string>, name: string, other: seq<string>)
    requires Liftable(doc, full, name) && AtPath(doc, full).Some? && Clear(doc, name, AtPath(doc, full).value)
    ensures Settable(doc, SchemaPath(name))
    ensures AtPath(Lifted(doc, full, name), full) == Some(RefNode(name))
    ensures AtPath(Lifted(doc, full, name), SchemaPath(name)) == AtPath(doc, full)
    ensures InlineAt(Lifted(doc, full, name), full) == Some(WithComponent(doc, name, AtPath(doc, full).value))
    ensures Diverge(full, other) && Diverge(SchemaPath(name), other) ==>
              AtPath(Lifted(doc, full, name), other) == AtPath(doc, other)
  {
    var target := AtPath(doc, full).value;
    WithComponentKeeps(doc, full, name, target);
    var whole := WithComponent(doc, name, target);
    var lifted := Lifted(doc, full, name);
    ReadBack(whole, full, RefNode(name));
    OthersUnchanged(whole, full, RefNode(name), SchemaPath(name));
    SchemaRefPath(name);
    assert OwnRef(RefNode(name).fields) == Some(SchemaRefOf(name));
    assert Target(lifted, SchemaRefOf(name)) == Some(target);
    LastWriteWins(whole, full, RefNode(name), target);
    WriteBack(whole, full);
    if Diverge(full, other) && Diverge(SchemaPath(name), other) {
      OthersUnchanged(whole, full, RefNode(name), other);
      SchemaSlot(doc, name);
      if AtPath(doc, SchemaPath(name)).None? {
        OthersUnchanged(doc, SchemaPath(name), target, other);
      }
    }
  }

  lemma ReadyAfterWrite(doc: Json, path: seq<string>, name: string, value: Json)
    requires SchemasReady(doc) && Diverge(path, SchemaPath(name)) && AtPath(doc, path).Some? && Settable(doc, path)
    ensures SchemasReady(SetPath(doc, path, value))
  {
    assert SchemaPath(name)[1..] == ["schemas", name];
    if path[0] == "components" {
      var components := doc.fields["components"];
      var inner := path[1..];
      assert Diverge(inner, ["schemas", name]);
      assert AtPath(components, inner).Some? && Child(components, inner[0]).Some?;
      if inner[0] == "schemas" {
        assert ["schemas", name][1..] == [name];
        assert Diverge(inner[1..], [name]);
        assert SetPath(components, inner, value) ==
                 SetChild(components, "schemas", SetPath(components.fields["schemas"], inner[1..], value));
      }
    }
  }

  lemma ReadyAfterComponent(doc: Json, name: string, value: Json)
    requires SchemasReady(doc) && Settable(doc, SchemaPath(name))
    ensures SchemasReady(SetPath(doc, SchemaPath(name), value))
  {
    var path := SchemaPath(name);
    assert path[1..] == ["schemas", name] && ["schemas", name][1..] == [name];
    var components := doc.fields["components"];
    var schemas := ChildOrNew(components, "schemas");
    assert SetPath(schemas, [name], value) == SetChild(schemas, name, value);
    assert SetPath(components, ["schemas", name], value) ==
             SetChild(components, "schemas", SetChild(schemas, name, value));
    assert SetPath(doc, path, value) == SetChild(doc, "components", SetPath(components, ["schemas", name], value));
  }

  lemma ReadyAfterLift(doc: Json, full: seq<string>, name: string)
    requires Liftable(doc, full, name) && AtPath(doc, full).Some? && Clear(doc, name, AtPath(doc, full).value)
    ensures SchemasReady(Lifted(doc, full, name))
  {
    var target := AtPath(doc, full).value;
    WithComponentKeeps(doc, full, name, target);
    if AtPath(doc, SchemaPath(name)).None? {
      ReadyAfterComponent(doc, name, target);
    }
    ReadyAfterWrite(WithComponent(doc, name, target), full, name, RefNode(name));
  }

  /** A second call on an equal subtree elsewhere is accepted and shares the one component. */
  lemma CreateRefShares(doc: Json, full: seq<string>, again: seq<string>, name: string)
    requires Liftable(doc, full, name) && AtPath(doc, full).Some? && Clear(doc, name, AtPath(doc, full).value)
    requires Diverge(full, again) && Diverge(again, full) && Diverge(SchemaPath(name), again) &&
               Diverge(again, SchemaPath(name))
    requires AtPath(doc, again) == AtPath(doc, full)
    ensures SchemasReady(Lifted(doc, full, name))
    ensures var once := Lifted(doc, full, name);
            && AtPath(once, again) == AtPath(doc, full)
            && Clear(once, name, AtPath(doc, full).value)
            && var twice := Lifted(once, again, name);
            && AtPath(twice, SchemaPath(name)) == AtPath(once, SchemaPath(name)) == AtPath(doc, full)
            && AtPath(twice, full) == AtPath(twice, again) == Some(RefNode(name))
  {
    var once := Lifted(doc, full, name);
    ReadyAfterLift(doc, full, name);
    CreateRefMeaning(doc, full, name, again);
    assert AtPath(once, again).Some? && Clear(once, name, AtPath(once, again).value);
    CreateRefMeaning(once, again, name, full);
  }

  // ---- Paths through the lifted subtree ----

  lemma {:induction false} DivergeOrPrefix(p: seq<string>, q: seq<string>)
    ensures Diverge(p, q) || p <= q || q <= p
    decreases |p|
  {
    if p != [] && q != [] && p[0] == q[0] {
      DivergeOrPrefix(p[1..], q[1..]);
      assert p == [p[0]] + p[1..] && q == [q[0]] + q[1..];
    }
  }

  lemma {:induction false} AboveResolves(j: Json, path: seq<string>, q: seq<string>)
    requires AtPath(j, path).Some? && q <= path
    ensures AtPath(j, q).Some?
    decreases |q|
  {
    if q != [] {
      AboveResolves(Child(j, path[0]).value, path[1..], q[1..]);
    }
  }

  lemma {:induction false} PastResolves(j: Json, path: seq<string>, q: seq<string>, node: Json)
    requires AtPath(j, path) == Some(node) && path <= q
    ensures AtPath(j, q) == AtPath(node, q[|path|..])
    decreases |path|
  {
    if path != [] {
      PastResolves(Child(j, path[0]).value, path[1..], q[1..], node);
      assert q[1..][|path| - 1..] == q[|path|..];
    } else {
      assert q[0..] == q;
    }
  }

  lemma RefNodePaths(name: string, rest: seq<string>)
    ensures AtPath(RefNode(name), rest).Some? <==> rest == [] || rest == ["$ref"]
  {
    if rest != [] && rest[0] == "$ref" {
      assert rest == ["$ref"] + rest[1..];
    }
  }

  /** A component that was put in stays in: nothing that resolved stops resolving. */
  lemma ComponentOnlyAdds(doc: Json, full: seq<string>, name: string, q: seq<string>)
    requires Liftable(doc, full, name) && AtPath(doc, full).Some? && Clear(doc, name, AtPath(doc, full).value)
    requires AtPath(doc, q).Some?
    ensures AtPath(WithComponent(doc, name, AtPath(doc, full).value), q).Some?
  {
    var target := AtPath(doc, full).value;
    SchemaSlot(doc, name);
    if AtPath(doc, SchemaPath(name)).None? {
      var whole := SetPath(doc, SchemaPath(name), target);
      DivergeOrPrefix(SchemaPath(name), q);
      if Diverge(SchemaPath(name), q) {
        OthersUnchanged(doc, SchemaPath(name), target, q);
      } else if q <= SchemaPath(name) {
        ReadBack(doc, SchemaPath(name), target);
        AboveResolves(whole, SchemaPath(name), q);
      } else {
        AboveResolves(doc, q, SchemaPath(name));
      }
    }
  }

  /** A path that led somewhere still does, unless it leads strictly into the lifted subtree; there the lift leaves
      nothing but the new `$ref` itself. */
  lemma LiftKeepsPaths(doc: Json, full: seq<string>, name: string, q: seq<string>)
    requires Liftable(doc, full, name) && AtPath(doc, full).Some? && Clear(doc, name, AtPath(doc, full).value)
    requires AtPath(doc, q).Some?
    ensures AtPath(Lifted(doc, full, name), q).Some? <==> !(full < q) || q == full + ["$ref"]
  {
    var target := AtPath(doc, full).value;
    WithComponentKeeps(doc, full, name, target);
    ComponentOnlyAdds(doc, full, name, q);
    var whole, lifted := WithComponent(doc, name, target), Lifted(doc, full, name);
    ReadBack(whole, full, RefNode(name));
    DivergeOrPrefix(full, q);
    if Diverge(full, q) {
      OthersUnchanged(whole, full, RefNode(name), q);
      DivergeNotPrefix(full, q);
    } else if q <= full {
      AboveResolves(lifted, full, q);
    } else {
      PastResolves(lifted, full, q, RefNode(name));
      RefNodePaths(name, q[|full|..]);
      assert q == full + q[|full|..];
    }
  }

  lemma {:induction false} DivergeNotPrefix(p: seq<string>, q: seq<string>)
    requires Diverge(p, q)
    ensures !(p <= q)
    decreases |p|
  {
    if p[0] == q[0] {
      DivergeNotPrefix(p[1..], q[1..]);
    }
  }
}

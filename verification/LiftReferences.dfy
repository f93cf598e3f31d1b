/** The references of a document after `CreateRef` lifts a subtree: all are still there, and exactly those into the
    lifted subtree dangle. */
module LiftReferences {
  import opened Text
  import opened Document
  import opened References
  import opened CreateRef

  // ---- The references of a tree, away from a path ----

  /** The references that do not lie at or beneath the path. */
  ghost function Outside(j: Json, path: seq<string>): set<string>
    requires path != []
    decreases |path|
  {
    Beside(j, path[0]) +
    if |path| > 1 && Child(j, path[0]).Some? then Outside(Child(j, path[0]).value, path[1..]) else {}
  }

  /** The references of a node that do not lie under one segment. */
  ghost function Beside(j: Json, seg: string): set<string> {
    match j
    case Object(fields) =>
      (if OwnRef(fields).Some? && seg != "$ref" then {OwnRef(fields).value} else {}) +
      (set k, r | k in fields && k != seg && r in RefsIn(fields[k]) :: r)
    case Array(items) =>
      set i, r | 0 <= i < |items| && CanonIndex(seg, |items|) != Some(i) && r in RefsIn(items[i]) :: r
    case _ => {}
  }

  /** A string under the key `$ref`: the text of a reference. */
  predicate RefText(path: seq<string>, v: Json)
    requires path != []
  {
    path[|path| - 1] == "$ref" && v.Str?
  }

  lemma ChildRefs(j: Json, seg: string)
    requires Child(j, seg).Some? && !RefText([seg], Child(j, seg).value)
    ensures RefsIn(j) == Beside(j, seg) + RefsIn(Child(j, seg).value)
  {
    var child := Child(j, seg).value;
    forall r
      ensures r in RefsIn(j) <==> r in Beside(j, seg) + RefsIn(child)
    {
      match j
      case Object(fields) =>
        if r in RefsIn(j) && OwnRef(fields) != Some(r) {
          var k :| k in fields && r in RefsIn(fields[k]);
        }
      case Array(items) =>
        if r in RefsIn(j) {
          var i :| 0 <= i < |items| && r in RefsIn(items[i]);
        }
    }
  }

  lemma NoChildRefs(j: Json, seg: string)
    requires j.Object? && Child(j, seg).None?
    ensures RefsIn(j) == Beside(j, seg)
  {
  }

  lemma SetBeside(j: Json, seg: string, v: Json)
    requires j.Object? || (j.Array? && CanonIndex(seg, |j.items|).Some?)
    requires !RefText([seg], v)
    ensures Beside(SetChild(j, seg, v), seg) == Beside(j, seg)
  {
    var j' := SetChild(j, seg, v);
    forall r
      ensures r in Beside(j', seg) <==> r in Beside(j, seg)
    {
      if j.Object? {
        assert forall k :: k != seg ==> (k in j'.fields <==> k in j.fields) &&
                                         (k in j.fields ==> j'.fields[k] == j.fields[k]);
        assert seg != "$ref" ==> OwnRef(j'.fields) == OwnRef(j.fields);
        if r in Beside(j', seg) && !(OwnRef(j.fields) == Some(r) && seg != "$ref") {
          var k :| k in j'.fields && k != seg && r in RefsIn(j'.fields[k]);
          assert r in RefsIn(j.fields[k]);
        }
        if r in Beside(j, seg) && !(OwnRef(j.fields) == Some(r) && seg != "$ref") {
          var k :| k in j.fields && k != seg && r in RefsIn(j.fields[k]);
          assert r in RefsIn(j'.fields[k]);
        }
      } else {
        var n := CanonIndex(seg, |j.items|).value;
        assert forall i :: 0 <= i < |j.items| && i != n ==> j'.items[i] == j.items[i];
        if r in Beside(j', seg) {
          var i :| 0 <= i < |j'.items| && CanonIndex(seg, |j'.items|) != Some(i) && r in RefsIn(j'.items[i]);
          assert r in RefsIn(j.items[i]);
        }
        if r in Beside(j, seg) {
          var i :| 0 <= i < |j.items| && CanonIndex(seg, |j.items|) != Some(i) && r in RefsIn(j.items[i]);
          assert r in RefsIn(j'.items[i]);
        }
      }
    }
  }

  /** Writing at a path replaces what lay there and keeps the rest. */
  lemma {:induction false} SetRefs(j: Json, path: seq<string>, v: Json)
    requires path != [] && Settable(j, path) && !RefText(path, v)
    ensures RefsIn(SetPath(j, path, v)) == Outside(j, path) + RefsIn(v)
    decreases |path|
  {
    var seg := path[0];
    var sub := if |path| == 1 then v else SetPath(ChildOrNew(j, seg), path[1..], v);
    if |path| > 1 {
      SetRefs(ChildOrNew(j, seg), path[1..], v);
      NotString(ChildOrNew(j, seg), path[1..], v);
      if Child(j, seg).None? {
        NewOutside(path[1..]);
      }
    }
    SetBeside(j, seg, sub);
    ChildSetChild(j, seg, sub, seg);
    ChildRefs(SetChild(j, seg, sub), seg);
  }

  lemma NotString(j: Json, path: seq<string>, v: Json)
    requires path != [] && Settable(j, path)
    ensures !SetPath(j, path, v).Str?
  {
  }

  lemma NewOutside(path: seq<string>)
    requires path != []
    ensures Outside(Object(map[]), path) == {}
  {
  }

  /** What is read at a path, and the rest. */
  lemma {:induction false} ReadRefs(j: Json, path: seq<string>)
    requires path != [] && AtPath(j, path).Some? && !RefText(path, AtPath(j, path).value)
    ensures RefsIn(j) == Outside(j, path) + RefsIn(AtPath(j, path).value)
    decreases |path|
  {
    var child := Child(j, path[0]).value;
    if |path| > 1 {
      ReadRefs(child, path[1..]);
      assert Child(child, path[1..][0]).Some?;
    } else {
      assert path[1..] == [];
    }
    ChildRefs(j, path[0]);
  }

  lemma {:induction false} MissingRefs(j: Json, path: seq<string>)
    requires path != [] && Settable(j, path) && AtPath(j, path).None?
    ensures RefsIn(j) == Outside(j, path)
    decreases |path|
  {
    var child := Child(j, path[0]);
    if child.Some? {
      MissingRefs(child.value, path[1..]);
      ChildRefs(j, path[0]);
    } else {
      NoChildRefs(j, path[0]);
    }
  }

  lemma {:induction false} TreeRefs(j: Json, q: seq<string>)
    requires AtPath(j, q).Some?
    ensures RefsIn(AtPath(j, q).value) <= RefsIn(j)
    decreases |q|
  {
    if q != [] {
      TreeRefs(Child(j, q[0]).value, q[1..]);
      UnderRefs(j, q[0]);
    }
  }

  lemma UnderRefs(j: Json, seg: string)
    requires Child(j, seg).Some?
    ensures RefsIn(Child(j, seg).value) <= RefsIn(j)
  {
    if j.Object? {
      assert seg in j.fields;
    } else {
      var i := CanonIndex(seg, |j.items|).value;
      assert j.items[i] == Child(j, seg).value;
    }
  }

  /** What lies at a diverging path lies outside. */
  lemma {:induction false} DivergingRefs(j: Json, path: seq<string>, q: seq<string>)
    requires Diverge(path, q) && AtPath(j, q).Some?
    ensures RefsIn(AtPath(j, q).value) <= Outside(j, path)
    decreases |path|
  {
    var child := Child(j, q[0]).value;
    if path[0] == q[0] {
      DivergingRefs(child, path[1..], q[1..]);
    } else {
      TreeRefs(child, q[1..]);
      if j.Object? {
        assert RefsIn(j.fields[q[0]]) <= Beside(j, path[0]);
      } else {
        var i := CanonIndex(q[0], |j.items|).value;
        assert CanonIndex(path[0], |j.items|) != Some(i);
        assert RefsIn(j.items[i]) <= Beside(j, path[0]);
      }
    }
  }

  // ---- The lift ----

  lemma ComponentRefs(doc: Json, full: seq<string>, name: string)
    requires Liftable(doc, full, name) && AtPath(doc, full).Some? && Clear(doc, name, AtPath(doc, full).value)
    requires !RefText(SchemaPath(name), AtPath(doc, full).value)
    ensures RefsIn(WithComponent(doc, name, AtPath(doc, full).value)) == RefsIn(doc)
  {
    var target := AtPath(doc, full).value;
    SchemaSlot(doc, name);
    if AtPath(doc, SchemaPath(name)).None? {
      SetRefs(doc, SchemaPath(name), target);
      MissingRefs(doc, SchemaPath(name));
      TreeRefs(doc, full);
    }
  }

  lemma RefNodeRefs(name: string)
    ensures RefsIn(RefNode(name)) == {SchemaRefOf(name)}
  {
    assert RefNode(name).fields.Keys == {"$ref"};
    assert OwnRef(RefNode(name).fields) == Some(SchemaRefOf(name));
  }

  /** The lift of anything but the text of a `$ref` keeps every reference and adds the one to the new component. */
  lemma LiftedRefs(doc: Json, full: seq<string>, name: string)
    requires Liftable(doc, full, name) && AtPath(doc, full).Some? && Clear(doc, name, AtPath(doc, full).value)
    requires !RefText(full, AtPath(doc, full).value) && !RefText(SchemaPath(name), AtPath(doc, full).value)
    ensures RefsIn(Lifted(doc, full, name)) == RefsIn(doc) + {SchemaRefOf(name)}
  {
    var target := AtPath(doc, full).value;
    var whole := WithComponent(doc, name, target);
    WithComponentKeeps(doc, full, name, target);
    ComponentRefs(doc, full, name);
    SetRefs(whole, full, RefNode(name));
    RefNodeRefs(name);
    ReadRefs(whole, full);
    DivergingRefs(whole, full, SchemaPath(name));
  }

  ghost predicate NoneDangles(doc: Json) {
    forall r :: r in RefsIn(doc) ==> Target(doc, r).Some?
  }

  /** The reference leads strictly into what lies at the path, and not to a `$ref` right there. */
  predicate LeadsBelow(full: seq<string>, ref: string) {
    var q := PointerPath(ref);
    q.Some? && full < q.value && q.value != full + ["$ref"]
  }

  /** In a document without dangling references, the lift leaves none if and only if no reference leads strictly
      into the lifted subtree (a reference to a `$ref` that the subtree had at its top finds the new one). */
  lemma LiftDanglesIff(doc: Json, full: seq<string>, name: string)
    requires Liftable(doc, full, name) && AtPath(doc, full).Some? && Clear(doc, name, AtPath(doc, full).value)
    requires !RefText(full, AtPath(doc, full).value) && !RefText(SchemaPath(name), AtPath(doc, full).value)
    requires NoneDangles(doc)
    ensures NoneDangles(Lifted(doc, full, name)) <==> forall r :: r in RefsIn(doc) ==> !LeadsBelow(full, r)
  {
    var lifted := Lifted(doc, full, name);
    LiftedRefs(doc, full, name);
    forall r | r in RefsIn(doc)
      ensures Target(lifted, r).Some? <==> !LeadsBelow(full, r)
    {
      LiftKeepsPaths(doc, full, name, PointerPath(r).value);
    }
    CreateRefMeaning(doc, full, name, []);
    SchemaRefPath(name);
  }

  // ---- A reference into the lifted subtree ----

  /** A reference to a field of a field of a schema. */
  function FieldRef(x: string, f: string, g: string): string {
    "#/" + ("components" + "/" + "schemas" + "/" + x + "/" + f + "/" + g)
  }

  /** A schema `x` with such a field, and a schema `y` that refers to it. */
  function FieldDoc(x: string, y: string, f: string, g: string): Json {
    Object(map["components" := Object(map["schemas" :=
      Object(map[x := Object(map[f := Object(map[g := Object(map[])])]),
                 y := Object(map["$ref" := Str(FieldRef(x, f, g))])])])])
  }

  lemma Steps(j: Json, key: string, rest: seq<string>)
    requires j.Object?
    ensures AtPath(j, [key] + rest) == if key in j.fields then AtPath(j.fields[key], rest) else None
    ensures key in j.fields ==> RefsIn(j.fields[key]) <= RefsIn(j)
  {
    assert ([key] + rest)[1..] == rest;
  }

  lemma FieldPaths(x: string, y: string, f: string, g: string, name: string)
    requires x != y && name != x && name != y
    ensures var doc := FieldDoc(x, y, f, g);
            && AtPath(doc, ["components", "schemas", x, f]) == Some(Object(map[g := Object(map[])]))
            && AtPath(doc, ["components", "schemas", x, f, g]) == Some(Object(map[]))
            && AtPath(doc, SchemaPath(name)) == None
            && FieldRef(x, f, g) in RefsIn(doc)
  {
    var doc := FieldDoc(x, y, f, g);
    var components := doc.fields["components"];
    var schemas := components.fields["schemas"];
    var inner := schemas.fields[x];
    SomeSteps(doc, components, schemas, [x, f]);
    SomeSteps(doc, components, schemas, [x, f, g]);
    SomeSteps(doc, components, schemas, [name]);
    InnerPaths(schemas, x, f, g);
    Steps(schemas, name, []);
    assert [name] + [] == [name];
    var user := schemas.fields[y];
    assert OwnRef(user.fields) == Some(FieldRef(x, f, g));
    Steps(schemas, y, []);
  }

  lemma SomeSteps(doc: Json, components: Json, schemas: Json, rest: seq<string>)
    requires doc.Object? && "components" in doc.fields && doc.fields["components"] == components
    requires components.Object? && "schemas" in components.fields && components.fields["schemas"] == schemas
    ensures AtPath(doc, ["components", "schemas"] + rest) == AtPath(schemas, rest)
    ensures RefsIn(schemas) <= RefsIn(doc)
  {
    Steps(components, "schemas", rest);
    Steps(doc, "components", ["schemas"] + rest);
    assert ["components"] + (["schemas"] + rest) == ["components", "schemas"] + rest;
  }

  lemma InnerPaths(schemas: Json, x: string, f: string, g: string)
    requires schemas.Object? && x in schemas.fields
    requires schemas.fields[x] == Object(map[f := Object(map[g := Object(map[])])])
    ensures AtPath(schemas, [x, f]) == Some(Object(map[g := Object(map[])]))
    ensures AtPath(schemas, [x, f, g]) == Some(Object(map[]))
  {
    var inner := schemas.fields[x];
    Steps(inner.fields[f], g, []);
    Steps(inner, f, []);
    Steps(inner, f, [g]);
    Steps(schemas, x, [f]);
    Steps(schemas, x, [f, g]);
    assert [x] + [f] == [x, f] && [x] + [f, g] == [x, f, g] && [f] + [g] == [f, g];
    assert [f] + [] == [f] && [g] + [] == [g];
  }

  /** Lifting the outer field leaves a reference to the inner one dangling. */
  lemma LiftCanDangle(x: string, y: string, f: string, g: string, name: string)
    requires PlainName(x) && PlainName(f) && PlainName(g) && PlainName(name) && DotFree(name)
    requires x != y && name != x && name != y && g != "$ref"
    ensures var doc, full := FieldDoc(x, y, f, g), ["components", "schemas", x, f];
            && Liftable(doc, full, name) && AtPath(doc, full).Some? && Clear(doc, name, AtPath(doc, full).value)
            && Target(doc, FieldRef(x, f, g)).Some?
            && FieldRef(x, f, g) in RefsIn(Lifted(doc, full, name))
            && Target(Lifted(doc, full, name), FieldRef(x, f, g)).None?
  {
    var doc, full := FieldDoc(x, y, f, g), ["components", "schemas", x, f];
    var q := ["components", "schemas", x, f, g];
    FieldPaths(x, y, f, g, name);
    FieldLiftable(x, y, f, g, name);
    SplitFive("components", "schemas", x, f, g);
    PointerOf("components" + "/" + "schemas" + "/" + x + "/" + f + "/" + g);
    PlainTokens(q);
    LiftedRefs(doc, full, name);
    LiftKeepsPaths(doc, full, name, q);
    assert full < q && q[4] == g;
  }

  lemma FieldLiftable(x: string, y: string, f: string, g: string, name: string)
    requires PlainName(name) && DotFree(name) && name != x
    ensures Liftable(FieldDoc(x, y, f, g), ["components", "schemas", x, f], name)
  {
    var a, b := ["components", "schemas", x, f], SchemaPath(name);
    Apart(["components", "schemas"], x, [f], name, []);
    Apart(["components", "schemas"], name, [], x, [f]);
    assert ["components", "schemas"] + ([x] + [f]) == a && ["components", "schemas"] + ([name] + []) == b;
  }

  lemma {:induction false} Apart(front: seq<string>, a: string, p: seq<string>, b: string, q: seq<string>)
    requires a != b
    ensures Diverge(front + ([a] + p), front + ([b] + q))
    decreases |front|
  {
    var x, y := front + ([a] + p), front + ([b] + q);
    if front == [] {
      assert x == [a] + p && y == [b] + q;
    } else {
      Apart(front[1..], a, p, b, q);
      assert x[1..] == front[1..] + ([a] + p) && y[1..] == front[1..] + ([b] + q);
    }
  }
}

/** Renaming a schema component is an isomorphism of the `$ref` graph over endpoints and components. */
module Rename {
  import opened Text
  import opened JsonPointer
  import opened Document
  import opened References
  import opened Iteration
  import opened Editing
  import opened Passes

  // ---- Rewriting one $ref throughout a tree ----

  function RenamedRef(r: string, from: string, to: string): string {
    if r == from then to else r
  }

  /** Every map of a tree rewritten. */
  function Rewritten(j: Json, from: string, to: string): Json {
    match j
    case Object(fields) => Object(RewriteNode(map k | k in fields :: Rewritten(fields[k], from, to), from, to))
    case Array(items) => Array(seq(|items|, i requires 0 <= i < |items| => Rewritten(items[i], from, to)))
    case _ => j
  }

  lemma {:induction false} RewrittenIsBottomUp(j: Json, from: string, to: string)
    ensures BottomUp(NodeEdit(RewriteRef(from, to)), j) == Some(Rewritten(j, from, to))
    decreases j
  {
    var cb := NodeEdit(RewriteRef(from, to));
    match j
    case Object(fields) =>
      forall k | k in fields
        ensures BottomUp(cb, fields[k]) == Some(Rewritten(fields[k], from, to))
      {
        RewrittenIsBottomUp(fields[k], from, to);
      }
      assert BottomFields(cb, j) == map k | k in fields :: Rewritten(fields[k], from, to);
    case Array(items) =>
      forall i | 0 <= i < |items|
        ensures BottomUp(cb, items[i]) == Some(Rewritten(items[i], from, to))
      {
        RewrittenIsBottomUp(items[i], from, to);
      }
      assert BottomItems(cb, j) == seq(|items|, i requires 0 <= i < |items| => Rewritten(items[i], from, to));
    case _ =>
  }

  /** The rewriting callback, run at every map in the order of `Iterate`, rewrites the whole tree and never panics. */
  lemma RewriteVisits(j: Json, from: string, to: string)
    ensures EditAll(NodeEdit(RewriteRef(from, to)), j, Paths(j)) == Some(Rewritten(j, from, to))
  {
    VisitingOrder(NodeEdit(RewriteRef(from, to)), j);
    RewrittenIsBottomUp(j, from, to);
  }

  method RewriteTree(j: Json, from: string, to: string) returns (r: Json)
    ensures r == Rewritten(j, from, to)
    ensures r.Object? == j.Object?
  {
    RewrittenIsBottomUp(j, from, to);
    var edited := IterateEditing(RewriteRef(from, to), j);
    r := edited.value;
  }

  lemma RewrittenKind(j: Json, from: string, to: string)
    ensures Rewritten(j, from, to).Object? == j.Object? && Rewritten(j, from, to).Array? == j.Array?
    ensures j.Object? ==> Rewritten(j, from, to).fields.Keys == j.fields.Keys
    ensures j.Array? ==> |Rewritten(j, from, to).items| == |j.items|
    ensures !Container(j) ==> Rewritten(j, from, to) == j
  {
    match j
    case Object(fields) =>
      assert (map k | k in fields :: Rewritten(fields[k], from, to)).Keys == fields.Keys;
    case _ =>
  }

  /** What lies under a key after the rewrite. */
  lemma RewrittenChild(j: Json, seg: string, from: string, to: string)
    ensures Child(Rewritten(j, from, to), seg).Some? == Child(j, seg).Some?
    ensures Child(j, seg).Some? && Container(Child(j, seg).value) ==>
              Child(Rewritten(j, from, to), seg) == Some(Rewritten(Child(j, seg).value, from, to))
  {
    RewrittenKind(j, from, to);
    if j.Object? && seg in j.fields {
      RewrittenKind(j.fields[seg], from, to);
    }
  }

  /** Paths lead to the same places. */
  lemma {:induction false} RewrittenAt(j: Json, path: seq<string>, from: string, to: string)
    ensures AtPath(Rewritten(j, from, to), path).Some? == AtPath(j, path).Some?
    ensures AtPath(j, path).Some? && Container(AtPath(j, path).value) ==>
              AtPath(Rewritten(j, from, to), path) == Some(Rewritten(AtPath(j, path).value, from, to))
    decreases |path|
  {
    if path != [] {
      RewrittenChild(j, path[0], from, to);
      if Child(j, path[0]).Some? {
        var child := Child(j, path[0]).value;
        if Container(child) {
          RewrittenAt(child, path[1..], from, to);
        } else {
          LeafChild(j, path[0], from, to);
        }
      }
    }
  }

  lemma LeafChild(j: Json, seg: string, from: string, to: string)
    requires Child(j, seg).Some? && !Container(Child(j, seg).value)
    ensures Child(Rewritten(j, from, to), seg).Some? && !Container(Child(Rewritten(j, from, to), seg).value)
  {
    RewrittenKind(j, from, to);
    RewrittenKind(Child(j, seg).value, from, to);
  }

  lemma OwnRefRewritten(fields: map<string, Json>, from: string, to: string)
    ensures OwnRef(Rewritten(Object(fields), from, to).fields) ==
            if OwnRef(fields).Some? then Some(RenamedRef(OwnRef(fields).value, from, to)) else None
  {
    var inner := map k | k in fields :: Rewritten(fields[k], from, to);
    if "$ref" in fields {
      RewrittenKind(fields["$ref"], from, to);
      assert inner["$ref"] == Rewritten(fields["$ref"], from, to);
      assert fields["$ref"].Str? <==> inner["$ref"].Str?;
    }
  }

  ghost function Image(refs: set<string>, from: string, to: string): set<string> {
    set s | s in refs :: RenamedRef(s, from, to)
  }

  /** The references after the rewrite are the renamed references. */
  lemma {:induction false} RewrittenRefs(j: Json, from: string, to: string)
    ensures RefsIn(Rewritten(j, from, to)) == Image(RefsIn(j), from, to)
    decreases j
  {
    match j
    case Object(fields) =>
      forall k | k in fields
        ensures RefsIn(Rewritten(fields[k], from, to)) == Image(RefsIn(fields[k]), from, to)
      {
        RewrittenRefs(fields[k], from, to);
      }
      RewrittenFieldRefs(fields, from, to);
    case Array(items) =>
      forall i | 0 <= i < |items|
        ensures RefsIn(Rewritten(items[i], from, to)) == Image(RefsIn(items[i]), from, to)
      {
        RewrittenRefs(items[i], from, to);
      }
      RewrittenItemRefs(items, from, to);
    case _ =>
  }

  lemma RewrittenFieldRefs(fields: map<string, Json>, from: string, to: string)
    requires forall k :: k in fields ==> RefsIn(Rewritten(fields[k], from, to)) == Image(RefsIn(fields[k]), from, to)
    ensures RefsIn(Rewritten(Object(fields), from, to)) == Image(RefsIn(Object(fields)), from, to)
  {
    OwnRefRewritten(fields, from, to);
    RewrittenKind(Object(fields), from, to);
    var out := Rewritten(Object(fields), from, to).fields;
    forall k | k in fields
      ensures RefsIn(out[k]) == Image(RefsIn(fields[k]), from, to)
    {
      FieldRefsKept(fields, k, from, to);
    }
    forall r
      ensures r in RefsIn(Object(out)) <==> r in Image(RefsIn(Object(fields)), from, to)
    {
      if r in Image(RefsIn(Object(fields)), from, to) {
        var s :| s in RefsIn(Object(fields)) && r == RenamedRef(s, from, to);
        if OwnRef(fields) != Some(s) {
          var k :| k in fields && s in RefsIn(fields[k]);
          assert r in RefsIn(out[k]);
        }
      }
      if r in RefsIn(Object(out)) && OwnRef(out) != Some(r) {
        var k :| k in out && r in RefsIn(out[k]);
        var s :| s in RefsIn(fields[k]) && r == RenamedRef(s, from, to);
        assert s in RefsIn(Object(fields));
      }
    }
  }

  lemma FieldRefsKept(fields: map<string, Json>, k: string, from: string, to: string)
    requires k in fields && RefsIn(Rewritten(fields[k], from, to)) == Image(RefsIn(fields[k]), from, to)
    ensures k in Rewritten(Object(fields), from, to).fields
    ensures RefsIn(Rewritten(Object(fields), from, to).fields[k]) == Image(RefsIn(fields[k]), from, to)
  {
    RewrittenKind(fields[k], from, to);
    var inner := map k | k in fields :: Rewritten(fields[k], from, to);
    assert inner[k] == Rewritten(fields[k], from, to);
  }

  lemma RewrittenItemRefs(items: seq<Json>, from: string, to: string)
    requires forall i :: 0 <= i < |items| ==> RefsIn(Rewritten(items[i], from, to)) == Image(RefsIn(items[i]), from, to)
    ensures RefsIn(Rewritten(Array(items), from, to)) == Image(RefsIn(Array(items)), from, to)
  {
    var out := Rewritten(Array(items), from, to).items;
    assert forall i :: 0 <= i < |items| ==> out[i] == Rewritten(items[i], from, to);
    forall r | r in Image(RefsIn(Array(items)), from, to)
      ensures r in RefsIn(Array(out))
    {
      var s :| s in RefsIn(Array(items)) && r == RenamedRef(s, from, to);
      var i :| 0 <= i < |items| && s in RefsIn(items[i]);
      assert r in RefsIn(out[i]);
    }
    forall r | r in RefsIn(Array(out))
      ensures r in Image(RefsIn(Array(items)), from, to)
    {
      var i :| 0 <= i < |out| && r in RefsIn(out[i]);
      var s :| s in RefsIn(items[i]) && r == RenamedRef(s, from, to);
      assert s in RefsIn(Array(items));
    }
  }

  /** Rewriting back undoes a rewrite to a `$ref` that did not occur. */
  lemma {:induction false} RewriteBack(j: Json, from: string, to: string)
    requires to !in RefsIn(j)
    ensures Rewritten(Rewritten(j, from, to), to, from) == j
    decreases j
  {
    match j
    case Object(fields) =>
      forall k | k in fields
        ensures Rewritten(Rewritten(fields[k], from, to), to, from) == fields[k]
      {
        RewriteBack(fields[k], from, to);
      }
      RewriteBackFields(fields, from, to);
    case Array(items) =>
      forall i | 0 <= i < |items|
        ensures Rewritten(Rewritten(items[i], from, to), to, from) == items[i]
      {
        RewriteBack(items[i], from, to);
      }
    case _ =>
  }

  lemma RewriteBackFields(fields: map<string, Json>, from: string, to: string)
    requires OwnRef(fields) != Some(to)
    requires forall k :: k in fields ==> Rewritten(Rewritten(fields[k], from, to), to, from) == fields[k]
    ensures Rewritten(Rewritten(Object(fields), from, to), to, from) == Object(fields)
  {
    var inner := map k | k in fields :: Rewritten(fields[k], from, to);
    var once := RewriteNode(inner, from, to);
    var back := map k | k in once :: Rewritten(once[k], to, from);
    assert once.Keys == fields.Keys;
    forall k | k in fields
      ensures k in RewriteNode(back, to, from) && RewriteNode(back, to, from)[k] == fields[k]
    {
      if k == "$ref" {
        RewrittenKind(fields[k], from, to);
        RewrittenKind(once[k], to, from);
      }
    }
    assert RewriteNode(back, to, from) == fields;
  }

  // ---- Documents ----

  ghost predicate AllObjects(m: map<string, Json>) {
    forall k :: k in m ==> m[k].Object?
  }

  /** Component sections and schemas are maps. */
  ghost predicate WellFormed(doc: Doc) {
    && AllObjects(doc.components) && "schemas" in doc.components
    && AllObjects(doc.components["schemas"].fields)
  }

  predicate CanRename(doc: Doc, old_: string, new_: string) {
    && "schemas" in doc.components && doc.components["schemas"].Object?
    && old_ in doc.components["schemas"].fields && new_ !in doc.components["schemas"].fields
  }

  function MovedSchemas(schemas: map<string, Json>, old_: string, new_: string): map<string, Json>
    requires old_ in schemas
  {
    (schemas - {old_})[new_ := schemas[old_]]
  }

  function MovedComponents(components: map<string, Json>, old_: string, new_: string): map<string, Json>
    requires "schemas" in components && components["schemas"].Object? && old_ in components["schemas"].fields
  {
    components["schemas" := Object(MovedSchemas(components["schemas"].fields, old_, new_))]
  }

  function RewrittenItem(item: map<string, Json>, from: string, to: string): map<string, Json> {
    map m | m in item :: if m in METHODS then Rewritten(item[m], from, to) else item[m]
  }

  function RenamedDoc(doc: Doc, old_: string, new_: string): Doc
    requires CanRename(doc, old_, new_)
  {
    var from, to := SchemaRefOf(old_), SchemaRefOf(new_);
    Doc(Rewritten(Object(MovedComponents(doc.components, old_, new_)), from, to).fields,
        map p | p in doc.paths :: RewrittenItem(doc.paths[p], from, to))
  }

  /** `renameComponentSchema`, with paths and endpoints taken in any order; `false` is a panic. */
  method RenameComponentSchema(schema: SchemaFile, old_: string, new_: string) returns (ok: bool)
    modifies schema
    ensures ok <==> CanRename(old(schema.doc), old_, new_)
    ensures schema.doc == if ok then RenamedDoc(old(schema.doc), old_, new_) else old(schema.doc)
  {
    if "schemas" !in schema.doc.components || !schema.doc.components["schemas"].Object? {
      return false;
    }
    var schemas := schema.doc.components["schemas"].fields;
    if new_ in schemas || old_ !in schemas {
      return false;
    }
    var from, to := SchemaRefOf(old_), SchemaRefOf(new_);
    var node := schemas[old_];
    schemas := schemas - {old_};
    schemas := schemas[new_ := node];
    var components := RewriteTree(Object(schema.doc.components["schemas" := Object(schemas)]), from, to);
    var paths := RewritePaths(schema.doc.paths, from, to);
    schema.doc := Doc(components.fields, paths);
    return true;
  }

  method RewritePaths(paths: map<string, map<string, Json>>, from: string, to: string)
    returns (out: map<string, map<string, Json>>)
    ensures out == map p | p in paths :: RewrittenItem(paths[p], from, to)
  {
    out := paths;
    var left := paths.Keys;
    while left != {}
      invariant left <= paths.Keys == out.Keys
      invariant forall p :: p in paths ==> out[p] == if p in left then paths[p] else RewrittenItem(paths[p], from, to)
      decreases left
    {
      var p :| p in left;
      var item := RewriteEndpoints(out[p], from, to);
      out := out[p := item];
      left := left - {p};
    }
  }

  method RewriteEndpoints(item: map<string, Json>, from: string, to: string) returns (out: map<string, Json>)
    ensures out == RewrittenItem(item, from, to)
  {
    out := item;
    var left := METHODS;
    while left != {}
      invariant left <= METHODS && out.Keys == item.Keys
      invariant forall m :: m in item ==>
                  out[m] == if m in METHODS - left then Rewritten(item[m], from, to) else item[m]
      decreases left
    {
      var m :| m in left;
      if m in item {
        var tree := RewriteTree(item[m], from, to);
        out := out[m := tree];
      }
      left := left - {m};
    }
  }

  // ---- Where things are afterwards ----

  /** The path of a node after the rename. */
  function Moved(path: seq<string>, old_: string, new_: string): seq<string> {
    if SchemaPath(old_) <= path then SchemaPath(new_) + path[3..] else path
  }

  function MovedTail(tail: seq<string>, old_: string, new_: string): seq<string> {
    if ["schemas", old_] <= tail then ["schemas", new_] + tail[2..] else tail
  }

  lemma TwoDown(x: Json, a: string, b: string, rest: seq<string>)
    requires x.Object? && a in x.fields && x.fields[a].Object? && b in x.fields[a].fields
    ensures AtPath(x, [a, b] + rest) == AtPath(x.fields[a].fields[b], rest)
  {
    var path := [a, b] + rest;
    assert path[1..] == [b] + rest && path[1..][1..] == rest;
    assert AtPath(x.fields[a], path[1..]) == AtPath(x.fields[a].fields[b], rest);
  }

  /** Moving the component keeps every node, at its moved place. */
  lemma MovedAt(components: map<string, Json>, old_: string, new_: string, tail: seq<string>)
    requires "schemas" in components && components["schemas"].Object?
    requires old_ in components["schemas"].fields && new_ !in components["schemas"].fields
    requires AtPath(Object(components), tail).Some?
    ensures var x := Object(MovedComponents(components, old_, new_));
            && AtPath(x, MovedTail(tail, old_, new_)).Some?
            && (|tail| >= 2 ==> AtPath(x, MovedTail(tail, old_, new_)) == AtPath(Object(components), tail))
  {
    var x := Object(MovedComponents(components, old_, new_));
    var schemas := components["schemas"];
    var moved := Object(MovedSchemas(schemas.fields, old_, new_));
    if |tail| >= 2 && tail[0] == "schemas" {
      var rest := tail[2..];
      assert tail[1..][1..] == rest;
      assert AtPath(Object(components), tail) == AtPath(schemas, tail[1..]);
      assert AtPath(schemas, tail[1..]) == AtPath(schemas.fields[tail[1]], rest);
      if tail[1] == old_ {
        assert ["schemas", old_] <= tail;
        TwoDown(x, "schemas", new_, rest);
      } else {
        assert !(["schemas", old_] <= tail);
        assert tail == ["schemas", tail[1]] + rest;
        TwoDown(x, "schemas", tail[1], rest);
      }
    } else if |tail| >= 1 {
      assert !(["schemas", old_] <= tail);
      if |tail| == 1 {
        assert tail[1..] == [];
      }
    }
  }

  /** Nodes of the components survive the rename, at their moved path, with their refs renamed. */
  lemma ComponentNode(doc: Doc, old_: string, new_: string, path: seq<string>)
    requires CanRename(doc, old_, new_) && |path| > 0 && path[0] == "components" && Lookup(doc, path).Some?
    ensures Lookup(RenamedDoc(doc, old_, new_), Moved(path, old_, new_)).Some?
    ensures |path| >= 3 && Container(Lookup(doc, path).value) ==>
              Lookup(RenamedDoc(doc, old_, new_), Moved(path, old_, new_)) ==
              Some(Rewritten(Lookup(doc, path).value, SchemaRefOf(old_), SchemaRefOf(new_)))
  {
    var tail := path[1..];
    var tail' := MovedTail(tail, old_, new_);
    MovedAt(doc.components, old_, new_, tail);
    MovedPath(path, old_, new_);
    RewrittenAt(Object(MovedComponents(doc.components, old_, new_)), tail', SchemaRefOf(old_), SchemaRefOf(new_));
    RewrittenKind(Object(MovedComponents(doc.components, old_, new_)), SchemaRefOf(old_), SchemaRefOf(new_));
  }

  lemma MovedPath(path: seq<string>, old_: string, new_: string)
    requires |path| > 0 && path[0] == "components"
    ensures Moved(path, old_, new_) == ["components"] + MovedTail(path[1..], old_, new_)
  {
    var tail := path[1..];
    assert path == ["components"] + tail;
    if ["schemas", old_] <= tail {
      assert SchemaPath(old_) <= path;
      assert path[3..] == tail[2..];
      assert SchemaPath(new_) + path[3..] == ["components"] + (["schemas", new_] + tail[2..]);
    } else {
      assert !(SchemaPath(old_) <= path);
    }
  }

  /** Nodes of the paths stay where they are. */
  lemma PathNode(doc: Doc, old_: string, new_: string, path: seq<string>)
    requires CanRename(doc, old_, new_) && |path| > 1 && path[0] == "paths" && Lookup(doc, path).Some?
    ensures Moved(path, old_, new_) == path
    ensures Lookup(RenamedDoc(doc, old_, new_), path).Some?
    ensures |path| >= 3 && path[2] in METHODS && Container(Lookup(doc, path).value) ==>
              Lookup(RenamedDoc(doc, old_, new_), path) ==
              Some(Rewritten(Lookup(doc, path).value, SchemaRefOf(old_), SchemaRefOf(new_)))
  {
    var from, to := SchemaRefOf(old_), SchemaRefOf(new_);
    assert SchemaPath(old_)[0] != path[0];
    var item := doc.paths[path[1]];
    var item' := RewrittenItem(item, from, to);
    var rest := path[2..];
    if rest != [] {
      assert rest[0] == path[2] && rest[1..] == path[3..];
      if path[2] in METHODS {
        RewrittenAt(item[path[2]], rest[1..], from, to);
      }
    }
  }

  // ---- The $ref graph ----

  lemma MovedRefs(components: map<string, Json>, old_: string, new_: string)
    requires AllObjects(components) && "schemas" in components && AllObjects(components["schemas"].fields)
    requires old_ in components["schemas"].fields && new_ !in components["schemas"].fields
    ensures RefsIn(Object(MovedComponents(components, old_, new_))) == RefsIn(Object(components))
  {
    var schemas := components["schemas"].fields;
    var moved := MovedSchemas(schemas, old_, new_);
    forall r
      ensures r in RefsIn(Object(moved)) <==> r in RefsIn(Object(schemas))
    {
      if r in RefsIn(Object(schemas)) {
        var k :| k in schemas && r in RefsIn(schemas[k]);
        var k' := if k == old_ then new_ else k;
        assert moved[k'] == schemas[k];
      }
      if r in RefsIn(Object(moved)) {
        var k :| k in moved && r in RefsIn(moved[k]);
        var k' := if k == new_ then old_ else k;
        assert schemas[k'] == moved[k];
      }
    }
    assert RefsIn(Object(moved)) == RefsIn(Object(schemas));
    var all := MovedComponents(components, old_, new_);
    SectionRefs(components, all);
  }

  lemma SectionRefs(a: map<string, Json>, b: map<string, Json>)
    requires a.Keys == b.Keys && AllObjects(a) && AllObjects(b)
    requires forall k :: k in a ==> RefsIn(a[k]) == RefsIn(b[k])
    ensures RefsIn(Object(a)) == RefsIn(Object(b))
  {
  }

  lemma EndpointRefsRenamed(paths: map<string, map<string, Json>>, from: string, to: string)
    ensures EndpointRefs(map p | p in paths :: RewrittenItem(paths[p], from, to)) ==
              Image(EndpointRefs(paths), from, to)
  {
    var out := map p | p in paths :: RewrittenItem(paths[p], from, to);
    forall p, m | p in paths && m in paths[p] && m in METHODS
      ensures RefsIn(out[p][m]) == Image(RefsIn(paths[p][m]), from, to)
    {
      RewrittenRefs(paths[p][m], from, to);
    }
    forall r
      ensures r in EndpointRefs(out) <==> r in Image(EndpointRefs(paths), from, to)
    {
      if r in EndpointRefs(out) {
        var p, m :| p in out && m in out[p] && m in METHODS && r in RefsIn(out[p][m]);
        var s :| s in RefsIn(paths[p][m]) && r == RenamedRef(s, from, to);
        assert s in EndpointRefs(paths);
      }
      if r in Image(EndpointRefs(paths), from, to) {
        var s :| s in EndpointRefs(paths) && r == RenamedRef(s, from, to);
        var p, m :| p in paths && m in paths[p] && m in METHODS && s in RefsIn(paths[p][m]);
        assert r in RefsIn(out[p][m]);
      }
    }
  }

  /** The scanned references are renamed, one for one. */
  lemma RefsRenamed(doc: Doc, old_: string, new_: string)
    requires WellFormed(doc) && CanRename(doc, old_, new_)
    ensures ScannedRefs(RenamedDoc(doc, old_, new_)) == Image(ScannedRefs(doc), SchemaRefOf(old_), SchemaRefOf(new_))
  {
    var from, to := SchemaRefOf(old_), SchemaRefOf(new_);
    var x := Object(MovedComponents(doc.components, old_, new_));
    MovedRefs(doc.components, old_, new_);
    RewrittenRefs(x, from, to);
    RewrittenKind(x, from, to);
    EndpointRefsRenamed(doc.paths, from, to);
  }

  /** A reference into the component, other than the plain reference to it. */
  predicate IntoComponent(r: string, name: string) {
    PointerPath(r).Some? && SchemaPath(name) <= PointerPath(r).value && r != SchemaRefOf(name)
  }

  lemma SchemaRefsDiffer(a: string, b: string)
    requires a != b
    ensures SchemaRefOf(a) != SchemaRefOf(b)
  {
    var n := |SchemaRefOf("")|;
    assert SchemaRefOf(a)[|SchemaRefOf(a)| - |a|..] == a;
    assert SchemaRefOf(b)[|SchemaRefOf(b)| - |b|..] == b;
  }

  /** A reference not into the component resolves, after the rename, to the corresponding node. */
  lemma RefFollowsNode(doc: Doc, old_: string, new_: string, r: string)
    requires CanRename(doc, old_, new_) && PlainName(old_) && PlainName(new_)
    requires Resolve(doc, r).Some? && !IntoComponent(r, old_)
    ensures PointerPath(RenamedRef(r, SchemaRefOf(old_), SchemaRefOf(new_))) ==
              Some(Moved(PointerPath(r).value, old_, new_))
    ensures Resolve(RenamedDoc(doc, old_, new_), RenamedRef(r, SchemaRefOf(old_), SchemaRefOf(new_))).Some?
    ensures var path := PointerPath(r).value;
            |path| >= 3 && (path[0] == "components" || path[2] in METHODS) && Container(Resolve(doc, r).value) ==>
              Resolve(RenamedDoc(doc, old_, new_), RenamedRef(r, SchemaRefOf(old_), SchemaRefOf(new_))) ==
              Some(Rewritten(Resolve(doc, r).value, SchemaRefOf(old_), SchemaRefOf(new_)))
  {
    var path := PointerPath(r).value;
    SchemaRefPath(old_);
    SchemaRefPath(new_);
    if r == SchemaRefOf(old_) {
      assert path[3..] == [];
      assert SchemaPath(new_) + [] == SchemaPath(new_);
    }
    if path[0] == "components" {
      ComponentNode(doc, old_, new_, path);
    } else {
      PathNode(doc, old_, new_, path);
    }
  }

  /** A reference into the component is left dangling: its spelling is not rewritten. */
  lemma IntoComponentDangles(doc: Doc, old_: string, new_: string, r: string)
    requires CanRename(doc, old_, new_) && IntoComponent(r, old_)
    ensures Resolve(RenamedDoc(doc, old_, new_), r).None?
  {
    var from, to := SchemaRefOf(old_), SchemaRefOf(new_);
    var path := PointerPath(r).value;
    var tail := path[1..];
    assert path[0] == "components" && tail[0] == "schemas" && tail[1] == old_;
    var x := Object(MovedComponents(doc.components, old_, new_));
    RewrittenAt(x, tail, from, to);
    RewrittenKind(x, from, to);
    var moved := MovedSchemas(doc.components["schemas"].fields, old_, new_);
    assert old_ !in moved;
    assert tail[1..][0] == old_;
    assert AtPath(Object(moved), tail[1..]).None?;
    assert AtPath(x, tail) == AtPath(Object(moved), tail[1..]);
  }

  /** In a document without dangling references, renaming to an unused name leaves none exactly when
      no reference points into the component; the old reference is gone either way. */
  lemma RenameIsIsomorphism(doc: Doc, old_: string, new_: string)
    requires WellFormed(doc) && CanRename(doc, old_, new_) && PlainName(old_) && PlainName(new_) && NoDangling(doc)
    ensures NoDangling(RenamedDoc(doc, old_, new_)) <==> forall r :: r in ScannedRefs(doc) ==> !IntoComponent(r, old_)
    ensures SchemaRefOf(old_) !in ScannedRefs(RenamedDoc(doc, old_, new_))
  {
    var from, to := SchemaRefOf(old_), SchemaRefOf(new_);
    var doc' := RenamedDoc(doc, old_, new_);
    RefsRenamed(doc, old_, new_);
    SchemaRefsDiffer(old_, new_);
    forall r | r in ScannedRefs(doc)
      ensures Resolve(doc', RenamedRef(r, from, to)).Some? <==> !IntoComponent(r, old_)
    {
      if IntoComponent(r, old_) {
        IntoComponentDangles(doc, old_, new_, r);
      } else {
        RefFollowsNode(doc, old_, new_, r);
      }
    }
    if r :| r in ScannedRefs(doc) && IntoComponent(r, old_) {
      assert RenamedRef(r, from, to) in ScannedRefs(doc');
    }
  }

  // ---- Renaming back ----

  lemma NewRefUnused(doc: Doc, old_: string, new_: string)
    requires CanRename(doc, old_, new_) && PlainName(new_) && NoDangling(doc)
    ensures SchemaRefOf(new_) !in ScannedRefs(doc)
  {
    SchemaRefPath(new_);
    var path := SchemaPath(new_);
    assert path[1..] == ["schemas", new_] && ["schemas", new_][1..] == [new_];
    assert AtPath(Object(doc.components), ["schemas", new_]) == AtPath(doc.components["schemas"], [new_]);
    assert AtPath(doc.components["schemas"], [new_]).None?;
    assert Resolve(doc, SchemaRefOf(new_)).None?;
  }

  lemma ItemBack(item: map<string, Json>, from: string, to: string)
    requires forall m :: m in item && m in METHODS ==> to !in RefsIn(item[m])
    ensures RewrittenItem(RewrittenItem(item, from, to), to, from) == item
  {
    forall m | m in item && m in METHODS
      ensures Rewritten(Rewritten(item[m], from, to), to, from) == item[m]
    {
      RewriteBack(item[m], from, to);
    }
  }

  function EachRewritten(m: map<string, Json>, from: string, to: string): map<string, Json> {
    map k | k in m :: Rewritten(m[k], from, to)
  }

  lemma MovedBack(schemas: map<string, Json>, old_: string, new_: string, from: string, to: string)
    requires old_ in schemas && new_ !in schemas
    ensures var once := EachRewritten(MovedSchemas(schemas, old_, new_), from, to);
            && new_ in once && old_ !in once
            && MovedSchemas(once, new_, old_) == EachRewritten(schemas, from, to)
  {
  }

  lemma ComponentsBack(components: map<string, Json>, old_: string, new_: string, from: string, to: string)
    requires AllObjects(components) && "schemas" in components && AllObjects(components["schemas"].fields)
    requires old_ in components["schemas"].fields && new_ !in components["schemas"].fields
    requires to !in RefsIn(Object(components))
    ensures var once := Rewritten(Object(MovedComponents(components, old_, new_)), from, to).fields;
            && "schemas" in once && once["schemas"].Object? && new_ in once["schemas"].fields &&
                old_ !in once["schemas"].fields
            && Rewritten(Object(MovedComponents(once, new_, old_)), to, from) == Object(components)
  {
    var schemas := components["schemas"].fields;
    var moved := MovedComponents(components, old_, new_);
    RewrittenObjects(moved, from, to);
    RewrittenObjects(MovedSchemas(schemas, old_, new_), from, to);
    RewrittenObjects(schemas, from, to);
    RewrittenObjects(components, from, to);
    MovedBack(schemas, old_, new_, from, to);
    var once := EachRewritten(moved, from, to);
    assert once["schemas"] == Object(EachRewritten(MovedSchemas(schemas, old_, new_), from, to));
    assert MovedComponents(once, new_, old_) == EachRewritten(components, from, to) by {
      assert components["schemas"] == Object(schemas);
    }
    RewriteBack(Object(components), from, to);
  }

  /** Maps of maps are rewritten entry by entry. */
  lemma RewrittenObjects(m: map<string, Json>, from: string, to: string)
    requires AllObjects(m)
    ensures Rewritten(Object(m), from, to) == Object(EachRewritten(m, from, to))
  {
    if "$ref" in m {
      RewrittenKind(m["$ref"], from, to);
    }
  }

  /** Renaming back restores the document. */
  lemma RenameRoundTrip(doc: Doc, old_: string, new_: string)
    requires WellFormed(doc) && CanRename(doc, old_, new_) && PlainName(new_) && NoDangling(doc)
    ensures CanRename(RenamedDoc(doc, old_, new_), new_, old_)
    ensures RenamedDoc(RenamedDoc(doc, old_, new_), new_, old_) == doc
  {
    var from, to := SchemaRefOf(old_), SchemaRefOf(new_);
    NewRefUnused(doc, old_, new_);
    ComponentsBack(doc.components, old_, new_, from, to);
    var once := RenamedDoc(doc, old_, new_);
    forall p | p in doc.paths
      ensures RewrittenItem(once.paths[p], to, from) == doc.paths[p]
    {
      ItemBack(doc.paths[p], from, to);
    }
    assert RenamedDoc(once, new_, old_).paths == doc.paths;
  }

  // ---- A rename that does leave a dangling reference ----

  function DeepRef(name: string, field: string): string {
    "#/" + ("components" + "/" + "schemas" + "/" + name + "/" + field)
  }

  /** One schema with a field, and another that refers to that field. */
  function DeepDoc(name: string, user: string, field: string): Doc {
    Doc(map["schemas" := Object(map[name := Object(map[field := Object(map[])]),
        user := Object(map["$ref" := Str(DeepRef(name, field))])])], map[])
  }

  lemma DeepPointer(a: string, b: string, c: string, d: string)
    requires '/' !in a && '/' !in b && '/' !in c && '/' !in d && '~' !in a && '~' !in b && '~' !in c && '~' !in d
    ensures PointerPath("#/" + (a + "/" + b + "/" + c + "/" + d)) == Some([a, b, c, d])
  {
    var ref := "#/" + (a + "/" + b + "/" + c + "/" + d);
    assert HasPrefix(ref, "#/") && ref[2..] == a + "/" + b + "/" + c + "/" + d;
    SplitAppend(a + "/" + b + "/" + c, '/', d);
    SplitThree(a, b, c);
    assert Split(ref[2..], '/') == [a, b, c, d];
    UnescapePlain(a);
    UnescapePlain(b);
    UnescapePlain(c);
    UnescapePlain(d);
    assert UnescapeAll([a, b, c, d]) == [a, b, c, d];
  }

  lemma DeepRefs(name: string, user: string, field: string)
    requires name != user && name != "$ref" && user != "$ref" && field != "$ref"
    ensures ScannedRefs(DeepDoc(name, user, field)) == {DeepRef(name, field)}
  {
    var r := DeepRef(name, field);
    var components := DeepDoc(name, user, field).components;
    var schemas := components["schemas"].fields;
    assert schemas.Keys == {name, user};
    var empty := Object(map[]);
    assert RefsIn(empty) == {};
    assert RefsIn(schemas[name]) == {} by {
      assert schemas[name].fields.Keys == {field};
    }
    assert RefsIn(schemas[user]) == {r} by {
      assert schemas[user].fields.Keys == {"$ref"};
      assert OwnRef(schemas[user].fields) == Some(r);
    }
    assert RefsIn(Object(schemas)) == {r} by {
      assert OwnRef(schemas) == None;
      assert r in RefsIn(schemas[user]);
    }
    assert RefsIn(Object(components)) == {r} by {
      assert components.Keys == {"schemas"};
      assert components["schemas"] == Object(schemas);
      assert r in RefsIn(components["schemas"]);
    }
    assert EndpointRefs(DeepDoc(name, user, field).paths) == {};
  }

  lemma DeepResolves(name: string, user: string, field: string)
    requires name != user
    ensures Lookup(DeepDoc(name, user, field), ["components", "schemas", name, field]).Some?
  {
    var path := ["components", "schemas", name, field];
    var components := DeepDoc(name, user, field).components;
    var schemas := components["schemas"];
    assert path[1..] == ["schemas", name, field] && ["schemas", name, field][1..] == [name, field] &&
             [name, field][1..] == [field];
    assert [field][1..] == [];
    assert AtPath(schemas.fields[name], [field]).Some?;
    assert AtPath(schemas, [name, field]) == AtPath(schemas.fields[name], [field]);
    assert AtPath(Object(components), ["schemas", name, field]) == AtPath(schemas, [name, field]);
  }

  /** A reference to a field of the renamed schema resolves before and dangles after. */
  lemma RenameCanDangle(name: string, user: string, field: string, new_: string)
    requires PlainName(name) && PlainName(field) && PlainName(new_)
    requires name != user && new_ != name && new_ != user && name != "$ref" && user != "$ref" && field != "$ref"
    ensures var doc := DeepDoc(name, user, field);
            WellFormed(doc) && CanRename(doc, name, new_) && NoDangling(doc) && !NoDangling(RenamedDoc(doc, name, new_))
  {
    var doc := DeepDoc(name, user, field);
    var r := DeepRef(name, field);
    DeepRefs(name, user, field);
    DeepPointer("components", "schemas", name, field);
    DeepResolves(name, user, field);
    assert Resolve(doc, r).Some?;
    assert ["components", "schemas", name, field][..3] == SchemaPath(name);
    assert |r| != |SchemaRefOf(name)|;
    assert IntoComponent(r, name);
    RenameIsIsomorphism(doc, name, new_);
  }
}

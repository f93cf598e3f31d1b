/** `$ref` strings of the transformed document: where they lead and where they occur. */
module References {
  import opened Text
  import opened JsonPointer
  import opened Document

  function UnescapeAll(tokens: seq<string>): seq<string> {
    seq(|tokens|, i requires 0 <= i < |tokens| => UnescapeToken(tokens[i]))
  }

  /** The path a local `$ref` names; other references lead outside the document. */
  function PointerPath(ref: string): Option<seq<string>> {
    if HasPrefix(ref, "#/") then Some(UnescapeAll(Split(ref[2..], '/'))) else None
  }

  function Target(doc: Json, ref: string): Option<Json> {
    var path := PointerPath(ref);
    if path.None? then None else AtPath(doc, path.value)
  }

  /** A component name as the OpenAPI Specification allows it, as far as pointers are concerned. */
  predicate PlainName(name: string) {
    name != "" && '/' !in name && '~' !in name
  }

  function SchemaPath(name: string): seq<string> {
    ["components", "schemas", name]
  }

  function SchemaRefOf(name: string): string {
    "#/" + ("components" + "/" + "schemas" + "/" + name)
  }

  lemma SplitThree(a: string, b: string, c: string)
    requires '/' !in a && '/' !in b && '/' !in c
    ensures Split(a + "/" + b + "/" + c, '/') == [a, b, c]
  {
    SplitAppend(a + "/" + b, '/', c);
    SplitAppend(a, '/', b);
    SplitPiece(a, '/');
  }

  lemma PlainPointer(a: string, b: string, c: string)
    requires '/' !in a && '/' !in b && '/' !in c && '~' !in a && '~' !in b && '~' !in c
    ensures PointerPath("#/" + (a + "/" + b + "/" + c)) == Some([a, b, c])
  {
    var ref := "#/" + (a + "/" + b + "/" + c);
    assert HasPrefix(ref, "#/") && ref[2..] == a + "/" + b + "/" + c;
    SplitThree(a, b, c);
    UnescapePlain(a);
    UnescapePlain(b);
    UnescapePlain(c);
    assert UnescapeAll([a, b, c]) == [a, b, c];
  }

  lemma SplitFive(a: string, b: string, c: string, d: string, e: string)
    requires '/' !in a && '/' !in b && '/' !in c && '/' !in d && '/' !in e
    ensures Split(a + "/" + b + "/" + c + "/" + d + "/" + e, '/') == [a, b, c, d, e]
  {
    SplitThree(a, b, c);
    SplitAppend(a + "/" + b + "/" + c, '/', d);
    SplitAppend(a + "/" + b + "/" + c + "/" + d, '/', e);
  }

  predicate PlainToken(t: string) {
    '/' !in t && '~' !in t
  }

  lemma PlainTokens(tokens: seq<string>)
    requires forall i :: 0 <= i < |tokens| ==> PlainToken(tokens[i])
    ensures UnescapeAll(tokens) == tokens
  {
    forall i | 0 <= i < |tokens|
      ensures UnescapeToken(tokens[i]) == tokens[i]
    {
      UnescapePlain(tokens[i]);
    }
  }

  lemma PointerOf(rest: string)
    ensures PointerPath("#/" + rest) == Some(UnescapeAll(Split(rest, '/')))
  {
    var ref := "#/" + rest;
    assert HasPrefix(ref, "#/") && ref[2..] == rest;
  }

  /** The `$ref` to a schema component leads to that component. */
  lemma SchemaRefPath(name: string)
    requires PlainName(name)
    ensures PointerPath(SchemaRefOf(name)) == Some(SchemaPath(name))
  {
    PlainPointer("components", "schemas", name);
  }

  /** The string under `$ref`, if there is one. */
  function OwnRef(fields: map<string, Json>): Option<string> {
    if "$ref" in fields && fields["$ref"].Str? then Some(fields["$ref"].text) else None
  }

  /** Every `$ref` string of a tree, as `Iterate` with a collecting callback finds them. */
  ghost function RefsIn(j: Json): set<string>
    decreases j
  {
    match j
    case Object(fields) =>
      (if OwnRef(fields).Some? then {OwnRef(fields).value} else {}) + (set k, r | k in fields &&
          r in RefsIn(fields[k]) :: r)
    case Array(items) => set i, r | 0 <= i < |items| && r in RefsIn(items[i]) :: r
    case _ => {}
  }

  // ---- The document of the passes: components and paths ----

  /** `Schema` as far as the passes look at it; a path item maps methods (and `parameters`) to trees. */
  datatype Doc = Doc(components: map<string, Json>, paths: map<string, map<string, Json>>)

  const METHODS: set<string> := {"get", "post", "put", "patch", "delete"}

  /** Following a path from the root of the document. */
  function Lookup(doc: Doc, path: seq<string>): Option<Json> {
    if |path| == 0 then None
    else if path[0] == "components" then AtPath(Object(doc.components), path[1..])
    else if path[0] == "paths" && |path| > 1 && path[1] in doc.paths then AtPath(Object(doc.paths[path[1]]), path[2..])
    else None
  }

  function Resolve(doc: Doc, ref: string): Option<Json> {
    var path := PointerPath(ref);
    if path.None? then None else Lookup(doc, path.value)
  }

  /** The references in the endpoints of a document: the passes do not scan path-level parameters. */
  ghost function EndpointRefs(paths: map<string, map<string, Json>>): set<string> {
    set p, m, r | p in paths && m in paths[p] && m in METHODS && r in RefsIn(paths[p][m]) :: r
  }

  /** Every `$ref` the passes scan. */
  ghost function ScannedRefs(doc: Doc): set<string> {
    RefsIn(Object(doc.components)) + EndpointRefs(doc.paths)
  }

  /** Scanned are the references of the components and of the `get`, `post`, `put`, `patch` and `delete` endpoints. */
  lemma ScannedIff(doc: Doc, r: string)
    ensures r in ScannedRefs(doc) <==>
            || r in RefsIn(Object(doc.components))
            || exists p, m :: p in doc.paths && m in doc.paths[p] && r in RefsIn(doc.paths[p][m]) &&
                              (m == "get" || m == "post" || m == "put" || m == "patch" || m == "delete")
  {
  }

  /** A reference of a tree is a string under some `$ref` of it. */
  lemma {:induction false} RefsIff(j: Json, r: string)
    ensures r in RefsIn(j) <==> exists q :: AtPath(j, q + ["$ref"]) == Some(Str(r))
    decreases j
  {
    if r in RefsIn(j) {
      RefHasPath(j, r);
    }
    if q :| AtPath(j, q + ["$ref"]) == Some(Str(r)) {
      PathHasRef(j, q, r);
    }
  }

  lemma {:induction false} RefHasPath(j: Json, r: string)
    requires r in RefsIn(j)
    ensures exists q :: AtPath(j, q + ["$ref"]) == Some(Str(r))
    decreases j
  {
    match j
    case Object(fields) =>
      if OwnRef(fields) == Some(r) {
        assert [] + ["$ref"] == ["$ref"] && ["$ref"][1..] == [];
        assert AtPath(j, [] + ["$ref"]) == Some(Str(r));
      } else {
        var k :| k in fields && r in RefsIn(fields[k]);
        RefHasPath(fields[k], r);
        PathFromChild(j, k, fields[k], r);
      }
    case Array(items) =>
      var i :| 0 <= i < |items| && r in RefsIn(items[i]);
      RefHasPath(items[i], r);
      CanonDecimal(i, |items|);
      PathFromChild(j, Decimal(i), items[i], r);
  }

  lemma PathFromChild(j: Json, k: string, child: Json, r: string)
    requires Child(j, k) == Some(child) && exists q :: AtPath(child, q + ["$ref"]) == Some(Str(r))
    ensures exists q :: AtPath(j, q + ["$ref"]) == Some(Str(r))
  {
    var q :| AtPath(child, q + ["$ref"]) == Some(Str(r));
    assert ([k] + q) + ["$ref"] == [k] + (q + ["$ref"]);
    assert ([k] + (q + ["$ref"]))[1..] == q + ["$ref"];
    assert AtPath(j, ([k] + q) + ["$ref"]) == Some(Str(r));
  }

  lemma NoIndex()
    ensures forall n :: CanonIndex("$ref", n).None?
  {
    assert !IsDigit("$ref"[0]);
    assert forall i: nat :: IsDigit(Decimal(i)[0]);
  }

  lemma {:induction false} PathHasRef(j: Json, q: seq<string>, r: string)
    requires AtPath(j, q + ["$ref"]) == Some(Str(r))
    ensures r in RefsIn(j)
    decreases |q|
  {
    if q == [] {
      assert ([] + ["$ref"])[1..] == [];
      NoIndex();
    } else {
      assert (q + ["$ref"])[1..] == q[1..] + ["$ref"] && (q + ["$ref"])[0] == q[0];
      PathHasRef(Child(j, q[0]).value, q[1..], r);
    }
  }

  /** Every scanned reference leads somewhere. */
  ghost predicate NoDangling(doc: Doc) {
    forall r :: r in ScannedRefs(doc) ==> Resolve(doc, r).Some?
  }

  /** The document as the passes share it: each edits it in place. */
  class SchemaFile {
    var doc: Doc

    constructor (doc: Doc)
      ensures this.doc == doc
    {
      this.doc := doc;
    }
  }
}

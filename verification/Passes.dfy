/** The callbacks of the passes over the document, and `Iterate` run with them. */
module Passes {
  import opened Collections
  import opened Text
  import opened Document
  import opened Iteration
  import opened Editing

  // ---- Renaming: one map ----

  /** The callback: a map whose `$ref` is `from` gets `to`. */
  function RewriteNode(fields: map<string, Json>, from: string, to: string): map<string, Json> {
    if "$ref" in fields && fields["$ref"] == Str(from) then fields["$ref" := Str(to)] else fields
  }

  method RewriteCallback(fields: map<string, Json>, from: string, to: string) returns (out: map<string, Json>)
    ensures out == RewriteNode(fields, from, to)
  {
    out := fields;
    if "$ref" in out && out["$ref"].Str? && out["$ref"].text == from {
      out := out["$ref" := Str(to)];
    }
  }

  // ---- Collapsing: one map ----

  datatype Gathered = Enums(values: seq<Json>) | NotStrings | Panics

  /** The loop over the branches: it stops at the first branch that is not a non-empty string enum. */
  function Gather(branches: seq<Json>): Gathered {
    if branches == [] then Enums([])
    else
      var b := branches[0];
      if !b.Object? || "type" !in b.fields || b.fields["type"] != Str("string") then NotStrings
      else if "enum" !in b.fields then NotStrings
      else if !b.fields["enum"].Array? then Panics
      else if b.fields["enum"].items == [] then NotStrings
      else
        match Gather(branches[1..])
        case Enums(rest) => Enums(b.fields["enum"].items + rest)
        case NotStrings => NotStrings
        case Panics => Panics
  }

  /** The callback on one map; `None` is a panic. */
  function CollapseNode(fields: map<string, Json>): Option<map<string, Json>> {
    if "anyOf" !in fields then Some(fields)
    else if !fields["anyOf"].Array? then None
    else if fields["anyOf"].items == [] then Some(fields)
    else
      match Gather(fields["anyOf"].items)
      case NotStrings => Some(fields)
      case Panics => None
      case Enums(values) => Some(fields["type" := Str("string")]["enum" := Array(values)] - {"anyOf"})
  }

  /** The branch loop, as the code runs it. */
  method GatherLoop(branches: seq<Json>) returns (g: Gathered)
    ensures g == Gather(branches)
  {
    var enums: seq<Json> := [];
    for i := 0 to |branches|
      invariant Gather(branches) == match Gather(branches[i..])
                                    case Enums(rest) => Enums(enums + rest)
                                    case NotStrings => NotStrings
                                    case Panics => Panics
    {
      assert branches[i..][1..] == branches[i + 1..];
      var b := branches[i];
      if !b.Object? || "type" !in b.fields || b.fields["type"] != Str("string") {
        return NotStrings;
      }
      if "enum" !in b.fields {
        return NotStrings;
      }
      if !b.fields["enum"].Array? {
        return Panics;
      }
      if b.fields["enum"].items == [] {
        return NotStrings;
      }
      GatherAssociates(enums, b.fields["enum"].items, Gather(branches[i + 1..]));
      enums := enums + b.fields["enum"].items;
    }
    assert enums + [] == enums;
    return Enums(enums);
  }

  lemma GatherAssociates(a: seq<Json>, b: seq<Json>, rest: Gathered)
    ensures rest.Enums? ==> a + (b + rest.values) == (a + b) + rest.values
  {
  }

  method CollapseCallback(fields: map<string, Json>) returns (out: Option<map<string, Json>>)
    ensures out == CollapseNode(fields)
  {
    if "anyOf" !in fields {
      return Some(fields);
    }
    if !fields["anyOf"].Array? {
      return None;
    }
    if fields["anyOf"].items == [] {
      return Some(fields);
    }
    var gathered := GatherLoop(fields["anyOf"].items);
    match gathered
    case NotStrings => return Some(fields);
    case Panics => return None;
    case Enums(values) =>
      var node := fields["type" := Str("string")];
      node := node["enum" := Array(values)];
      node := node - {"anyOf"};
      return Some(node);
  }

  // ---- A pass over a tree ----

  datatype Edit = RewriteRef(from: string, to: string) | CollapseEnums

  function NodeEdit(e: Edit): Callback {
    match e
    case RewriteRef(from, to) => fields => Some(RewriteNode(fields, from, to))
    case CollapseEnums => CollapseNode
  }

  method RunCallback(e: Edit, fields: map<string, Json>) returns (out: Option<map<string, Json>>)
    ensures out == NodeEdit(e)(fields)
  {
    match e
    case RewriteRef(from, to) =>
      var rewritten := RewriteCallback(fields, from, to);
      out := Some(rewritten);
    case CollapseEnums =>
      out := CollapseCallback(fields);
  }

  /** `Iterate` with an editing callback: the children in the order of their keys, each put back in place, then
      the callback on the map itself. */
  method IterateEditing(e: Edit, j: Json) returns (r: Option<Json>)
    ensures r == BottomUp(NodeEdit(e), j)
    decreases j, 1
  {
    match j
    case Array(items) =>
      var edited := EditItems(e, j);
      return if edited.None? then None else Some(Array(edited.value));
    case Object(fields) =>
      var edited := EditFields(e, j);
      if edited.None? {
        return None;
      }
      var node := RunCallback(e, edited.value);
      return if node.None? then None else Some(Object(node.value));
    case _ =>
      return Some(j);
  }

  method EditItems(e: Edit, j: Json) returns (r: Option<seq<Json>>)
    requires j.Array?
    ensures r.None? <==> exists i :: 0 <= i < |j.items| && BottomUp(NodeEdit(e), j.items[i]).None?
    ensures r.Some? ==> r.value == BottomItems(NodeEdit(e), j)
    decreases j, 0
  {
    var items := j.items;
    for i := 0 to |items|
      invariant |items| == |j.items|
      invariant forall k :: 0 <= k < i ==> BottomUp(NodeEdit(e), j.items[k]) == Some(items[k])
      invariant forall k :: i <= k < |items| ==> items[k] == j.items[k]
    {
      var edited := IterateEditing(e, j.items[i]);
      if edited.None? {
        return None;
      }
      items := items[i := edited.value];
    }
    assert items == BottomItems(NodeEdit(e), j);
    return Some(items);
  }

  /** The fields under the first keys are rewritten; the keys are those of the original. */
  ghost predicate EditedSoFar(cb: Callback, original: map<string, Json>, fields: map<string, Json>, done: seq<string>) {
    && fields.Keys == original.Keys
    && forall k :: k in done ==> k in original && BottomUp(cb, original[k]) == Some(fields[k])
  }

  lemma EditOneMore(cb: Callback, original: map<string, Json>, fields: map<string, Json>, done: seq<string>, k: string,
      value: Json)
    requires EditedSoFar(cb, original, fields, done) && k in original && BottomUp(cb, original[k]) == Some(value)
    ensures EditedSoFar(cb, original, fields[k := value], done + [k])
  {
    var fields' := fields[k := value];
    assert fields'.Keys == fields.Keys;
    forall x | x in done + [k]
      ensures x in original && BottomUp(cb, original[x]) == Some(fields'[x])
    {
      assert x == k || x in done;
    }
  }

  lemma EditedAll(cb: Callback, j: Json, fields: map<string, Json>, keys: seq<string>)
    requires j.Object? && EditedSoFar(cb, j.fields, fields, keys) && forall k :: k in j.fields ==> k in keys
    ensures forall k :: k in j.fields ==> BottomUp(cb, j.fields[k]).Some?
    ensures fields == BottomFields(cb, j)
  {
    assert forall k :: k in j.fields ==> k in keys && BottomUp(cb, j.fields[k]) == Some(fields[k]);
  }

  lemma KeysMembers(fields: map<string, Json>)
    ensures forall k :: k in SortedKeys(fields) <==> k in fields
  {
    forall k
      ensures k in SortedKeys(fields) <==> k in fields
    {
      ChildSegsExact(Object(fields), k);
    }
  }

  method EditFields(e: Edit, j: Json) returns (r: Option<map<string, Json>>)
    requires j.Object?
    ensures r.None? <==> exists k :: k in j.fields && BottomUp(NodeEdit(e), j.fields[k]).None?
    ensures r.Some? ==> r.value == BottomFields(NodeEdit(e), j)
    decreases j, 0
  {
    var fields := j.fields;
    var keys := Keys(j.fields);
    ghost var cb := NodeEdit(e);
    KeysMembers(j.fields);
    for i := 0 to |keys|
      invariant EditedSoFar(cb, j.fields, fields, keys[..i])
    {
      var k := keys[i];
      var edited := IterateEditing(e, j.fields[k]);
      if edited.None? {
        return None;
      }
      EditOneMore(cb, j.fields, fields, keys[..i], k, edited.value);
      OneMore(keys, i);
      fields := fields[k := edited.value];
    }
    assert keys[..|keys|] == keys;
    EditedAll(cb, j, fields, keys);
    return Some(fields);
  }
}

/** Collapsing `anyOf` unions of string enums into one string enum: a normal form in one bottom-up
    pass, with the same accepted values. */
module Collapse {
  import opened Text
  import opened Document
  import opened References
  import opened Iteration
  import opened Editing
  import opened Passes

  // ---- The pass: children before parents ----

  function Collapsed(j: Json): Option<Json> {
    BottomUp(CollapseNode, j)
  }

  /** The collapsing callback, run at every map in the order of `Iterate`, collapses the whole tree, and panics
      exactly when that does. */
  lemma CollapseVisits(j: Json)
    ensures EditAll(NodeEdit(CollapseEnums), j, Paths(j)) == Collapsed(j)
  {
    VisitingOrder(NodeEdit(CollapseEnums), j);
  }

  function CollapsedFields(j: Json): (m: map<string, Json>)
    requires j.Object? && forall k :: k in j.fields ==> Collapsed(j.fields[k]).Some?
    ensures m.Keys == j.fields.Keys
    ensures forall k :: k in m ==> m[k] == Collapsed(j.fields[k]).value
  {
    assert forall k :: k in j.fields ==> Collapsed(j.fields[k]).Some?;
    BottomFields(CollapseNode, j)
  }

  function CollapsedItems(j: Json): (s: seq<Json>)
    requires j.Array? && forall i :: 0 <= i < |j.items| ==> Collapsed(j.items[i]).Some?
    ensures |s| == |j.items|
    ensures forall i :: 0 <= i < |s| ==> s[i] == Collapsed(j.items[i]).value
  {
    assert forall i :: 0 <= i < |j.items| ==> Collapsed(j.items[i]).Some?;
    BottomItems(CollapseNode, j)
  }

  // ---- The document ----

  /** The document after the pass, which looks at the components alone. */
  function CollapsedDoc(doc: Doc): Option<Doc> {
    var components := Collapsed(Object(doc.components));
    if components.Some? && components.value.Object? then Some(doc.(components := components.value.fields)) else None
  }

  /** `transformCollapseStringEnumAnyOf`; `false` is a panic. */
  method CollapseStringEnums(schema: SchemaFile) returns (ok: bool)
    modifies schema
    ensures ok <==> Collapsed(Object(old(schema.doc).components)).Some?
    ensures ok ==> CollapsedDoc(old(schema.doc)) == Some(schema.doc)
    ensures !ok ==> schema.doc == old(schema.doc)
  {
    var components := IterateEditing(CollapseEnums, Object(schema.doc.components));
    if components.None? {
      return false;
    }
    schema.doc := schema.doc.(components := components.value.fields);
    return true;
  }

  // ---- Normal form ----

  /** A non-empty `anyOf` made only of non-empty string enums. */
  predicate Collapsible(fields: map<string, Json>) {
    && "anyOf" in fields && fields["anyOf"].Array? && fields["anyOf"].items != []
    && forall i :: 0 <= i < |fields["anyOf"].items| ==> StringEnum(fields["anyOf"].items[i])
  }

  predicate StringEnum(b: Json) {
    && b.Object? && "type" in b.fields && b.fields["type"] == Str("string")
    && "enum" in b.fields && b.fields["enum"].Array? && b.fields["enum"].items != []
  }

  ghost predicate Normal(j: Json)
    decreases j
  {
    match j
    case Object(fields) => !Collapsible(fields) && forall k :: k in fields ==> Normal(fields[k])
    case Array(items) => forall i :: 0 <= i < |items| ==> Normal(items[i])
    case _ => true
  }

  lemma {:induction false} GatherExact(branches: seq<Json>)
    ensures Gather(branches).Enums? <==> forall i :: 0 <= i < |branches| ==> StringEnum(branches[i])
  {
    if branches != [] {
      GatherExact(branches[1..]);
      assert forall i :: 1 <= i < |branches| ==> branches[i] == branches[1..][i - 1];
      if forall i :: 0 <= i < |branches| ==> StringEnum(branches[i]) {
        forall i | 0 <= i < |branches[1..]|
          ensures StringEnum(branches[1..][i])
        {
          assert branches[1..][i] == branches[i + 1];
        }
      }
    }
  }

  /** A branch that says it is a string enum but whose `enum` is no list. */
  predicate BadEnum(b: Json) {
    && b.Object? && "type" in b.fields && b.fields["type"] == Str("string")
    && "enum" in b.fields && !b.fields["enum"].Array?
  }

  lemma {:induction false} GatherPanics(branches: seq<Json>)
    ensures Gather(branches).Panics? <==>
            exists i :: 0 <= i < |branches| && BadEnum(branches[i]) &&
                        forall j :: 0 <= j < i ==> StringEnum(branches[j])
  {
    if branches != [] {
      var rest := branches[1..];
      GatherPanics(rest);
      if i :| 0 <= i < |rest| && BadEnum(rest[i]) && forall j :: 0 <= j < i ==> StringEnum(rest[j]) {
        assert BadEnum(branches[i + 1]);
        assert forall j :: 0 < j < i + 1 ==> branches[j] == rest[j - 1];
      }
      if i :| 0 <= i < |branches| && BadEnum(branches[i]) && forall j :: 0 <= j < i ==> StringEnum(branches[j]) {
        if i > 0 {
          assert BadEnum(rest[i - 1]);
          assert forall j :: 0 <= j < i - 1 ==> rest[j] == branches[j + 1];
        }
      }
    }
  }

  /** The values are those of the branches, branch after branch. */
  lemma {:induction false} GatherInOrder(a: seq<Json>, b: Json)
    requires Gather(a).Enums? && StringEnum(b)
    ensures Gather(a + [b]) == Enums(Gather(a).values + b.fields["enum"].items)
  {
    if a == [] {
      assert a + [b] == [b] && [b][1..] == [];
      assert b.fields["enum"].items + [] == b.fields["enum"].items == [] + b.fields["enum"].items;
    } else {
      assert (a + [b])[0] == a[0] && (a + [b])[1..] == a[1..] + [b];
      GatherInOrder(a[1..], b);
      assert a[0].fields["enum"].items + (Gather(a[1..]).values + b.fields["enum"].items) ==
             (a[0].fields["enum"].items + Gather(a[1..]).values) + b.fields["enum"].items;
    }
  }

  /** What the callback does with one map: a collapsible union becomes one string enum with the values of its branches
      and keeps its other keys; it panics on an `anyOf` that is no list, or on a branch that follows string enums and
      whose own enum is no list; every other map stays as it is. */
  lemma NodeCollapse(fields: map<string, Json>)
    ensures CollapseNode(fields).None? <==>
            "anyOf" in fields && (fields["anyOf"].Array? ==> Gather(fields["anyOf"].items).Panics?)
    ensures Collapsible(fields) ==>
              && CollapseNode(fields).Some? && Gather(fields["anyOf"].items).Enums?
              && var out := CollapseNode(fields).value;
              && out.Keys == fields.Keys - {"anyOf"} + {"type", "enum"} && out["type"] == Str("string")
              && out["enum"] == Array(Gather(fields["anyOf"].items).values)
              && forall k :: k in fields && k !in {"anyOf", "type", "enum"} ==> out[k] == fields[k]
    ensures CollapseNode(fields).Some? && !Collapsible(fields) ==> CollapseNode(fields) == Some(fields)
  {
    if "anyOf" in fields && fields["anyOf"].Array? {
      GatherExact(fields["anyOf"].items);
      assert Gather([]).Enums?;
    }
  }

  lemma {:induction false} GatheredNormal(branches: seq<Json>)
    requires Gather(branches).Enums? && forall i :: 0 <= i < |branches| ==> Normal(branches[i])
    ensures forall i :: 0 <= i < |Gather(branches).values| ==> Normal(Gather(branches).values[i])
  {
    if branches != [] {
      assert Normal(branches[0]);
      assert Normal(branches[0].fields["enum"]);
      forall i | 0 <= i < |branches[1..]|
        ensures Normal(branches[1..][i])
      {
        assert branches[1..][i] == branches[i + 1];
      }
      GatheredNormal(branches[1..]);
    }
  }

  /** A node whose children are normal is normal after the callback. */
  lemma NodeNormal(fields: map<string, Json>)
    requires CollapseNode(fields).Some? && forall k :: k in fields ==> Normal(fields[k])
    ensures Normal(Object(CollapseNode(fields).value))
  {
    var out := CollapseNode(fields).value;
    if "anyOf" in fields {
      GatherExact(fields["anyOf"].items);
      if Collapsible(fields) {
        var branches := fields["anyOf"].items;
        assert Normal(fields["anyOf"]);
        GatheredNormal(branches);
        var enum := Array(Gather(branches).values);
        assert Normal(enum);
        assert out["enum"] == enum && "anyOf" !in out;
        forall k | k in out
          ensures Normal(out[k])
        {
        }
      }
    }
  }

  /** One pass reaches the normal form. */
  lemma {:induction false} PassNormalises(j: Json)
    requires Collapsed(j).Some?
    ensures Normal(Collapsed(j).value)
    decreases j
  {
    match j
    case Object(fields) =>
      forall k | k in fields
        ensures Normal(Collapsed(fields[k]).value)
      {
        PassNormalises(fields[k]);
      }
      NodeNormal(CollapsedFields(j));
    case Array(items) =>
      forall i | 0 <= i < |items|
        ensures Normal(Collapsed(items[i]).value)
      {
        PassNormalises(items[i]);
      }
    case _ =>
  }

  // ---- A second pass changes nothing ----

  lemma NodeStable(fields: map<string, Json>)
    requires CollapseNode(fields).Some?
    ensures CollapseNode(CollapseNode(fields).value) == CollapseNode(fields)
  {
  }

  lemma {:induction false} GatheredStable(branches: seq<Json>)
    requires Gather(branches).Enums? && forall i :: 0 <= i < |branches| ==> Collapsed(branches[i]) == Some(branches[i])
    ensures forall i :: 0 <= i < |Gather(branches).values| ==>
              Collapsed(Gather(branches).values[i]) == Some(Gather(branches).values[i])
  {
    if branches != [] {
      assert Collapsed(branches[0]) == Some(branches[0]);
      EnumStable(branches[0].fields);
      forall i | 0 <= i < |branches[1..]|
        ensures Collapsed(branches[1..][i]) == Some(branches[1..][i])
      {
        assert branches[1..][i] == branches[i + 1];
      }
      GatheredStable(branches[1..]);
    }
  }

  /** A string enum that a pass leaves alone has values that a pass leaves alone. */
  lemma EnumStable(fields: map<string, Json>)
    requires StringEnum(Object(fields)) && Collapsed(Object(fields)) == Some(Object(fields))
    ensures var values := fields["enum"].items;
            forall i :: 0 <= i < |values| ==> Collapsed(values[i]) == Some(values[i])
  {
    var inner := CollapsedFields(Object(fields));
    var values := fields["enum"].items;
    assert Collapsed(fields["enum"]).Some?;
    var out := CollapseNode(inner).value;
    assert out == fields;
    assert inner.Keys == fields.Keys;
    assert out == inner;
    assert Collapsed(fields["enum"]).value == fields["enum"];
    var kept := CollapsedItems(fields["enum"]);
    assert Array(kept) == fields["enum"];
    forall i | 0 <= i < |values|
      ensures Collapsed(values[i]) == Some(values[i])
    {
      assert kept[i] == values[i];
    }
  }

  lemma NodeThenStable(fields: map<string, Json>)
    requires CollapseNode(fields).Some? && forall k :: k in fields ==> Collapsed(fields[k]) == Some(fields[k])
    ensures Collapsed(Object(CollapseNode(fields).value)) == Some(Object(CollapseNode(fields).value))
  {
    var out := CollapseNode(fields).value;
    NodeStable(fields);
    if out != fields {
      var branches := fields["anyOf"].items;
      assert Collapsed(fields["anyOf"]) == Some(fields["anyOf"]);
      ArrayStable(branches);
      GatheredStable(branches);
      StableArray(Gather(branches).values);
      assert Collapsed(out["enum"]) == Some(out["enum"]) && Collapsed(out["type"]) == Some(out["type"]);
    }
    forall k | k in out
      ensures Collapsed(out[k]) == Some(out[k])
    {
    }
    StableFields(out);
  }

  lemma StableFields(fields: map<string, Json>)
    requires CollapseNode(fields) == Some(fields) && forall k :: k in fields ==> Collapsed(fields[k]) == Some(fields[k])
    ensures Collapsed(Object(fields)) == Some(Object(fields))
  {
    assert CollapsedFields(Object(fields)) == fields;
  }

  lemma ArrayStable(items: seq<Json>)
    requires Collapsed(Array(items)) == Some(Array(items))
    ensures forall i :: 0 <= i < |items| ==> Collapsed(items[i]) == Some(items[i])
  {
    var kept := CollapsedItems(Array(items));
    forall i | 0 <= i < |items|
      ensures Collapsed(items[i]) == Some(items[i])
    {
      assert kept[i] == items[i];
    }
  }

  lemma StableArray(items: seq<Json>)
    requires forall i :: 0 <= i < |items| ==> Collapsed(items[i]) == Some(items[i])
    ensures Collapsed(Array(items)) == Some(Array(items))
  {
    assert CollapsedItems(Array(items)) == items;
  }

  /** The pass is idempotent: it neither changes its own result nor panics on it. */
  lemma {:induction false} PassIdempotent(j: Json)
    requires Collapsed(j).Some?
    ensures Collapsed(Collapsed(j).value) == Collapsed(j)
    decreases j
  {
    match j
    case Object(fields) =>
      var inner := CollapsedFields(j);
      forall k | k in fields
        ensures Collapsed(inner[k]) == Some(inner[k])
      {
        PassIdempotent(fields[k]);
      }
      NodeThenStable(inner);
    case Array(items) =>
      forall i | 0 <= i < |items|
        ensures Collapsed(Collapsed(items[i]).value) == Collapsed(items[i])
      {
        PassIdempotent(items[i]);
      }
      StableArray(CollapsedItems(j));
    case _ =>
  }
}

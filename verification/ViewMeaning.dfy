/** What the view of a schema says, over its whole tree of `allOf` members: under every name the last definition,
    in document order, wins. */
module ViewMeaning {
  import opened Collections
  import opened Oas
  import opened SchemaView

  // ---- Every definition, in document order ----

  /** The schema's own properties, then those of each member, and of their members. */
  function Declared(root: Node, ref: SchemaRef): seq<Property>
    requires AllOfAcyclic(root)
    decreases RankOf(root)(ref), 1, 0
  {
    match Resolve(root, ref)
    case Err(_) => []
    case Ok(resolved) => OwnProperties(resolved) + DeclaredFrom(root, ref, resolved, 0)
  }

  function DeclaredFrom(root: Node, ref: SchemaRef, resolved: SchemaRef, i: nat): seq<Property>
    requires AllOfAcyclic(root) && Resolve(root, ref) == Ok(resolved) && i <= |AllOf(resolved)|
    decreases RankOf(root)(ref), 0, |AllOf(resolved)| - i
  {
    if i == |AllOf(resolved)| then []
    else
      RankDrops(root, ref, resolved, i);
      Declared(root, AllOf(resolved)[i]) + DeclaredFrom(root, ref, resolved, i + 1)
  }

  /** No schema names a property twice in its own list, as distinct mapping keys guarantee. */
  ghost predicate NamesOnce(root: Node) {
    forall ref :: OwnNamesOnce(root, ref)
  }

  ghost predicate OwnNamesOnce(root: Node, ref: SchemaRef) {
    Resolve(root, ref).Ok? ==> UniqueNames(OwnProperties(Resolve(root, ref).value))
  }

  // ---- Lists of properties ----

  lemma {:induction false} LastNamedConcat(a: seq<Property>, b: seq<Property>, name: string)
    ensures LastNamed(a + b, name) == if LastNamed(b, name).Some? then LastNamed(b, name) else LastNamed(a, name)
    decreases |a|
  {
    if a == [] {
      assert a + b == b;
    } else {
      assert (a + b)[1..] == a[1..] + b && (a + b)[0] == a[0];
      LastNamedConcat(a[1..], b, name);
    }
  }

  lemma {:induction false} NamedIn(props: seq<Property>, name: string)
    ensures Named(props, name).Some? <==> name in Names(props)
    ensures LastNamed(props, name).Some? <==> name in Names(props)
    decreases |props|
  {
    if props != [] {
      NamedIn(props[1..], name);
      assert forall i :: 1 <= i < |props| ==> props[i] == props[1..][i - 1];
      if name in Names(props[1..]) {
        var i :| 0 <= i < |props[1..]| && props[1..][i].name == name;
        assert props[i + 1].name == name;
      }
    }
  }

  /** With unique names the first definition is the last. */
  lemma {:induction false} FirstIsLast(props: seq<Property>, name: string)
    requires UniqueNames(props)
    ensures Named(props, name) == LastNamed(props, name)
    decreases |props|
  {
    if props != [] {
      var rest := props[1..];
      assert forall i :: 0 <= i < |rest| ==> rest[i] == props[i + 1];
      FirstIsLast(rest, name);
      if props[0].name == name {
        NamedIn(rest, name);
        assert name !in Names(rest);
      }
    }
  }

  lemma {:induction false} MergeOneNames(existing: seq<Property>, prop: Property)
    requires UniqueNames(existing)
    ensures UniqueNames(MergeOne(existing, prop)) && Names(MergeOne(existing, prop)) == Names(existing) + {prop.name}
    decreases |existing|
  {
    if existing != [] {
      var rest := existing[1..];
      assert forall i :: 0 <= i < |rest| ==> rest[i] == existing[i + 1];
      HeadAndRest(existing);
      if existing[0].name == prop.name {
        HeadAndRest([prop] + rest);
        assert ([prop] + rest)[1..] == rest;
        ConsUnique(prop, rest);
      } else {
        MergeOneNames(rest, prop);
        var merged := MergeOne(rest, prop);
        HeadAndRest([existing[0]] + merged);
        assert ([existing[0]] + merged)[1..] == merged;
        ConsUnique(existing[0], merged);
      }
    } else {
      assert [prop][0].name in Names([prop]);
    }
  }

  lemma HeadAndRest(props: seq<Property>)
    requires props != []
    ensures Names(props) == {props[0].name} + Names(props[1..])
    ensures UniqueNames(props) ==> props[0].name !in Names(props[1..])
  {
    assert forall i :: 0 <= i < |props[1..]| ==> props[1..][i] == props[i + 1];
    forall n | n in Names(props)
      ensures n in {props[0].name} + Names(props[1..])
    {
      var i :| 0 <= i < |props| && props[i].name == n;
      if i > 0 {
        assert props[1..][i - 1].name == n;
      }
    }
    forall n | n in Names(props[1..])
      ensures n in Names(props)
    {
      var i :| 0 <= i < |props[1..]| && props[1..][i].name == n;
      assert props[i + 1].name == n;
    }
  }

  lemma ConsUnique(prop: Property, rest: seq<Property>)
    requires UniqueNames(rest) && prop.name !in Names(rest)
    ensures UniqueNames([prop] + rest)
  {
    var all := [prop] + rest;
    forall i, j | 0 <= i < j < |all|
      ensures all[i].name != all[j].name
    {
      assert all[j] == rest[j - 1];
      if i > 0 {
        assert all[i] == rest[i - 1];
      }
    }
  }

  lemma {:induction false} MergeUnique(existing: seq<Property>, added: seq<Property>)
    requires UniqueNames(existing)
    ensures UniqueNames(Merge(existing, added))
    decreases |added|
  {
    if added != [] {
      MergeOneNames(existing, added[0]);
      MergeUnique(MergeOne(existing, added[0]), added[1..]);
    }
  }

  // ---- Last wins ----

  /** A list of properties that says, under every name, what the last of `all` says. */
  ghost predicate Summarises(props: seq<Property>, all: seq<Property>) {
    UniqueNames(props) && forall name :: Named(props, name) == LastNamed(all, name)
  }

  lemma OwnSummarises(props: seq<Property>)
    requires UniqueNames(props)
    ensures Summarises(props, props)
  {
    forall name
      ensures Named(props, name) == LastNamed(props, name)
    {
      FirstIsLast(props, name);
    }
  }

  lemma MergeSummarises(props: seq<Property>, all: seq<Property>, added: seq<Property>, more: seq<Property>)
    requires Summarises(props, all) && Summarises(added, more)
    ensures Summarises(Merge(props, added), all + more)
  {
    MergeUnique(props, added);
    forall name
      ensures Named(Merge(props, added), name) == LastNamed(all + more, name)
    {
      MergeLastWins(props, added, name);
      FirstIsLast(added, name);
      LastNamedConcat(all, more, name);
    }
  }

  /** In a view that is supported, every name has the last of its definitions over the whole tree of `allOf`
      members, and no name occurs twice. */
  lemma {:induction false} LastDefinitionWins(root: Node, ref: SchemaRef)
    requires AllOfAcyclic(root) && NamesOnce(root) && ViewOf(root, ref).Ok? && ViewOf(root, ref).value.unsupported == ""
    ensures Summarises(ViewOf(root, ref).value.properties, Declared(root, ref))
    decreases RankOf(root)(ref), 1, 0
  {
    var resolved := Resolve(root, ref).value;
    var own := OwnProperties(resolved);
    assert OwnNamesOnce(root, ref);
    OwnSummarises(own);
    SupportedMembers(root, ref, resolved);
    MembersSummarise(root, ref, resolved, Head(ref, resolved).(properties := own), 0, own);
  }

  /** A supported view had supported members. */
  lemma SupportedMembers(root: Node, ref: SchemaRef, resolved: SchemaRef)
    requires AllOfAcyclic(root) && Resolve(root, ref) == Ok(resolved)
    requires ViewOf(root, ref).Ok? && ViewOf(root, ref).value.unsupported == ""
    ensures var head := Head(ref, resolved).(properties := OwnProperties(resolved));
            var v := WithMembers(root, ref, resolved, head, 0);
            && v.Ok? && v.value.unsupported == "" && v.value.properties == ViewOf(root, ref).value.properties
  {
    var head := Head(ref, resolved);
    var v := WithMembers(root, ref, resolved, head.(properties := OwnProperties(resolved)), 0);
    ViewUnfolds(root, ref, resolved, head, v);
    if v.Ok? {
      RestKept(v.value, resolved);
    }
  }

  lemma ViewUnfolds(root: Node, ref: SchemaRef, resolved: SchemaRef, head: View, v: Result<View>)
    requires AllOfAcyclic(root) && Resolve(root, ref) == Ok(resolved) && head == Head(ref, resolved)
    requires v == WithMembers(root, ref, resolved, head.(properties := OwnProperties(resolved)), 0)
    ensures MappingValue(resolved.node, "not").Some? ==> ViewOf(root, ref) == Ok(head.(unsupported := "not"))
    ensures MappingValue(resolved.node, "not").None? && v.Ok? ==>
              ViewOf(root, ref) == Ok(WithItems(WithCombinators(v.value, resolved), resolved))
    ensures MappingValue(resolved.node, "not").None? && v.Err? ==> ViewOf(root, ref).Err?
  {
  }

  lemma RestKept(v: View, resolved: SchemaRef)
    ensures var w := WithItems(WithCombinators(v, resolved), resolved);
            w.properties == v.properties && (w.unsupported == "" ==> v.unsupported == "")
  {
  }

  lemma {:induction false} MembersSummarise(root: Node, ref: SchemaRef, resolved: SchemaRef, v: View, i: nat,
      all: seq<Property>)
    requires AllOfAcyclic(root) && NamesOnce(root) && Resolve(root, ref) == Ok(resolved) && i <= |AllOf(resolved)|
    requires WithMembers(root, ref, resolved, v, i).Ok? &&
               WithMembers(root, ref, resolved, v, i).value.unsupported == ""
    requires Summarises(v.properties, all)
    ensures Summarises(WithMembers(root, ref, resolved, v, i).value.properties,
              all + DeclaredFrom(root, ref, resolved, i))
    decreases RankOf(root)(ref), 0, |AllOf(resolved)| - i
  {
    if i == |AllOf(resolved)| {
      assert all + [] == all;
    } else {
      var member := AllOf(resolved)[i];
      RankDrops(root, ref, resolved, i);
      MemberStep(root, ref, resolved, v, i);
      var sub := ViewOf(root, member).value;
      LastDefinitionWins(root, member);
      var more, rest := Declared(root, member), DeclaredFrom(root, ref, resolved, i + 1);
      MergeSummarises(v.properties, all, sub.properties, more);
      MembersSummarise(root, ref, resolved, v.(properties := Merge(v.properties, sub.properties)), i + 1, all + more);
      ConcatAssociates(all, more, rest);
    }
  }

  /** One turn of the member loop that ends well. */
  lemma MemberStep(root: Node, ref: SchemaRef, resolved: SchemaRef, v: View, i: nat)
    requires AllOfAcyclic(root) && Resolve(root, ref) == Ok(resolved) && i < |AllOf(resolved)|
    requires WithMembers(root, ref, resolved, v, i).Ok? &&
               WithMembers(root, ref, resolved, v, i).value.unsupported == ""
    ensures var sub := ViewOf(root, AllOf(resolved)[i]);
            && sub.Ok? && sub.value.unsupported == ""
            && WithMembers(root, ref, resolved, v, i) ==
               WithMembers(root, ref, resolved, v.(properties := Merge(v.properties, sub.value.properties)), i + 1)
  {
    RankDrops(root, ref, resolved, i);
    var message := "allOf member with ";
    assert message[0] == 'a';
    assert forall tail: string :: message + tail != "";
  }

  // ---- What a view holds depends on where its `$ref` leads ----

  /** The parts of a view that come from the schema a ref resolves to. */
  ghost predicate SameContent(a: View, b: View) {
    a.properties == b.properties && a.oneOf == b.oneOf && a.items == b.items && a.unsupported == b.unsupported
  }

  lemma {:induction false} SameMembers(root: Node, a: SchemaRef, b: SchemaRef, resolved: SchemaRef, va: View, vb: View,
                                       i: nat)
    requires AllOfAcyclic(root) && Resolve(root, a) == Ok(resolved) && Resolve(root, b) == Ok(resolved)
    requires i <= |AllOf(resolved)| && SameContent(va, vb)
    ensures var ra, rb := WithMembers(root, a, resolved, va, i), WithMembers(root, b, resolved, vb, i);
            ra.Ok? == rb.Ok? && (ra.Ok? ==> SameContent(ra.value, rb.value))
    decreases |AllOf(resolved)| - i
  {
    if i < |AllOf(resolved)| {
      RankDrops(root, a, resolved, i);
      RankDrops(root, b, resolved, i);
      var sub := ViewOf(root, AllOf(resolved)[i]);
      if sub.Ok? && Mergeable(sub.value) {
        var pa, pb := Merge(va.properties, sub.value.properties), Merge(vb.properties, sub.value.properties);
        SameMembers(root, a, b, resolved, va.(properties := pa), vb.(properties := pb), i + 1);
      }
    }
  }

  lemma ViewTarget(root: Node, ref: SchemaRef)
    requires AllOfAcyclic(root) && ViewOf(root, ref).Ok?
    ensures Resolve(root, ref) == Ok(SchemaRef(ViewOf(root, ref).value.node, ViewOf(root, ref).value.pointer))
  {
    var resolved := Resolve(root, ref).value;
    ViewAt(root, ref, resolved);
  }

  lemma ViewAt(root: Node, ref: SchemaRef, resolved: SchemaRef)
    requires AllOfAcyclic(root) && ViewOf(root, ref).Ok? && Resolve(root, ref) == Ok(resolved)
    ensures ViewOf(root, ref).value.node == resolved.node && ViewOf(root, ref).value.pointer == resolved.pointer
  {
    var head := Head(ref, resolved);
    var start := head.(properties := OwnProperties(resolved));
    var v := WithMembers(root, ref, resolved, start, 0);
    ViewUnfolds(root, ref, resolved, head, v);
    if MappingValue(resolved.node, "not").None? {
      MembersKeep(root, ref, resolved, start, 0);
      RestKeepsPlace(v.value, resolved);
    }
  }

  lemma RestKeepsPlace(v: View, resolved: SchemaRef)
    ensures var w := WithItems(WithCombinators(v, resolved), resolved); w.node == v.node && w.pointer == v.pointer
  {
  }

  lemma {:induction false} MembersKeep(root: Node, ref: SchemaRef, resolved: SchemaRef, v: View, i: nat)
    requires AllOfAcyclic(root) && Resolve(root, ref) == Ok(resolved) && i <= |AllOf(resolved)|
    requires WithMembers(root, ref, resolved, v, i).Ok?
    ensures var w := WithMembers(root, ref, resolved, v, i).value; w.pointer == v.pointer && w.node == v.node
    decreases |AllOf(resolved)| - i
  {
    if i < |AllOf(resolved)| {
      RankDrops(root, ref, resolved, i);
      var sub := ViewOf(root, AllOf(resolved)[i]);
      if sub.Ok? && Mergeable(sub.value) {
        MembersKeep(root, ref, resolved, v.(properties := Merge(v.properties, sub.value.properties)), i + 1);
      }
    }
  }

  /** Views of the same target have the same content. */
  lemma SameTarget(root: Node, a: SchemaRef, b: SchemaRef)
    requires AllOfAcyclic(root) && ViewOf(root, a).Ok? && ViewOf(root, b).Ok?
    requires ViewOf(root, a).value.pointer == ViewOf(root, b).value.pointer
    requires ViewOf(root, a).value.node == ViewOf(root, b).value.node
    ensures SameContent(ViewOf(root, a).value, ViewOf(root, b).value)
  {
    ViewTarget(root, a);
    ViewTarget(root, b);
    var resolved := Resolve(root, a).value;
    var ha, hb := Head(a, resolved), Head(b, resolved);
    var sa, sb := ha.(properties := OwnProperties(resolved)), hb.(properties := OwnProperties(resolved));
    ViewUnfolds(root, a, resolved, ha, WithMembers(root, a, resolved, sa, 0));
    ViewUnfolds(root, b, resolved, hb, WithMembers(root, b, resolved, sb, 0));
    SameMembers(root, a, b, resolved, sa, sb, 0);
    if MappingValue(resolved.node, "not").None? {
      SameRest(WithMembers(root, a, resolved, sa, 0).value, WithMembers(root, b, resolved, sb, 0).value, resolved);
    }
  }

  lemma SameRest(va: View, vb: View, resolved: SchemaRef)
    requires SameContent(va, vb)
    ensures SameContent(WithItems(WithCombinators(va, resolved), resolved),
                        WithItems(WithCombinators(vb, resolved), resolved))
  {
    SameCombinators(va, vb, resolved);
    SameItems(WithCombinators(va, resolved), WithCombinators(vb, resolved), resolved);
  }

  lemma SameCombinators(va: View, vb: View, resolved: SchemaRef)
    requires SameContent(va, vb)
    ensures SameContent(WithCombinators(va, resolved), WithCombinators(vb, resolved))
  {
  }

  lemma SameItems(va: View, vb: View, resolved: SchemaRef)
    requires SameContent(va, vb)
    ensures SameContent(WithItems(va, resolved), WithItems(vb, resolved))
  {
  }
}

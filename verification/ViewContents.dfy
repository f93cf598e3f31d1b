/** What a view holds, read off the nodes: its flags, branches and items, which shapes are supported, and the order of
    its properties. */
module ViewContents {
  import opened Collections
  import opened Text
  import opened JsonPointer
  import opened Oas
  import opened SchemaView
  import opened ViewMeaning

  // ---- Readings of a node ----

  /** The keyword is the scalar `true`. */
  predicate Flag(node: Node, key: string) {
    MappingValue(node, key) == Some(Scalar("true"))
  }

  /** The text under the keyword; empty when it has none. */
  predicate HasText(node: Node, key: string, text: string) {
    match MappingValue(node, key)
    case Some(Scalar(value)) => text == value
    case _ => text == ""
  }

  function ElementsOf(node: Node, key: string): seq<Node> {
    match MappingValue(node, key)
    case Some(Sequence(items)) => items
    case _ => []
  }

  /** `refs` are the elements of the keyword, each with its pointer. */
  ghost predicate Lists(resolved: SchemaRef, key: string, refs: seq<SchemaRef>) {
    && |refs| == |ElementsOf(resolved.node, key)|
    && forall i :: 0 <= i < |refs| ==>
         refs[i] == SchemaRef(ElementsOf(resolved.node, key)[i], resolved.pointer + "/" + key + "/" + Decimal(i))
  }

  lemma ListsRefs(resolved: SchemaRef, key: string)
    ensures Lists(resolved, key, ListRefs(resolved, key))
  {
  }

  // ---- Flags, branches and items ----

  /** The place, flags and state of a view: of the target, and of the ref itself. */
  ghost predicate HeadHolds(v: View, ref: SchemaRef, resolved: SchemaRef) {
    && v.pointer == resolved.pointer && v.node == resolved.node
    && (v.deprecated <==> Flag(ref.node, "deprecated") || Flag(resolved.node, "deprecated"))
    && (v.readOnly <==> Flag(ref.node, "readOnly") || Flag(resolved.node, "readOnly"))
    && (if HasText(ref.node, "x-state", "") then HasText(resolved.node, "x-state", v.xState)
        else HasText(ref.node, "x-state", v.xState))
  }

  /** The branches of a view are those of `oneOf`, else those of `anyOf`; its items lie under `items`. */
  ghost predicate ShapeHolds(v: View, resolved: SchemaRef) {
    && (if ElementsOf(resolved.node, "oneOf") != [] then Lists(resolved, "oneOf", v.oneOf)
        else Lists(resolved, "anyOf", v.oneOf))
    && v.items == match MappingValue(resolved.node, "items")
                  case None => None
                  case Some(node) => Some(SchemaRef(node, resolved.pointer + "/items"))
  }

  lemma HeadIs(ref: SchemaRef, resolved: SchemaRef)
    ensures HeadHolds(Head(ref, resolved), ref, resolved)
  {
  }

  lemma BranchesAre(v: View, resolved: SchemaRef)
    requires v.oneOf == []
    ensures var branches := WithCombinators(v, resolved).oneOf;
            if ElementsOf(resolved.node, "oneOf") != [] then Lists(resolved, "oneOf", branches)
            else Lists(resolved, "anyOf", branches)
    ensures WithCombinators(v, resolved).items == v.items
  {
    ListsRefs(resolved, "oneOf");
    ListsRefs(resolved, "anyOf");
  }

  lemma ItemsAre(v: View, resolved: SchemaRef)
    requires v.items.None?
    ensures WithItems(v, resolved).oneOf == v.oneOf
    ensures WithItems(v, resolved).items == match MappingValue(resolved.node, "items")
                                            case None => None
                                            case Some(node) => Some(SchemaRef(node, resolved.pointer + "/items"))
  {
    assert resolved.pointer + "/" + "items" == resolved.pointer + "/items" by {
      assert "/" + "items" == "/items";
    }
  }

  lemma ShapeIs(v: View, resolved: SchemaRef)
    requires v.oneOf == [] && v.items.None?
    ensures ShapeHolds(WithItems(WithCombinators(v, resolved), resolved), resolved)
  {
    BranchesAre(v, resolved);
    ItemsAre(WithCombinators(v, resolved), resolved);
  }

  /** A view holds the flags of its ref and target, and, when there is no `not`, the branches and items of the
      target. */
  lemma ViewHolds(root: Node, ref: SchemaRef, resolved: SchemaRef, v: View)
    requires AllOfAcyclic(root) && Resolve(root, ref) == Ok(resolved) && ViewOf(root, ref) == Ok(v)
    ensures HeadHolds(v, ref, resolved)
    ensures MappingValue(resolved.node, "not").None? ==> ShapeHolds(v, resolved)
    ensures MappingValue(resolved.node, "not").Some? ==> v.properties == [] && v.oneOf == [] && v.items.None?
  {
    var head := Head(ref, resolved);
    var start := head.(properties := OwnProperties(resolved));
    var w := WithMembers(root, ref, resolved, start, 0);
    HeadIs(ref, resolved);
    ViewUnfolds(root, ref, resolved, head, w);
    if MappingValue(resolved.node, "not").None? {
      MembersOnly(root, ref, resolved, start, 0);
      ShapeIs(w.value, resolved);
      RestSameHead(w.value, resolved);
    }
  }

  /** The views differ in nothing but properties and shape. */
  ghost predicate SameHead(a: View, b: View) {
    a.pointer == b.pointer && a.node == b.node && a.deprecated == b.deprecated && a.readOnly == b.readOnly &&
    a.xState == b.xState
  }

  lemma RestSameHead(v: View, resolved: SchemaRef)
    ensures SameHead(WithItems(WithCombinators(v, resolved), resolved), v)
  {
  }

  lemma {:induction false} MembersOnly(root: Node, ref: SchemaRef, resolved: SchemaRef, v: View, i: nat)
    requires AllOfAcyclic(root) && Resolve(root, ref) == Ok(resolved) && i <= |AllOf(resolved)|
    requires WithMembers(root, ref, resolved, v, i).Ok?
    ensures var w := WithMembers(root, ref, resolved, v, i).value;
            SameHead(w, v) && w.oneOf == v.oneOf && w.items == v.items
    decreases |AllOf(resolved)| - i
  {
    if i < |AllOf(resolved)| {
      RankDrops(root, ref, resolved, i);
      var sub := ViewOf(root, AllOf(resolved)[i]);
      if sub.Ok? && Mergeable(sub.value) {
        MembersOnly(root, ref, resolved, v.(properties := Merge(v.properties, sub.value.properties)), i + 1);
      }
    }
  }

  // ---- Which schemas are supported ----

  lemma MembersAre(resolved: SchemaRef)
    requires MappingValue(resolved.node, "not").None?
    ensures Lists(resolved, "allOf", AllOf(resolved))
  {
    ListsRefs(resolved, "allOf");
  }

  /** No `not`, and no `anyOf` beside a non-empty `oneOf`. */
  predicate PlainShape(node: Node) {
    MappingValue(node, "not").None? && (MappingValue(node, "anyOf").Some? ==> ElementsOf(node, "oneOf") == [])
  }

  /** Neither branches nor items. */
  predicate PropertiesAlone(node: Node) {
    ElementsOf(node, "oneOf") == [] && ElementsOf(node, "anyOf") == [] && MappingValue(node, "items").None?
  }

  /** The schema and all the members beneath it can be walked, and the members carry properties alone. */
  ghost predicate Supported(root: Node, ref: SchemaRef)
    requires AllOfAcyclic(root)
    decreases RankOf(root)(ref)
  {
    && Resolve(root, ref).Ok?
    && var resolved := Resolve(root, ref).value;
    && PlainShape(resolved.node)
    && forall i :: 0 <= i < |AllOf(resolved)| ==> SupportedMember(root, ref, resolved, i)
  }

  ghost predicate SupportedMember(root: Node, ref: SchemaRef, resolved: SchemaRef, i: nat)
    requires AllOfAcyclic(root) && Resolve(root, ref) == Ok(resolved) && i < |AllOf(resolved)|
    decreases RankOf(root)(ref), 0
  {
    RankDrops(root, ref, resolved, i);
    var member := AllOf(resolved)[i];
    Supported(root, member) && PropertiesAlone(Resolve(root, member).value.node)
  }

  /** The member's view succeeded and carries properties alone. */
  ghost predicate Merges(root: Node, member: SchemaRef)
    requires AllOfAcyclic(root)
  {
    ViewOf(root, member).Ok? && Mergeable(ViewOf(root, member).value)
  }

  function Merged(v: View, sub: View): View {
    v.(properties := Merge(v.properties, sub.properties))
  }

  function Stopped(v: View, sub: View): View {
    v.(unsupported := "allOf member with " + FirstNonEmpty(sub.unsupported, "combinator or items"))
  }

  lemma MembersEnd(root: Node, ref: SchemaRef, resolved: SchemaRef, v: View)
    requires AllOfAcyclic(root) && Resolve(root, ref) == Ok(resolved)
    ensures WithMembers(root, ref, resolved, v, |AllOf(resolved)|) == Ok(v)
  {
  }

  lemma MembersTurn(root: Node, ref: SchemaRef, resolved: SchemaRef, v: View, i: nat, sub: Result<View>)
    requires AllOfAcyclic(root) && Resolve(root, ref) == Ok(resolved) && i < |AllOf(resolved)|
    requires sub == ViewOf(root, AllOf(resolved)[i])
    ensures WithMembers(root, ref, resolved, v, i) ==
            if sub.Err? then Err(sub.error)
            else if Mergeable(sub.value) then WithMembers(root, ref, resolved, Merged(v, sub.value), i + 1)
            else Ok(Stopped(v, sub.value))
  {
    RankDrops(root, ref, resolved, i);
  }

  lemma {:induction false} AllMerge(root: Node, ref: SchemaRef, resolved: SchemaRef, v: View, i: nat)
    requires AllOfAcyclic(root) && Resolve(root, ref) == Ok(resolved) && i <= |AllOf(resolved)| && v.unsupported == ""
    ensures var w := WithMembers(root, ref, resolved, v, i);
            w.Ok? && w.value.unsupported == "" <==> MergeFrom(root, resolved, i)
    decreases |AllOf(resolved)| - i
  {
    if i == |AllOf(resolved)| {
      MembersEnd(root, ref, resolved, v);
    } else {
      var sub := ViewOf(root, AllOf(resolved)[i]);
      MembersTurn(root, ref, resolved, v, i, sub);
      MergeFromStep(root, resolved, i);
      if Merges(root, AllOf(resolved)[i]) {
        AllMerge(root, ref, resolved, Merged(v, sub.value), i + 1);
      } else if sub.Ok? {
        Blamed(v, sub.value);
      }
    }
  }

  /** All members from the `i`-th on merge. */
  ghost predicate MergeFrom(root: Node, resolved: SchemaRef, i: nat)
    requires AllOfAcyclic(root)
  {
    forall j :: i <= j < |AllOf(resolved)| ==> Merges(root, AllOf(resolved)[j])
  }

  lemma MergeFromStep(root: Node, resolved: SchemaRef, i: nat)
    requires AllOfAcyclic(root) && i < |AllOf(resolved)|
    ensures MergeFrom(root, resolved, i) <==> Merges(root, AllOf(resolved)[i]) && MergeFrom(root, resolved, i + 1)
  {
  }

  lemma Blamed(v: View, sub: View)
    ensures Stopped(v, sub).unsupported != ""
  {
    assert Stopped(v, sub).unsupported[0] == 'a';
  }

  lemma CombinedSupported(v: View, resolved: SchemaRef)
    requires MappingValue(resolved.node, "not").None?
    ensures var w := WithItems(WithCombinators(v, resolved), resolved);
            && (w.unsupported == "" <==> v.unsupported == "" && PlainShape(resolved.node))
            && (!PlainShape(resolved.node) ==> w.unsupported == "both oneOf and anyOf")
            && (PlainShape(resolved.node) ==> w.unsupported == v.unsupported)
  {
    ListsRefs(resolved, "oneOf");
    var both := "both oneOf and anyOf";
    assert both[0] == 'b';
    var one := WithCombinators(v, resolved);
    assert WithItems(one, resolved).unsupported == one.unsupported;
  }

  lemma ViewSupported(root: Node, ref: SchemaRef, resolved: SchemaRef)
    requires AllOfAcyclic(root) && Resolve(root, ref) == Ok(resolved)
    ensures ViewOf(root, ref).Ok? && ViewOf(root, ref).value.unsupported == "" <==>
            PlainShape(resolved.node) && MergeFrom(root, resolved, 0)
  {
    var head := Head(ref, resolved);
    var start := head.(properties := OwnProperties(resolved));
    var w := WithMembers(root, ref, resolved, start, 0);
    ViewUnfolds(root, ref, resolved, head, w);
    AllMerge(root, ref, resolved, start, 0);
    if MappingValue(resolved.node, "not").None? && w.Ok? {
      CombinedSupported(w.value, resolved);
    }
  }

  lemma {:induction false} MergesIff(root: Node, ref: SchemaRef, resolved: SchemaRef, i: nat)
    requires AllOfAcyclic(root) && Resolve(root, ref) == Ok(resolved) && i < |AllOf(resolved)|
    ensures Merges(root, AllOf(resolved)[i]) <==> SupportedMember(root, ref, resolved, i)
    decreases RankOf(root)(ref), 0
  {
    var member := AllOf(resolved)[i];
    RankDrops(root, ref, resolved, i);
    SupportedIff(root, member);
    if Supported(root, member) {
      var target := Resolve(root, member).value;
      ViewHolds(root, member, target, ViewOf(root, member).value);
      ShapeAlone(ViewOf(root, member).value, target);
    }
  }

  lemma ShapeAlone(v: View, resolved: SchemaRef)
    requires ShapeHolds(v, resolved)
    ensures v.oneOf == [] && v.items.None? <==> PropertiesAlone(resolved.node)
  {
  }

  /** A view is supported if and only if there is no `not`, no `anyOf` beside a non-empty `oneOf`, and every `allOf`
      member resolves, is supported and carries neither branches nor items. */
  lemma {:induction false} SupportedIff(root: Node, ref: SchemaRef)
    requires AllOfAcyclic(root)
    ensures ViewOf(root, ref).Ok? && ViewOf(root, ref).value.unsupported == "" <==> Supported(root, ref)
    decreases RankOf(root)(ref), 1
  {
    if Resolve(root, ref).Ok? {
      var resolved := Resolve(root, ref).value;
      ViewSupported(root, ref, resolved);
      forall i | 0 <= i < |AllOf(resolved)|
        ensures Merges(root, AllOf(resolved)[i]) <==> SupportedMember(root, ref, resolved, i)
      {
        MergesIff(root, ref, resolved, i);
      }
    }
  }

  // ---- What an unsupported view says, and when there is no view ----

  /** The first member that stops the merge. */
  ghost predicate Stops(root: Node, ref: SchemaRef, resolved: SchemaRef, i: nat)
    requires AllOfAcyclic(root) && Resolve(root, ref) == Ok(resolved) && i < |AllOf(resolved)|
  {
    && !SupportedMember(root, ref, resolved, i)
    && forall j :: 0 <= j < i ==> SupportedMember(root, ref, resolved, j)
  }

  ghost function MergingPlaces(root: Node, resolved: SchemaRef): set<nat>
    requires AllOfAcyclic(root)
  {
    set j: nat | j < |AllOf(resolved)| && Merges(root, AllOf(resolved)[j])
  }

  lemma PlacesAre(root: Node, resolved: SchemaRef)
    requires AllOfAcyclic(root)
    ensures forall j: nat :: j < |AllOf(resolved)| ==>
              (j in MergingPlaces(root, resolved) <==> Merges(root, AllOf(resolved)[j]))
  {
  }

  lemma MergeTurn(root: Node, ref: SchemaRef, resolved: SchemaRef, v: View, i: nat, sub: Result<View>)
    requires AllOfAcyclic(root) && Resolve(root, ref) == Ok(resolved) && i < |AllOf(resolved)|
    requires sub == ViewOf(root, AllOf(resolved)[i])
    ensures i in MergingPlaces(root, resolved) ==>
              sub.Ok? && WithMembers(root, ref, resolved, v, i) ==
                WithMembers(root, ref, resolved, Merged(v, sub.value), i + 1)
    ensures i !in MergingPlaces(root, resolved) ==>
              WithMembers(root, ref, resolved, v, i) == if sub.Err? then Err(sub.error) else Ok(Stopped(v, sub.value))
  {
    MembersTurn(root, ref, resolved, v, i, sub);
    PlacesAre(root, resolved);
  }

  /** What the merge makes of the first member that stops it. */
  lemma {:induction false} StopsAt(root: Node, ref: SchemaRef, resolved: SchemaRef, v: View, i: nat, k: nat)
    requires AllOfAcyclic(root) && Resolve(root, ref) == Ok(resolved) && i <= k < |AllOf(resolved)|
    requires k !in MergingPlaces(root, resolved)
    requires forall j :: i <= j < k ==> j in MergingPlaces(root, resolved)
    ensures var w, sub := WithMembers(root, ref, resolved, v, i), ViewOf(root, AllOf(resolved)[k]);
            w.Ok? == sub.Ok? && (sub.Ok? ==> w.value.unsupported == Stopped(v, sub.value).unsupported)
    decreases k - i
  {
    var sub := ViewOf(root, AllOf(resolved)[i]);
    MergeTurn(root, ref, resolved, v, i, sub);
    if i < k {
      StopsAt(root, ref, resolved, Merged(v, sub.value), i + 1, k);
    }
  }

  lemma {:induction false} FirstOutside(places: set<nat>, n: nat, i: nat) returns (k: nat)
    requires i <= n && exists j :: i <= j < n && j !in places
    ensures i <= k < n && k !in places && forall j :: i <= j < k ==> j in places
    decreases n - i
  {
    k := i;
    if i in places {
      k := FirstOutside(places, n, i + 1);
    }
  }

  lemma FirstStop(root: Node, ref: SchemaRef, resolved: SchemaRef, v: View) returns (k: nat)
    requires AllOfAcyclic(root) && Resolve(root, ref) == Ok(resolved) && !MergeFrom(root, resolved, 0)
    ensures k < |AllOf(resolved)| && Stops(root, ref, resolved, k)
    ensures var w, sub := WithMembers(root, ref, resolved, v, 0), ViewOf(root, AllOf(resolved)[k]);
            w.Ok? == sub.Ok? && (sub.Ok? ==> w.value.unsupported == Stopped(v, sub.value).unsupported)
  {
    PlacesAre(root, resolved);
    k := FirstOutside(MergingPlaces(root, resolved), |AllOf(resolved)|, 0);
    StopsAt(root, ref, resolved, v, 0, k);
    FirstStopIs(root, ref, resolved, k);
  }

  lemma FirstStopIs(root: Node, ref: SchemaRef, resolved: SchemaRef, k: nat)
    requires AllOfAcyclic(root) && Resolve(root, ref) == Ok(resolved) && k < |AllOf(resolved)|
    requires k !in MergingPlaces(root, resolved) && forall j :: 0 <= j < k ==> j in MergingPlaces(root, resolved)
    ensures Stops(root, ref, resolved, k)
  {
    PlacesAre(root, resolved);
    MergesIff(root, ref, resolved, k);
    forall j | 0 <= j < k
      ensures SupportedMember(root, ref, resolved, j)
    {
      MergesIff(root, ref, resolved, j);
    }
  }

  /** There is a view if and only if the ref resolves and, unless a `not` ends it there, the first `allOf` member that
      is not supported, if any, has a view. */
  lemma ViewOkIff(root: Node, ref: SchemaRef)
    requires AllOfAcyclic(root)
    ensures ViewOf(root, ref).Ok? <==>
            && Resolve(root, ref).Ok?
            && var resolved := Resolve(root, ref).value;
            && (MappingValue(resolved.node, "not").None? ==>
                 forall i :: 0 <= i < |AllOf(resolved)| && Stops(root, ref, resolved, i) ==>
                   ViewOf(root, AllOf(resolved)[i]).Ok?)
  {
    if Resolve(root, ref).Ok? {
      var resolved := Resolve(root, ref).value;
      var head := Head(ref, resolved);
      var start := head.(properties := OwnProperties(resolved));
      var w := WithMembers(root, ref, resolved, start, 0);
      ViewUnfolds(root, ref, resolved, head, w);
      AllMerge(root, ref, resolved, start, 0);
      if w.Ok? && w.value.unsupported == "" {
        assert MergeFrom(root, resolved, 0);
        forall i | 0 <= i < |AllOf(resolved)|
          ensures ViewOf(root, AllOf(resolved)[i]).Ok?
        {
          assert Merges(root, AllOf(resolved)[i]);
        }
      } else {
        var k := FirstStop(root, ref, resolved, start);
        forall i | 0 <= i < |AllOf(resolved)| && Stops(root, ref, resolved, i)
          ensures i == k
        {
        }
      }
    }
  }

  /** An unsupported view names the shape: `not`, both combinators, or what is wrong with the first member that stops
      the merge. */
  lemma UnsupportedShape(root: Node, ref: SchemaRef, resolved: SchemaRef, v: View)
    requires AllOfAcyclic(root) && Resolve(root, ref) == Ok(resolved) && ViewOf(root, ref) == Ok(v)
    ensures MappingValue(resolved.node, "not").Some? ==> v.unsupported == "not"
    ensures MappingValue(resolved.node, "not").None? && !PlainShape(resolved.node) ==>
              v.unsupported == "both oneOf and anyOf"
    ensures PlainShape(resolved.node) && v.unsupported != "" ==>
              exists k :: 0 <= k < |AllOf(resolved)| && Stops(root, ref, resolved, k) &&
                          NamesStop(v, ViewOf(root, AllOf(resolved)[k]))
  {
    var head := Head(ref, resolved);
    var start := head.(properties := OwnProperties(resolved));
    var w := WithMembers(root, ref, resolved, start, 0);
    ViewUnfolds(root, ref, resolved, head, w);
    if MappingValue(resolved.node, "not").None? {
      CombinedSupported(w.value, resolved);
      if PlainShape(resolved.node) && v.unsupported != "" {
        AllMerge(root, ref, resolved, start, 0);
        var k := FirstStop(root, ref, resolved, start);
        assert NamesStop(v, ViewOf(root, AllOf(resolved)[k]));
      }
    }
  }

  ghost predicate NamesStop(v: View, member: Result<View>) {
    && member.Ok?
    && v.unsupported == "allOf member with " +
         (if member.value.unsupported != "" then member.value.unsupported else "combinator or items")
  }

  // ---- Properties: what each one says, and in which order they come ----

  /** The own properties are the entries of `properties`, in order, each required when `required` lists its name. */
  lemma OwnPropertiesAre(resolved: SchemaRef, k: nat)
    ensures |OwnProperties(resolved)| == |EntriesOf(resolved.node, "properties")|
    ensures k < |OwnProperties(resolved)| ==>
              var p, entry := OwnProperties(resolved)[k], EntriesOf(resolved.node, "properties")[k];
              && p.name == entry.key
              && p.ref == SchemaRef(entry.value, resolved.pointer + "/properties/" + EscapeToken(entry.key))
              && (p.required <==> exists i :: 0 <= i < |ElementsOf(resolved.node, "required")| &&
                                              TextIs(ElementsOf(resolved.node, "required")[i], entry.key))
  {
    assert "/" + "properties" + "/" == "/properties/";
    if k < |OwnProperties(resolved)| {
      var entry := EntriesOf(resolved.node, "properties")[k];
      RequiredIff(resolved, entry.key);
      assert resolved.pointer + "/" + "properties" + "/" + EscapeToken(entry.key) ==
             resolved.pointer + "/properties/" + EscapeToken(entry.key);
    }
  }

  function EntriesOf(node: Node, key: string): seq<Entry> {
    match MappingValue(node, key)
    case Some(Mapping(entries)) => entries
    case _ => []
  }

  /** The text of a scalar; anything else has the empty one. */
  predicate TextIs(node: Node, text: string) {
    node == Scalar(text) || (!node.Scalar? && text == "")
  }

  lemma RequiredIff(resolved: SchemaRef, name: string)
    ensures name in RequiredNames(resolved) <==>
            exists i :: 0 <= i < |ElementsOf(resolved.node, "required")| &&
                        TextIs(ElementsOf(resolved.node, "required")[i], name)
  {
    var items := ElementsOf(resolved.node, "required");
    assert MappingValue(resolved.node, "required").Some? ==>
        Items(MappingValue(resolved.node, "required").value) == items;
    forall i | 0 <= i < |items|
      ensures TextIs(items[i], name) <==> ScalarText(items[i]) == name
    {
    }
  }

  function NamesOf(props: seq<Property>): (names: seq<string>) {
    seq(|props|, i requires 0 <= i < |props| => props[i].name)
  }

  function Add(names: seq<string>, name: string): seq<string> {
    if name in names then names else names + [name]
  }

  /** The names one after the other, each where it first occurs. */
  function AddAll(before: seq<string>, names: seq<string>): seq<string> {
    if names == [] then before
    else
      var n := |names| - 1;
      Add(AddAll(before, names[..n]), names[n])
  }

  function FirstOccurrences(names: seq<string>): seq<string> {
    AddAll([], names)
  }

  lemma {:induction false} AddAllHolds(before: seq<string>, names: seq<string>, x: string)
    ensures x in AddAll(before, names) <==> x in before || x in names
  {
    if names != [] {
      var n := |names| - 1;
      AddAllHolds(before, names[..n], x);
      assert names == names[..n] + [names[n]];
    }
  }

  lemma {:induction false} AddAllConcat(before: seq<string>, a: seq<string>, b: seq<string>)
    ensures AddAll(before, a + b) == AddAll(AddAll(before, a), b)
  {
    if b == [] {
      assert a + b == a;
    } else {
      var n := |b| - 1;
      assert (a + b)[..|a + b| - 1] == a + b[..n];
      AddAllConcat(before, a, b[..n]);
    }
  }

  lemma AddOne(before: seq<string>, name: string)
    ensures AddAll(before, [name]) == Add(before, name)
  {
    assert [name][..0] == [];
  }

  /** Adding the names that are left after dropping repeats adds the same. */
  lemma {:induction false} AddOccurrences(before: seq<string>, names: seq<string>)
    ensures AddAll(before, FirstOccurrences(names)) == AddAll(before, names)
  {
    if names != [] {
      var n := |names| - 1;
      var x, kept := names[n], FirstOccurrences(names[..n]);
      AddOccurrences(before, names[..n]);
      if x in kept {
        AddAllHolds([], names[..n], x);
        AddAllHolds(before, names[..n], x);
      } else {
        AddAllConcat(before, kept, [x]);
        AddOne(AddAll(before, kept), x);
      }
    }
  }

  lemma {:induction false} MergeOneOrder(existing: seq<Property>, prop: Property)
    ensures NamesOf(MergeOne(existing, prop)) == Add(NamesOf(existing), prop.name)
  {
    if existing != [] {
      var rest := existing[1..];
      assert NamesOf(existing) == [existing[0].name] + NamesOf(rest);
      if existing[0].name == prop.name {
        assert NamesOf([prop] + rest) == [prop.name] + NamesOf(rest);
      } else {
        MergeOneOrder(rest, prop);
        assert NamesOf([existing[0]] + MergeOne(rest, prop)) == [existing[0].name] + NamesOf(MergeOne(rest, prop));
      }
    }
  }

  lemma {:induction false} MergeOrder(existing: seq<Property>, added: seq<Property>)
    ensures NamesOf(Merge(existing, added)) == AddAll(NamesOf(existing), NamesOf(added))
    decreases |added|
  {
    if added != [] {
      MergeOneOrder(existing, added[0]);
      MergeOrder(MergeOne(existing, added[0]), added[1..]);
      assert NamesOf(added) == [added[0].name] + NamesOf(added[1..]);
      AddAllConcat(NamesOf(existing), [added[0].name], NamesOf(added[1..]));
      AddOne(NamesOf(existing), added[0].name);
    }
  }

  lemma {:induction false} OwnOrder(props: seq<Property>)
    requires UniqueNames(props)
    ensures FirstOccurrences(NamesOf(props)) == NamesOf(props)
  {
    if props != [] {
      var n := |props| - 1;
      OwnOrder(props[..n]);
      assert NamesOf(props)[..n] == NamesOf(props[..n]);
      assert forall i :: 0 <= i < n ==> NamesOf(props[..n])[i] == props[i].name;
      assert NamesOf(props) == NamesOf(props[..n]) + [props[n].name];
    }
  }

  /** The properties of a supported view come in the order in which their names are first declared over the whole tree
      of `allOf` members. */
  lemma {:induction false} FirstDeclaredFirst(root: Node, ref: SchemaRef)
    requires AllOfAcyclic(root) && NamesOnce(root) && ViewOf(root, ref).Ok? && ViewOf(root, ref).value.unsupported == ""
    ensures NamesOf(ViewOf(root, ref).value.properties) == FirstOccurrences(NamesOf(Declared(root, ref)))
    decreases RankOf(root)(ref), 1, 0
  {
    var resolved := Resolve(root, ref).value;
    var own := OwnProperties(resolved);
    assert OwnNamesOnce(root, ref);
    OwnOrder(own);
    SupportedMembers(root, ref, resolved);
    MembersOrder(root, ref, resolved, Head(ref, resolved).(properties := own), 0, own);
  }

  lemma {:induction false} MembersOrder(root: Node, ref: SchemaRef, resolved: SchemaRef, v: View, i: nat,
      all: seq<Property>)
    requires AllOfAcyclic(root) && NamesOnce(root) && Resolve(root, ref) == Ok(resolved) && i <= |AllOf(resolved)|
    requires WithMembers(root, ref, resolved, v, i).Ok? &&
               WithMembers(root, ref, resolved, v, i).value.unsupported == ""
    requires NamesOf(v.properties) == FirstOccurrences(NamesOf(all))
    ensures NamesOf(WithMembers(root, ref, resolved, v, i).value.properties) ==
              FirstOccurrences(NamesOf(all + DeclaredFrom(root, ref, resolved, i)))
    decreases RankOf(root)(ref), 0, |AllOf(resolved)| - i
  {
    if i == |AllOf(resolved)| {
      assert all + [] == all;
    } else {
      var member := AllOf(resolved)[i];
      RankDrops(root, ref, resolved, i);
      MemberStep(root, ref, resolved, v, i);
      var sub := ViewOf(root, member).value;
      FirstDeclaredFirst(root, member);
      var more, rest := Declared(root, member), DeclaredFrom(root, ref, resolved, i + 1);
      OrderStep(v.properties, all, sub.properties, more);
      MembersOrder(root, ref, resolved, v.(properties := Merge(v.properties, sub.properties)), i + 1, all + more);
      ConcatAssociates(all, more, rest);
    }
  }

  lemma OrderStep(props: seq<Property>, all: seq<Property>, added: seq<Property>, more: seq<Property>)
    requires NamesOf(props) == FirstOccurrences(NamesOf(all)) && NamesOf(added) == FirstOccurrences(NamesOf(more))
    ensures NamesOf(Merge(props, added)) == FirstOccurrences(NamesOf(all + more))
  {
    MergeOrder(props, added);
    OccurrencesOfBoth(NamesOf(all), NamesOf(more));
    NamesOfBoth(all, more);
  }

  lemma OccurrencesOfBoth(all: seq<string>, more: seq<string>)
    ensures AddAll(FirstOccurrences(all), FirstOccurrences(more)) == FirstOccurrences(all + more)
  {
    AddOccurrences(FirstOccurrences(all), more);
    AddAllConcat([], all, more);
  }

  lemma NamesOfBoth(a: seq<Property>, b: seq<Property>)
    ensures NamesOf(a + b) == NamesOf(a) + NamesOf(b)
  {
  }
}

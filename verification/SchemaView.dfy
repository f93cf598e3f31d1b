/** A schema with its `$ref` followed and its `allOf` members merged into one property list. */
module SchemaView {
  import opened Text
  import opened JsonPointer
  import opened Oas

  datatype Property = Property(name: string, ref: SchemaRef, required: bool)

  datatype View = View(
    pointer: string,
    node: Node,
    properties: seq<Property>,
    oneOf: seq<SchemaRef>,
    items: Option<SchemaRef>,
    deprecated: bool,
    readOnly: bool,
    xState: string,
    unsupported: string)

  function FirstNonEmpty(a: string, b: string): string {
    if a != "" then a else b
  }

  // ---- Children of a resolved schema ----

  function KeywordRef(ref: SchemaRef, key: string): SchemaRef
    requires MappingValue(ref.node, key).Some?
  {
    SchemaRef(MappingValue(ref.node, key).value, ref.pointer + "/" + key)
  }

  function ItemRef(list: SchemaRef, i: nat): SchemaRef
    requires i < |Items(list.node)|
  {
    SchemaRef(Items(list.node)[i], list.pointer + "/" + Decimal(i))
  }

  function EntryRef(map_: SchemaRef, i: nat): SchemaRef
    requires i < |Entries(map_.node)|
  {
    SchemaRef(Entries(map_.node)[i].value, map_.pointer + "/" + EscapeToken(Entries(map_.node)[i].key))
  }

  /** The refs of a list-valued keyword; none when the keyword is absent. */
  function ListRefs(ref: SchemaRef, key: string): seq<SchemaRef> {
    if MappingValue(ref.node, key).None? then []
    else
      var list := KeywordRef(ref, key);
      seq(|Items(list.node)|, i requires 0 <= i < |Items(list.node)| => ItemRef(list, i))
  }

  function RequiredNames(ref: SchemaRef): set<string> {
    if MappingValue(ref.node, "required").None? then {}
    else
      var items := Items(MappingValue(ref.node, "required").value);
      set i | 0 <= i < |items| :: ScalarText(items[i])
  }

  function ScalarText(node: Node): string {
    if node.Scalar? then node.value else ""
  }

  function OwnProperties(ref: SchemaRef): seq<Property> {
    if MappingValue(ref.node, "properties").None? then []
    else
      var props := KeywordRef(ref, "properties");
      seq(|Entries(props.node)|, i requires 0 <= i < |Entries(props.node)| =>
        Property(Entries(props.node)[i].key, EntryRef(props, i), Entries(props.node)[i].key in RequiredNames(ref)))
  }

  // ---- Merging ----

  function Names(props: seq<Property>): set<string> {
    set i | 0 <= i < |props| :: props[i].name
  }

  ghost predicate UniqueNames(props: seq<Property>) {
    forall i, j :: 0 <= i < j < |props| ==> props[i].name != props[j].name
  }

  lemma NamesGrow(props: seq<Property>, i: nat)
    requires i < |props|
    ensures Names(props[..i + 1]) == Names(props[..i]) + {props[i].name}
  {
    var longer, shorter := props[..i + 1], props[..i];
    assert longer[i] == props[i];
    forall k | 0 <= k < i
      ensures longer[k] == shorter[k]
    {
    }
    forall n | n in Names(shorter)
      ensures n in Names(longer)
    {
      var k :| 0 <= k < |shorter| && shorter[k].name == n;
      assert longer[k].name == n;
    }
    assert longer[i].name in Names(longer);
  }

  /** One property merged in: it takes the place of the first one of its name, or goes last. */
  function MergeOne(existing: seq<Property>, prop: Property): (r: seq<Property>)
    ensures forall p :: p in r ==> p == prop || p in existing
  {
    if existing == [] then [prop]
    else if existing[0].name == prop.name then [prop] + existing[1..]
    else [existing[0]] + MergeOne(existing[1..], prop)
  }

  /** `mergeProperties`: later definitions win, earlier positions stay. */
  function Merge(existing: seq<Property>, added: seq<Property>): (r: seq<Property>)
    ensures forall p :: p in r ==> p in existing || p in added
    decreases |added|
  {
    if added == [] then existing else Merge(MergeOne(existing, added[0]), added[1..])
  }

  /** What a reader of the merged list finds under a name: the first property of that name. */
  function Named(props: seq<Property>, name: string): Option<Property> {
    if props == [] then None
    else if props[0].name == name then Some(props[0])
    else Named(props[1..], name)
  }

  lemma {:induction false} MergeOneNamed(existing: seq<Property>, prop: Property, name: string)
    ensures Named(MergeOne(existing, prop), name) == if name == prop.name then Some(prop) else Named(existing, name)
  {
    if existing != [] && existing[0].name != prop.name {
      MergeOneNamed(existing[1..], prop, name);
      assert ([existing[0]] + MergeOne(existing[1..], prop))[1..] == MergeOne(existing[1..], prop);
    } else if existing != [] {
      assert ([prop] + existing[1..])[1..] == existing[1..];
    }
  }

  /** Under every name the merged list gives the last added definition, else the existing one. */
  lemma {:induction false} MergeLastWins(existing: seq<Property>, added: seq<Property>, name: string)
    ensures Named(Merge(existing, added), name) ==
            if LastNamed(added, name).Some? then LastNamed(added, name) else Named(existing, name)
    decreases |added|
  {
    if added != [] {
      MergeOneNamed(existing, added[0], name);
      MergeLastWins(MergeOne(existing, added[0]), added[1..], name);
    }
  }

  function LastNamed(props: seq<Property>, name: string): Option<Property> {
    if props == [] then None
    else
      var later := LastNamed(props[1..], name);
      if later.Some? then later
      else if props[0].name == name then Some(props[0]) else None
  }

  lemma MergeOneStep(existing: seq<Property>, prop: Property, i: nat)
    requires i < |existing|
    ensures existing[..i] + MergeOne(existing[i..], prop) ==
            if existing[i].name == prop.name then existing[i := prop]
            else existing[..i + 1] + MergeOne(existing[i + 1..], prop)
  {
    var rest := existing[i..];
    assert rest[0] == existing[i] && rest[1..] == existing[i + 1..];
    if existing[i].name == prop.name {
      assert existing[..i] + ([prop] + existing[i + 1..]) == existing[i := prop];
    } else {
      var more := MergeOne(existing[i + 1..], prop);
      assert existing[..i] + ([existing[i]] + more) == existing[..i + 1] + more;
    }
  }

  method MergeOneLoop(existing: seq<Property>, prop: Property) returns (r: seq<Property>)
    ensures r == MergeOne(existing, prop)
  {
    for i := 0 to |existing|
      invariant MergeOne(existing, prop) == existing[..i] + MergeOne(existing[i..], prop)
    {
      MergeOneStep(existing, prop, i);
      if existing[i].name == prop.name {
        return existing[i := prop];
      }
    }
    assert existing[..|existing|] == existing;
    return existing + [prop];
  }

  /** The nested loops of `mergeProperties`, overwriting entries in place. */
  method MergeLoop(existing: seq<Property>, added: seq<Property>) returns (r: seq<Property>)
    ensures r == Merge(existing, added)
  {
    r := existing;
    for k := 0 to |added|
      invariant Merge(existing, added) == Merge(r, added[k..])
    {
      assert added[k..][0] == added[k] && added[k..][1..] == added[k + 1..];
      r := MergeOneLoop(r, added[k]);
    }
  }

  // ---- The view ----

  /** `rank` goes down along the i-th `allOf` edge out of `ref`, if there is one. */
  ghost predicate RankDown(root: Node, rank: SchemaRef -> nat, ref: SchemaRef, i: nat) {
    Resolve(root, ref).Ok? && i < |AllOf(Resolve(root, ref).value)| ==>
      rank(AllOf(Resolve(root, ref).value)[i]) < rank(ref)
  }

  /** `rank` goes down along every `allOf` edge: there is no cycle made only of `allOf` edges. */
  ghost predicate Ranks(root: Node, rank: SchemaRef -> nat) {
    forall ref: SchemaRef, i: nat :: RankDown(root, rank, ref, i)
  }

  /** The members that `view` descends into. */
  function AllOf(resolved: SchemaRef): seq<SchemaRef> {
    if MappingValue(resolved.node, "not").Some? then [] else ListRefs(resolved, "allOf")
  }

  ghost predicate AllOfAcyclic(root: Node) {
    exists rank: SchemaRef -> nat :: Ranks(root, rank)
  }

  ghost function RankOf(root: Node): (rank: SchemaRef -> nat)
    requires AllOfAcyclic(root)
  {
    var rank: SchemaRef -> nat :| Ranks(root, rank);
    rank
  }

  lemma RankDrops(root: Node, ref: SchemaRef, resolved: SchemaRef, i: nat)
    requires AllOfAcyclic(root) && Resolve(root, ref) == Ok(resolved) && i < |AllOf(resolved)|
    ensures RankOf(root)(AllOf(resolved)[i]) < RankOf(root)(ref)
  {
    assert Ranks(root, RankOf(root));
    assert RankDown(root, RankOf(root), ref, i);
  }

  function Head(ref: SchemaRef, resolved: SchemaRef): View {
    View(resolved.pointer, resolved.node, [], [], None,
         BoolValue(ref.node, "deprecated") || BoolValue(resolved.node, "deprecated"),
         BoolValue(ref.node, "readOnly") || BoolValue(resolved.node, "readOnly"),
         FirstNonEmpty(StringValue(ref.node, "x-state"), StringValue(resolved.node, "x-state")),
         "")
  }

  function ViewOf(root: Node, ref: SchemaRef): (r: Result<View>)
    requires AllOfAcyclic(root)
    decreases RankOf(root)(ref), 1, 0
  {
    match Resolve(root, ref)
    case Err(e) => Err(e)
    case Ok(resolved) =>
      var head := Head(ref, resolved);
      if MappingValue(resolved.node, "not").Some? then Ok(head.(unsupported := "not"))
      else
        match WithMembers(root, ref, resolved, head.(properties := OwnProperties(resolved)), 0)
        case Err(e) => Err(e)
        case Ok(v) => Ok(WithItems(WithCombinators(v, resolved), resolved))
  }

  /** A member that carries anything but properties makes the whole schema unsupported. */
  predicate Mergeable(sub: View) {
    sub.unsupported == "" && |sub.oneOf| == 0 && sub.items.None?
  }

  function WithMembers(root: Node, ref: SchemaRef, resolved: SchemaRef, v: View, i: nat): Result<View>
    requires AllOfAcyclic(root) && Resolve(root, ref) == Ok(resolved) && i <= |AllOf(resolved)|
    decreases RankOf(root)(ref), 0, |AllOf(resolved)| - i
  {
    if i == |AllOf(resolved)| then Ok(v)
    else
      RankDrops(root, ref, resolved, i);
      match ViewOf(root, AllOf(resolved)[i])
      case Err(e) => Err(e)
      case Ok(sub) =>
        if !Mergeable(sub) then
          Ok(v.(unsupported := "allOf member with " + FirstNonEmpty(sub.unsupported, "combinator or items")))
        else WithMembers(root, ref, resolved, v.(properties := Merge(v.properties, sub.properties)), i + 1)
  }

  function WithCombinators(v: View, resolved: SchemaRef): View {
    var one := v.(oneOf := ListRefs(resolved, "oneOf"));
    if MappingValue(resolved.node, "anyOf").None? then one
    else if |one.oneOf| > 0 then one.(unsupported := "both oneOf and anyOf")
    else one.(oneOf := ListRefs(resolved, "anyOf"))
  }

  function WithItems(v: View, resolved: SchemaRef): View {
    if MappingValue(resolved.node, "items").Some? then v.(items := Some(KeywordRef(resolved, "items"))) else v
  }

  method OwnPropertiesLoop(resolved: SchemaRef) returns (props: seq<Property>)
    ensures props == OwnProperties(resolved)
  {
    props := [];
    if MappingValue(resolved.node, "properties").Some? {
      var value := KeywordRef(resolved, "properties");
      for i := 0 to |Entries(value.node)|
        invariant props == OwnProperties(resolved)[..i]
      {
        var name := Entries(value.node)[i].key;
        props := props + [Property(name, EntryRef(value, i), name in RequiredNames(resolved))];
      }
    }
  }

  /** One turn of the member loop; `more` says whether the loop goes on. */
  method AddMember(root: Node, ref: SchemaRef, resolved: SchemaRef, v: View, i: nat)
    returns (step: Result<View>, more: bool)
    requires AllOfAcyclic(root) && Resolve(root, ref) == Ok(resolved) && i < |AllOf(resolved)|
    ensures more ==> step.Ok?
    ensures WithMembers(root, ref, resolved, v, i) ==
            if more then WithMembers(root, ref, resolved, step.value, i + 1) else step
    decreases RankOf(root)(ref), 0
  {
    RankDrops(root, ref, resolved, i);
    var sub := BuildView(root, AllOf(resolved)[i]);
    if sub.Err? {
      return Err(sub.error), false;
    }
    if !Mergeable(sub.value) {
      return Ok(v.(unsupported := "allOf member with " + FirstNonEmpty(sub.value.unsupported, "combinator or items"))),
          false;
    }
    var merged := MergeLoop(v.properties, sub.value.properties);
    return Ok(v.(properties := merged)), true;
  }

  /** `addProperties`: append own properties, then merge each member. */
  method AddProperties(root: Node, ref: SchemaRef, resolved: SchemaRef, head: View) returns (r: Result<View>)
    requires AllOfAcyclic(root) && Resolve(root, ref) == Ok(resolved)
    ensures r == WithMembers(root, ref, resolved, head.(properties := OwnProperties(resolved)), 0)
    decreases RankOf(root)(ref), 1
  {
    var props := OwnPropertiesLoop(resolved);
    r := Ok(head.(properties := props));
    ghost var all := WithMembers(root, ref, resolved, r.value, 0);
    var i := 0;
    while i < |AllOf(resolved)|
      invariant 0 <= i <= |AllOf(resolved)|
      invariant r.Ok? && all == WithMembers(root, ref, resolved, r.value, i)
    {
      var more;
      r, more := AddMember(root, ref, resolved, r.value, i);
      if !more {
        return;
      }
      i := i + 1;
    }
  }

  method BuildView(root: Node, ref: SchemaRef) returns (r: Result<View>)
    requires AllOfAcyclic(root)
    ensures r == ViewOf(root, ref)
    decreases RankOf(root)(ref), 2
  {
    var found := ResolveLoop(root, ref);
    if found.Err? {
      return Err(found.error);
    }
    var resolved := found.value;
    var v := Head(ref, resolved);
    if MappingValue(resolved.node, "not").Some? {
      return Ok(v.(unsupported := "not"));
    }
    var withProps := AddProperties(root, ref, resolved, v);
    if withProps.Err? {
      return Err(withProps.error);
    }
    return Ok(WithItems(WithCombinators(withProps.value, resolved), resolved));
  }

  // ---- What a view contains stays within every closed set ----

  ghost predicate PropertiesIn(props: seq<Property>, refs: set<SchemaRef>) {
    forall p :: p in props ==> p.ref in refs
  }

  ghost predicate RefsIn(list: seq<SchemaRef>, refs: set<SchemaRef>) {
    forall r :: r in list ==> r in refs
  }

  ghost predicate ViewIn(v: View, refs: set<SchemaRef>) {
    && SchemaRef(v.node, v.pointer) in refs
    && PropertiesIn(v.properties, refs)
    && RefsIn(v.oneOf, refs)
    && (v.items.Some? ==> v.items.value in refs)
  }

  predicate PlainKey(key: string) {
    '~' !in key && '/' !in key
  }

  lemma KeywordIn(root: Node, resolved: SchemaRef, key: string, refs: set<SchemaRef>)
    requires Closed(root, refs) && resolved in refs && PlainKey(key) && MappingValue(resolved.node, key).Some?
    ensures KeywordRef(resolved, key) in refs
  {
    KeywordInSubRefs(resolved, key);
  }

  lemma ListRefsIn(root: Node, resolved: SchemaRef, key: string, refs: set<SchemaRef>)
    requires Closed(root, refs) && resolved in refs && PlainKey(key)
    ensures RefsIn(ListRefs(resolved, key), refs)
  {
    var list := ListRefs(resolved, key);
    forall r | r in list
      ensures r in refs
    {
      var i :| 0 <= i < |list| && list[i] == r;
      KeywordIn(root, resolved, key, refs);
      ItemInSubRefs(KeywordRef(resolved, key), i);
    }
  }

  lemma OwnPropertiesIn(root: Node, resolved: SchemaRef, refs: set<SchemaRef>)
    requires Closed(root, refs) && resolved in refs
    ensures PropertiesIn(OwnProperties(resolved), refs)
  {
    var props := OwnProperties(resolved);
    forall p | p in props
      ensures p.ref in refs
    {
      var i :| 0 <= i < |props| && props[i] == p;
      KeywordIn(root, resolved, "properties", refs);
      EntryInSubRefs(KeywordRef(resolved, "properties"), i);
    }
  }

  /** The view of a ref names only nodes of any closed set that holds the ref. */
  lemma {:induction false} ViewStaysIn(root: Node, ref: SchemaRef, refs: set<SchemaRef>)
    requires AllOfAcyclic(root) && Closed(root, refs) && ref in refs && ViewOf(root, ref).Ok?
    ensures ViewIn(ViewOf(root, ref).value, refs)
    decreases RankOf(root)(ref), 1, 0
  {
    var resolved := Resolve(root, ref).value;
    if MappingValue(resolved.node, "not").None? {
      var start := Head(ref, resolved).(properties := OwnProperties(resolved));
      OwnPropertiesIn(root, resolved, refs);
      MembersStayIn(root, ref, resolved, start, 0, refs);
      AssembledIn(root, WithMembers(root, ref, resolved, start, 0).value, resolved, refs);
    }
  }

  lemma AssembledIn(root: Node, v: View, resolved: SchemaRef, refs: set<SchemaRef>)
    requires Closed(root, refs) && resolved in refs
    requires PropertiesIn(v.properties, refs) && v.items.None? && SchemaRef(v.node, v.pointer) == resolved
    ensures ViewIn(WithItems(WithCombinators(v, resolved), resolved), refs)
  {
    ListRefsIn(root, resolved, "oneOf", refs);
    ListRefsIn(root, resolved, "anyOf", refs);
    if MappingValue(resolved.node, "items").Some? {
      KeywordIn(root, resolved, "items", refs);
    }
  }

  lemma MemberIn(root: Node, ref: SchemaRef, resolved: SchemaRef, i: nat, refs: set<SchemaRef>)
    requires Closed(root, refs) && ref in refs && Resolve(root, ref) == Ok(resolved) && i < |AllOf(resolved)|
    ensures AllOf(resolved)[i] in refs
  {
    ListRefsIn(root, resolved, "allOf", refs);
  }

  lemma {:induction false} MembersStayIn(root: Node, ref: SchemaRef, resolved: SchemaRef, v: View, i: nat,
      refs: set<SchemaRef>)
    requires AllOfAcyclic(root) && Closed(root, refs) && ref in refs
    requires Resolve(root, ref) == Ok(resolved) && i <= |AllOf(resolved)|
    requires PropertiesIn(v.properties, refs)
    requires WithMembers(root, ref, resolved, v, i).Ok?
    ensures var out := WithMembers(root, ref, resolved, v, i).value;
            PropertiesIn(out.properties, refs) && out.pointer == v.pointer && out.node == v.node && out.items == v.items
    decreases RankOf(root)(ref), 0, |AllOf(resolved)| - i
  {
    if i < |AllOf(resolved)| {
      var member := AllOf(resolved)[i];
      RankDrops(root, ref, resolved, i);
      var sub := ViewOf(root, member).value;
      if Mergeable(sub) {
        MemberIn(root, ref, resolved, i, refs);
        ViewStaysIn(root, member, refs);
        MembersStayIn(root, ref, resolved, v.(properties := Merge(v.properties, sub.properties)), i + 1, refs);
      }
    }
  }
}

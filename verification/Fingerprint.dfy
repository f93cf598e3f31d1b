/** The structural fingerprint of a schema: a projection onto structural keys, with cycles cut at the
    pointer that closes them. */
module Fingerprint {
  import opened Collections
  import opened Text
  import opened Sorting
  import opened Oas
  import opened SchemaView

  datatype Projection =
    | Cycle(pointer: string)
    | Object(fields: map<string, Projection>)
    | List(items: seq<Projection>)
    | Texts(values: seq<string>)
    | Value(node: Node)

  const OWN_KEYS: set<string> := {"type", "format", "deprecated", "enum", "required"}
  const TEXT_KEYS: set<string> := {"enum", "required"}
  const CHILD_KEYS: seq<string> := ["properties", "items", "not", "oneOf", "anyOf", "allOf", "additionalProperties"]

  /** The scalar values of a sequence node. */
  function TextsOf(node: Node): seq<string> {
    seq(|Items(node)|, i requires 0 <= i < |Items(node)| => ScalarText(Items(node)[i]))
  }

  function SortedStrings(node: Node): seq<string> {
    SortBy(TextsOf(node), StringLeq)
  }

  function OwnField(node: Node, key: string): Option<Projection> {
    var value := MappingValue(node, key);
    if value.None? then None
    else if key in TEXT_KEYS then Some(Texts(SortedStrings(value.value)))
    else Some(Value(value.value))
  }

  /** The part of a projection that looks at no child schema. */
  function OwnFields(node: Node): map<string, Projection> {
    map k | k in OWN_KEYS && OwnField(node, k).Some? :: OwnField(node, k).value
  }

  // ---- Children, keyword by keyword ----

  function PropertyRefs(ref: SchemaRef): seq<SchemaRef> {
    seq(|OwnProperties(ref)|, i requires 0 <= i < |OwnProperties(ref)| => OwnProperties(ref)[i].ref)
  }

  function ChildRefs(ref: SchemaRef, key: string): seq<SchemaRef> {
    var value := MappingValue(ref.node, key);
    if value.None? then []
    else if key == "properties" then PropertyRefs(ref)
    else if key == "oneOf" || key == "anyOf" || key == "allOf" then ListRefs(ref, key)
    else if key == "additionalProperties" && !value.value.Mapping? then []
    else [KeywordRef(ref, key)]
  }

  /** Projections of properties under their names; a repeated name keeps its last. */
  function ByName(props: seq<Property>, projections: seq<Projection>): map<string, Projection>
    requires |props| == |projections|
  {
    if props == [] then map[]
    else
      var n := |props| - 1;
      ByName(props[..n], projections[..n])[props[n].name := projections[n]]
  }

  /** How the projections of a keyword's children enter the projection of the schema. */
  function Wrap(ref: SchemaRef, key: string, projections: seq<Projection>): map<string, Projection>
    requires |projections| == |ChildRefs(ref, key)|
  {
    var value := MappingValue(ref.node, key);
    if value.None? then map[]
    else if key == "properties" then map[key := Object(ByName(OwnProperties(ref), projections))]
    else if key == "oneOf" || key == "anyOf" || key == "allOf" then map[key := List(projections)]
    else if key == "additionalProperties" && !value.value.Mapping? then map[key := Value(value.value)]
    else map[key := projections[0]]
  }

  // ---- Termination: pointers not yet active ----

  ghost function Pointers(root: Node, ref: SchemaRef): set<string> {
    set r | r in Reach(root, ref) :: r.pointer
  }

  ghost function Budget(root: Node, active: set<string>, ref: SchemaRef): nat {
    |Pointers(root, ref) - active|
  }

  lemma BudgetShrinks(root: Node, active: set<string>, ref: SchemaRef, r: SchemaRef)
    requires r in Reach(root, ref)
    ensures Budget(root, active, r) <= Budget(root, active, ref)
  {
    ReachShrinks(root, ref, r);
    assert Pointers(root, r) <= Pointers(root, ref);
    SubsetSize(Pointers(root, r) - active, Pointers(root, ref) - active);
  }

  lemma BudgetDrops(root: Node, active: set<string>, ref: SchemaRef, resolved: SchemaRef)
    requires Resolve(root, ref) == Ok(resolved) && resolved.pointer !in active
    ensures Budget(root, active + {resolved.pointer}, resolved) < Budget(root, active, ref)
  {
    ReachIsClosed(root, ref);
    BudgetShrinks(root, active + {resolved.pointer}, ref, resolved);
    assert resolved.pointer in Pointers(root, ref) - active;
    SubsetSize(Pointers(root, ref) - (active + {resolved.pointer}), Pointers(root, ref) - active);
  }

  lemma ChildKeysPlain(key: string)
    requires key in CHILD_KEYS
    ensures PlainKey(key)
  {
  }

  lemma ChildIn(root: Node, resolved: SchemaRef, key: string, i: nat, refs: set<SchemaRef>)
    requires key in CHILD_KEYS && i < |ChildRefs(resolved, key)|
    requires Closed(root, refs) && resolved in refs
    ensures ChildRefs(resolved, key)[i] in refs
  {
    ChildKeysPlain(key);
    if key == "properties" {
      OwnPropertiesIn(root, resolved, refs);
      assert OwnProperties(resolved)[i] in OwnProperties(resolved);
    } else if key == "oneOf" || key == "anyOf" || key == "allOf" {
      ListRefsIn(root, resolved, key, refs);
      assert ChildRefs(resolved, key)[i] in ListRefs(resolved, key);
    } else {
      KeywordIn(root, resolved, key, refs);
    }
  }

  lemma ChildBudget(root: Node, active: set<string>, resolved: SchemaRef, key: string, i: nat)
    requires key in CHILD_KEYS && i < |ChildRefs(resolved, key)|
    ensures Budget(root, active, ChildRefs(resolved, key)[i]) <= Budget(root, active, resolved)
  {
    ReachIsClosed(root, resolved);
    ChildIn(root, resolved, key, i, Reach(root, resolved));
    BudgetShrinks(root, active, resolved, ChildRefs(resolved, key)[i]);
  }

  // ---- The projection ----

  function Project(root: Node, active: set<string>, ref: SchemaRef): Result<Projection>
    decreases Budget(root, active, ref), 0, 0, 0
  {
    match Resolve(root, ref)
    case Err(e) => Err(e)
    case Ok(resolved) =>
      if resolved.pointer in active then Ok(Cycle(resolved.pointer))
      else
        BudgetDrops(root, active, ref, resolved);
        match ProjectKeys(root, active + {resolved.pointer}, resolved, 0)
        case Err(e) => Err(e)
        case Ok(fields) => Ok(Object(OwnFields(resolved.node) + fields))
  }

  function ProjectKeys(root: Node, active: set<string>, resolved: SchemaRef, k: nat): Result<map<string, Projection>>
    requires k <= |CHILD_KEYS|
    decreases Budget(root, active, resolved), 2, |CHILD_KEYS| - k, 0
  {
    if k == |CHILD_KEYS| then Ok(map[])
    else
      match ProjectChildren(root, active, resolved, CHILD_KEYS[k], 0)
      case Err(e) => Err(e)
      case Ok(projections) =>
        match ProjectKeys(root, active, resolved, k + 1)
        case Err(e) => Err(e)
        case Ok(rest) => Ok(Wrap(resolved, CHILD_KEYS[k], projections) + rest)
  }

  function ProjectChildren(root: Node, active: set<string>, resolved: SchemaRef, key: string,
      i: nat): (r: Result<seq<Projection>>)
    requires key in CHILD_KEYS && i <= |ChildRefs(resolved, key)|
    ensures r.Ok? ==> |r.value| == |ChildRefs(resolved, key)| - i
    decreases Budget(root, active, resolved), 1, |ChildRefs(resolved, key)| - i, 0
  {
    if i == |ChildRefs(resolved, key)| then Ok([])
    else
      ChildBudget(root, active, resolved, key, i);
      match Project(root, active, ChildRefs(resolved, key)[i])
      case Err(e) => Err(e)
      case Ok(first) =>
        match ProjectChildren(root, active, resolved, key, i + 1)
        case Err(e) => Err(e)
        case Ok(rest) => Ok([first] + rest)
  }

  /** `fingerprint`: a hash of the projection, started with nothing active. */
  function FingerprintOf(root: Node, ref: SchemaRef, hash: Projection -> string): Result<string> {
    match Project(root, {}, ref)
    case Err(e) => Err(e)
    case Ok(p) => Ok(hash(p))
  }

  // ---- The recursion over the shared `active` map ----

  class Projector {
    const root: Node
    var active: set<string>

    constructor (root: Node)
      ensures this.root == root && active == {}
    {
      this.root := root;
      active := {};
    }

    method Run(ref: SchemaRef) returns (r: Result<Projection>)
      modifies this
      ensures active == old(active)
      ensures r == Project(root, active, ref)
      decreases Budget(root, active, ref), 0, 0
    {
      var found := ResolveLoop(root, ref);
      if found.Err? {
        return Err(found.error);
      }
      var resolved := found.value;
      if resolved.pointer in active {
        return Ok(Cycle(resolved.pointer));
      }
      BudgetDrops(root, active, ref, resolved);
      active := active + {resolved.pointer};
      var out := OwnFields(resolved.node);
      var children := RunKeys(resolved);
      active := active - {resolved.pointer};
      if children.Err? {
        return Err(children.error);
      }
      return Ok(Object(out + children.value));
    }

    /** `projectChildren`: one keyword after the other, each filling `out`. */
    method RunKeys(resolved: SchemaRef) returns (r: Result<map<string, Projection>>)
      modifies this
      ensures active == old(active)
      ensures r == ProjectKeys(root, active, resolved, 0)
      decreases Budget(root, active, resolved), 2, 0
    {
      var out: map<string, Projection> := map[];
      ghost var all := ProjectKeys(root, active, resolved, 0);
      ExtendEmpty(all);
      var k := 0;
      while k < |CHILD_KEYS|
        invariant 0 <= k <= |CHILD_KEYS|
        invariant active == old(active)
        invariant all == Extend(out, ProjectKeys(root, active, resolved, k))
      {
        var projections := RunChildren(resolved, CHILD_KEYS[k]);
        if projections.Err? {
          return Err(projections.error);
        }
        ExtendStep(out, Wrap(resolved, CHILD_KEYS[k], projections.value), ProjectKeys(root, active, resolved, k + 1));
        out := out + Wrap(resolved, CHILD_KEYS[k], projections.value);
        k := k + 1;
      }
      assert out + map[] == out;
      return Ok(out);
    }

    method RunChildren(resolved: SchemaRef, key: string) returns (r: Result<seq<Projection>>)
      requires key in CHILD_KEYS
      modifies this
      ensures active == old(active)
      ensures r == ProjectChildren(root, active, resolved, key, 0)
      decreases Budget(root, active, resolved), 1, 0
    {
      var refs := ChildRefs(resolved, key);
      var out: seq<Projection> := [];
      ghost var all := ProjectChildren(root, active, resolved, key, 0);
      AppendEmpty(all);
      for i := 0 to |refs|
        invariant active == old(active)
        invariant |out| == i
        invariant all == Append(out, ProjectChildren(root, active, resolved, key, i))
      {
        ChildBudget(root, active, resolved, key, i);
        var child := Run(refs[i]);
        if child.Err? {
          return Err(child.error);
        }
        AppendStep(out, child.value, ProjectChildren(root, active, resolved, key, i + 1));
        out := out + [child.value];
      }
      assert out + [] == out;
      return Ok(out);
    }
  }

  ghost function Extend(out: map<string, Projection>,
      rest: Result<map<string, Projection>>): Result<map<string, Projection>> {
    if rest.Ok? then Ok(out + rest.value) else rest
  }

  lemma ExtendEmpty(rest: Result<map<string, Projection>>)
    ensures Extend(map[], rest) == rest
  {
    if rest.Ok? {
      assert map[] + rest.value == rest.value;
    }
  }

  lemma ExtendStep(out: map<string, Projection>, m: map<string, Projection>, rest: Result<map<string, Projection>>)
    ensures rest.Ok? ==> Extend(out, Ok(m + rest.value)) == Extend(out + m, rest)
  {
    if rest.Ok? {
      assert out + (m + rest.value) == (out + m) + rest.value;
    }
  }

  ghost function Append(out: seq<Projection>, rest: Result<seq<Projection>>): Result<seq<Projection>> {
    if rest.Ok? then Ok(out + rest.value) else rest
  }

  lemma AppendEmpty(rest: Result<seq<Projection>>)
    ensures Append([], rest) == rest
  {
    if rest.Ok? {
      assert [] + rest.value == rest.value;
    }
  }

  lemma AppendStep(out: seq<Projection>, p: Projection, rest: Result<seq<Projection>>)
    ensures rest.Ok? ==> Append(out, Ok([p] + rest.value)) == Append(out + [p], rest)
  {
    if rest.Ok? {
      assert out + ([p] + rest.value) == (out + [p]) + rest.value;
    }
  }

  // ---- Only structure counts ----

  ghost predicate SameTexts(a: Option<Node>, b: Option<Node>) {
    a.None? == b.None? && (a.Some? ==> multiset(TextsOf(a.value)) == multiset(TextsOf(b.value)))
  }

  /** What of a node itself enters the projection, up to the order of enum and required. */
  ghost predicate SameOwn(a: Node, b: Node) {
    forall k :: k in OWN_KEYS ==> SameOwnKey(a, b, k)
  }

  ghost predicate SameOwnKey(a: Node, b: Node, key: string) {
    if key in TEXT_KEYS then SameTexts(MappingValue(a, key), MappingValue(b, key))
    else MappingValue(a, key) == MappingValue(b, key)
  }

  /** Property lists with the same names, in any order, whose schemas correspond. */
  ghost predicate SameProperties(a: seq<Property>, b: seq<Property>, rel: (SchemaRef, SchemaRef) -> bool) {
    && UniqueNames(a) && UniqueNames(b) && Names(a) == Names(b)
    && (forall i, j :: 0 <= i < |a| && 0 <= j < |b| && a[i].name == b[j].name ==> rel(a[i].ref, b[j].ref))
  }

  ghost predicate SameChildren(a: SchemaRef, b: SchemaRef, key: string, rel: (SchemaRef, SchemaRef) -> bool) {
    var va, vb := MappingValue(a.node, key), MappingValue(b.node, key);
    && va.None? == vb.None?
    && (va.Some? ==>
          if key == "properties" then SameProperties(OwnProperties(a), OwnProperties(b), rel)
          else
            && (key == "additionalProperties" ==>
                va.value.Mapping? == vb.value.Mapping? && (va.value.Mapping? || va == vb))
            && |ChildRefs(a, key)| == |ChildRefs(b, key)|
            && forall i :: 0 <= i < |ChildRefs(a, key)| ==> rel(ChildRefs(a, key)[i], ChildRefs(b, key)[i]))
  }

  /** Corresponding refs resolve to the same pointer and agree on every structural key. */
  ghost predicate Agree(rootA: Node, rootB: Node, rel: (SchemaRef, SchemaRef) -> bool, a: SchemaRef, b: SchemaRef) {
    && Resolve(rootA, a).Ok? && Resolve(rootB, b).Ok?
    && var ra := Resolve(rootA, a).value;
    && var rb := Resolve(rootB, b).value;
    && ra.pointer == rb.pointer
    && SameOwn(ra.node, rb.node)
    && (forall k :: 0 <= k < |CHILD_KEYS| ==> SameChildren(ra, rb, CHILD_KEYS[k], rel))
  }

  /** A correspondence between the schemas of two documents that structure cannot tell apart. */
  ghost predicate SameStructure(rootA: Node, rootB: Node, rel: (SchemaRef, SchemaRef) -> bool) {
    forall a, b :: rel(a, b) ==> Agree(rootA, rootB, rel, a, b)
  }

  lemma SameSorted(a: Node, b: Node)
    requires multiset(TextsOf(a)) == multiset(TextsOf(b))
    ensures SortedStrings(a) == SortedStrings(b)
  {
    StringOrder();
    SortBySorted(TextsOf(a), StringLeq);
    SortBySorted(TextsOf(b), StringLeq);
    SortedUnique(SortedStrings(a), SortedStrings(b), StringLeq);
  }

  lemma SameOwnField(a: Node, b: Node, key: string)
    requires SameOwnKey(a, b, key)
    ensures OwnField(a, key) == OwnField(b, key)
  {
    if key in TEXT_KEYS && MappingValue(a, key).Some? {
      SameSorted(MappingValue(a, key).value, MappingValue(b, key).value);
    }
  }

  lemma SameOwnFields(a: Node, b: Node)
    requires SameOwn(a, b)
    ensures OwnFields(a) == OwnFields(b)
  {
    forall k | k in OWN_KEYS
      ensures OwnField(a, k) == OwnField(b, k)
    {
      SameOwnField(a, b, k);
    }
  }

  lemma {:induction false} ByNameKeys(props: seq<Property>, projections: seq<Projection>)
    requires |props| == |projections|
    ensures ByName(props, projections).Keys == Names(props)
  {
    if props != [] {
      var n := |props| - 1;
      ByNameKeys(props[..n], projections[..n]);
      NamesGrow(props, n);
      assert props[..n + 1] == props;
    }
  }

  lemma {:induction false} ByNameAt(props: seq<Property>, projections: seq<Projection>, i: nat)
    requires |props| == |projections| && UniqueNames(props) && i < |props|
    ensures props[i].name in ByName(props, projections) && ByName(props, projections)[props[i].name] == projections[i]
  {
    var n := |props| - 1;
    if i < n {
      assert props[..n][i] == props[i] && projections[..n][i] == projections[i];
      assert props[i].name != props[n].name;
      ByNameAt(props[..n], projections[..n], i);
    }
  }

  lemma ByNameEqual(a: seq<Property>, pa: seq<Projection>, b: seq<Property>, pb: seq<Projection>)
    requires |a| == |pa| && |b| == |pb| && UniqueNames(a) && UniqueNames(b) && Names(a) == Names(b)
    requires forall i, j :: 0 <= i < |a| && 0 <= j < |b| && a[i].name == b[j].name ==> pa[i] == pb[j]
    ensures ByName(a, pa) == ByName(b, pb)
  {
    ByNameKeys(a, pa);
    ByNameKeys(b, pb);
    forall name | name in Names(a)
      ensures ByName(a, pa)[name] == ByName(b, pb)[name]
    {
      var i :| 0 <= i < |a| && a[i].name == name;
      assert name in Names(b);
      var j :| 0 <= j < |b| && b[j].name == name;
      ByNameAt(a, pa, i);
      ByNameAt(b, pb, j);
    }
  }

  lemma ChildrenTail(root: Node, active: set<string>, resolved: SchemaRef, key: string, i: nat, j: nat)
    requires key in CHILD_KEYS && i < j < |ChildRefs(resolved, key)|
    requires ProjectChildren(root, active, resolved, key, i).Ok?
    ensures ProjectChildren(root, active, resolved, key, i + 1).Ok?
    ensures ProjectChildren(root, active, resolved, key, i + 1).value[j - i - 1] ==
              ProjectChildren(root, active, resolved, key, i).value[j - i]
  {
    var rest := ProjectChildren(root, active, resolved, key, i + 1);
    assert rest.Ok? && ProjectChildren(root, active, resolved, key, i).value[1..] == rest.value;
  }

  /** In the projections from the `i`-th child on, child `j` has its own projection. */
  lemma {:induction false} ChildrenPointwise(root: Node, active: set<string>, resolved: SchemaRef, key: string, i: nat,
      j: nat)
    requires key in CHILD_KEYS && i <= j < |ChildRefs(resolved, key)|
    requires ProjectChildren(root, active, resolved, key, i).Ok?
    ensures Project(root, active, ChildRefs(resolved, key)[j]) ==
              Ok(ProjectChildren(root, active, resolved, key, i).value[j - i])
    decreases j - i
  {
    if i < j {
      ChildrenTail(root, active, resolved, key, i, j);
      ChildrenPointwise(root, active, resolved, key, i + 1, j);
    } else {
      ChildrenHead(root, active, resolved, key, i);
    }
  }

  lemma ChildrenHead(root: Node, active: set<string>, resolved: SchemaRef, key: string, i: nat)
    requires key in CHILD_KEYS && i < |ChildRefs(resolved, key)| && ProjectChildren(root, active, resolved, key, i).Ok?
    ensures Project(root, active, ChildRefs(resolved, key)[i]) ==
              Ok(ProjectChildren(root, active, resolved, key, i).value[0])
  {
  }

  lemma {:induction false} FailingChild(root: Node, active: set<string>, resolved: SchemaRef, key: string, i: nat)
      returns (j: nat)
    requires key in CHILD_KEYS && i <= |ChildRefs(resolved, key)|
    requires ProjectChildren(root, active, resolved, key, i).Err?
    ensures i <= j < |ChildRefs(resolved, key)| && Project(root, active, ChildRefs(resolved, key)[j]).Err?
    decreases |ChildRefs(resolved, key)| - i
  {
    if Project(root, active, ChildRefs(resolved, key)[i]).Err? {
      j := i;
    } else {
      j := FailingChild(root, active, resolved, key, i + 1);
    }
  }

  lemma ChildrenSucceed(root: Node, active: set<string>, resolved: SchemaRef, key: string)
    requires key in CHILD_KEYS
    requires forall j :: 0 <= j < |ChildRefs(resolved, key)| ==>
               Project(root, active, ChildRefs(resolved, key)[j]).Ok?
    ensures ProjectChildren(root, active, resolved, key, 0).Ok?
  {
    if ProjectChildren(root, active, resolved, key, 0).Err? {
      var j := FailingChild(root, active, resolved, key, 0);
    }
  }

  /** Documents that agree on structural keys project alike, and the projection exists: documentation
      edits and reorderings keep the fingerprint. */
  lemma {:induction false} SameStructureSameProjection(rootA: Node, rootB: Node, rel: (SchemaRef, SchemaRef) -> bool,
      active: set<string>, a: SchemaRef, b: SchemaRef)
    requires SameStructure(rootA, rootB, rel) && rel(a, b)
    ensures Project(rootA, active, a).Ok? && Project(rootA, active, a) == Project(rootB, active, b)
    decreases Budget(rootA, active, a), 0, 0
  {
    assert Agree(rootA, rootB, rel, a, b);
    var ra, rb := Resolve(rootA, a).value, Resolve(rootB, b).value;
    if ra.pointer !in active {
      BudgetDrops(rootA, active, a, ra);
      SameOwnFields(ra.node, rb.node);
      SameKeys(rootA, rootB, rel, active + {ra.pointer}, ra, rb, 0);
    }
  }

  /** So they have the same fingerprint, whatever the hash. */
  lemma SameStructureSameFingerprint(rootA: Node, rootB: Node, rel: (SchemaRef, SchemaRef) -> bool, a: SchemaRef,
      b: SchemaRef, hash: Projection -> string)
    requires SameStructure(rootA, rootB, rel) && rel(a, b)
    ensures FingerprintOf(rootA, a, hash).Ok? && FingerprintOf(rootA, a, hash) == FingerprintOf(rootB, b, hash)
  {
    SameStructureSameProjection(rootA, rootB, rel, {}, a, b);
  }

  lemma {:induction false} SameKeys(rootA: Node, rootB: Node, rel: (SchemaRef, SchemaRef) -> bool, active: set<string>,
      ra: SchemaRef, rb: SchemaRef, k: nat)
    requires SameStructure(rootA, rootB, rel) && k <= |CHILD_KEYS|
    requires forall k :: 0 <= k < |CHILD_KEYS| ==> SameChildren(ra, rb, CHILD_KEYS[k], rel)
    ensures ProjectKeys(rootA, active, ra, k).Ok? &&
              ProjectKeys(rootA, active, ra, k) == ProjectKeys(rootB, active, rb, k)
    decreases Budget(rootA, active, ra), 2, |CHILD_KEYS| - k
  {
    if k < |CHILD_KEYS| {
      SameKeys(rootA, rootB, rel, active, ra, rb, k + 1);
      SameKey(rootA, rootB, rel, active, ra, rb, CHILD_KEYS[k]);
    }
  }

  lemma {:induction false} SameKey(rootA: Node, rootB: Node, rel: (SchemaRef, SchemaRef) -> bool, active: set<string>,
      ra: SchemaRef, rb: SchemaRef, key: string)
    requires SameStructure(rootA, rootB, rel) && key in CHILD_KEYS && SameChildren(ra, rb, key, rel)
    ensures ProjectChildren(rootA, active, ra, key, 0).Ok? && ProjectChildren(rootB, active, rb, key, 0).Ok?
    ensures Wrap(ra, key, ProjectChildren(rootA, active, ra, key, 0).value) ==
              Wrap(rb, key, ProjectChildren(rootB, active, rb, key, 0).value)
    decreases Budget(rootA, active, ra), 1, 0
  {
    var ca, cb := ChildRefs(ra, key), ChildRefs(rb, key);
    forall i, j | 0 <= i < |ca| && 0 <= j < |cb| && rel(ca[i], cb[j])
      ensures SameAt(rootA, rootB, active, ca[i], cb[j])
    {
      ChildBudget(rootA, active, ra, key, i);
      SameStructureSameProjection(rootA, rootB, rel, active, ca[i], cb[j]);
    }
    SameWrap(rootA, rootB, rel, active, ra, rb, key);
  }

  lemma SameWrap(rootA: Node, rootB: Node, rel: (SchemaRef, SchemaRef) -> bool, active: set<string>, ra: SchemaRef,
      rb: SchemaRef, key: string)
    requires key in CHILD_KEYS && SameChildren(ra, rb, key, rel)
    requires
      var as_, bs := ChildRefs(ra, key), ChildRefs(rb, key);
      forall i, j :: 0 <= i < |as_| && 0 <= j < |bs| && rel(as_[i], bs[j]) ==>
                       SameAt(rootA, rootB, active, as_[i], bs[j])
    ensures ProjectChildren(rootA, active, ra, key, 0).Ok? && ProjectChildren(rootB, active, rb, key, 0).Ok?
    ensures Wrap(ra, key, ProjectChildren(rootA, active, ra, key, 0).value) ==
              Wrap(rb, key, ProjectChildren(rootB, active, rb, key, 0).value)
  {
    if MappingValue(ra.node, key).None? {
    } else if key == "properties" {
      SameNamedChildren(rootA, rootB, rel, active, ra, rb);
    } else {
      forall i | 0 <= i < |ChildRefs(ra, key)|
        ensures SameAt(rootA, rootB, active, ChildRefs(ra, key)[i], ChildRefs(rb, key)[i])
      {
        assert rel(ChildRefs(ra, key)[i], ChildRefs(rb, key)[i]);
      }
      SameListedChildren(rootA, rootB, active, ra, rb, key);
    }
  }

  /** Both projections exist and are equal. */
  ghost predicate SameAt(rootA: Node, rootB: Node, active: set<string>, a: SchemaRef, b: SchemaRef) {
    Project(rootA, active, a).Ok? && Project(rootA, active, a) == Project(rootB, active, b)
  }

  lemma SamePoint(rootA: Node, rootB: Node, active: set<string>, ra: SchemaRef, rb: SchemaRef, key: string, i: nat,
      j: nat)
    requires key in CHILD_KEYS && i < |ChildRefs(ra, key)| && j < |ChildRefs(rb, key)|
    requires ProjectChildren(rootA, active, ra, key, 0).Ok? && ProjectChildren(rootB, active, rb, key, 0).Ok?
    requires SameAt(rootA, rootB, active, ChildRefs(ra, key)[i], ChildRefs(rb, key)[j])
    ensures ProjectChildren(rootA, active, ra, key, 0).value[i] == ProjectChildren(rootB, active, rb, key, 0).value[j]
  {
    ChildrenPointwise(rootA, active, ra, key, 0, i);
    ChildrenPointwise(rootB, active, rb, key, 0, j);
  }

  lemma SameListedChildren(rootA: Node, rootB: Node, active: set<string>, ra: SchemaRef, rb: SchemaRef, key: string)
    requires key in CHILD_KEYS && |ChildRefs(ra, key)| == |ChildRefs(rb, key)|
    requires forall i :: 0 <= i < |ChildRefs(ra, key)| ==>
               SameAt(rootA, rootB, active, ChildRefs(ra, key)[i], ChildRefs(rb, key)[i])
    ensures ProjectChildren(rootA, active, ra, key, 0).Ok?
    ensures ProjectChildren(rootA, active, ra, key, 0) == ProjectChildren(rootB, active, rb, key, 0)
  {
    var ca, cb := ChildRefs(ra, key), ChildRefs(rb, key);
    forall i | 0 <= i < |ca|
      ensures Project(rootA, active, ca[i]).Ok? && Project(rootB, active, cb[i]).Ok?
    {
      assert SameAt(rootA, rootB, active, ca[i], cb[i]);
    }
    ChildrenSucceed(rootA, active, ra, key);
    ChildrenSucceed(rootB, active, rb, key);
    var pa, pb := ProjectChildren(rootA, active, ra, key, 0).value, ProjectChildren(rootB, active, rb, key, 0).value;
    forall i | 0 <= i < |ca|
      ensures pa[i] == pb[i]
    {
      SamePoint(rootA, rootB, active, ra, rb, key, i, i);
    }
    assert pa == pb;
  }

  lemma PropertyChildren(ref: SchemaRef)
    requires MappingValue(ref.node, "properties").Some?
    ensures |ChildRefs(ref, "properties")| == |OwnProperties(ref)|
    ensures forall i :: 0 <= i < |OwnProperties(ref)| ==> ChildRefs(ref, "properties")[i] == OwnProperties(ref)[i].ref
  {
  }

  lemma SameNamedChildren(rootA: Node, rootB: Node, rel: (SchemaRef, SchemaRef) -> bool, active: set<string>,
      ra: SchemaRef, rb: SchemaRef)
    requires SameChildren(ra, rb, "properties", rel) && MappingValue(ra.node, "properties").Some?
    requires forall i, j :: 0 <= i < |ChildRefs(ra, "properties")| && 0 <= j < |ChildRefs(rb, "properties")| &&
                            rel(ChildRefs(ra, "properties")[i], ChildRefs(rb, "properties")[j]) ==>
                              SameAt(rootA, rootB, active, ChildRefs(ra, "properties")[i],
                                  ChildRefs(rb, "properties")[j])
    ensures ProjectChildren(rootA, active, ra, "properties", 0).Ok? &&
              ProjectChildren(rootB, active, rb, "properties", 0).Ok?
    ensures ByName(OwnProperties(ra), ProjectChildren(rootA, active, ra, "properties", 0).value) ==
            ByName(OwnProperties(rb), ProjectChildren(rootB, active, rb, "properties", 0).value)
  {
    PropertyChildren(ra);
    PropertyChildren(rb);
    var a, b := OwnProperties(ra), OwnProperties(rb);
    forall i, j | 0 <= i < |a| && 0 <= j < |b| && a[i].name == b[j].name
      ensures SameAt(rootA, rootB, active, ChildRefs(ra, "properties")[i], ChildRefs(rb, "properties")[j])
    {
      assert rel(a[i].ref, b[j].ref);
    }
    SamePropertyChildren(rootA, rootB, active, ra, rb, "properties", a, b);
  }

  lemma SamePropertyChildren(rootA: Node, rootB: Node, active: set<string>, ra: SchemaRef, rb: SchemaRef, key: string,
      a: seq<Property>, b: seq<Property>)
    requires key in CHILD_KEYS && |ChildRefs(ra, key)| == |a| && |ChildRefs(rb, key)| == |b|
    requires UniqueNames(a) && UniqueNames(b) && Names(a) == Names(b)
    requires forall i, j :: 0 <= i < |a| && 0 <= j < |b| && a[i].name == b[j].name ==>
                              SameAt(rootA, rootB, active, ChildRefs(ra, key)[i], ChildRefs(rb, key)[j])
    ensures ProjectChildren(rootA, active, ra, key, 0).Ok? && ProjectChildren(rootB, active, rb, key, 0).Ok?
    ensures ByName(a, ProjectChildren(rootA, active, ra, key, 0).value) ==
              ByName(b, ProjectChildren(rootB, active, rb, key, 0).value)
  {
    var ca, cb := ChildRefs(ra, key), ChildRefs(rb, key);
    forall i | 0 <= i < |a|
      ensures Project(rootA, active, ca[i]).Ok?
    {
      assert a[i].name in Names(b);
      var j :| 0 <= j < |b| && b[j].name == a[i].name;
      assert SameAt(rootA, rootB, active, ca[i], cb[j]);
    }
    forall j | 0 <= j < |b|
      ensures Project(rootB, active, cb[j]).Ok?
    {
      assert b[j].name in Names(a);
      var i :| 0 <= i < |a| && a[i].name == b[j].name;
      assert SameAt(rootA, rootB, active, ca[i], cb[j]);
    }
    ChildrenSucceed(rootA, active, ra, key);
    ChildrenSucceed(rootB, active, rb, key);
    var pa, pb := ProjectChildren(rootA, active, ra, key, 0).value, ProjectChildren(rootB, active, rb, key, 0).value;
    forall i, j | 0 <= i < |a| && 0 <= j < |b| && a[i].name == b[j].name
      ensures pa[i] == pb[j]
    {
      SamePoint(rootA, rootB, active, ra, rb, key, i, j);
    }
    ByNameEqual(a, pa, b, pb);
  }

  // ---- and all structure counts ----

  lemma OwnAndChildKeysDiffer(key: string)
    requires key in CHILD_KEYS
    ensures key !in OWN_KEYS
  {
  }

  lemma ChildKeysDistinct(i: nat, j: nat)
    requires i < j < |CHILD_KEYS|
    ensures CHILD_KEYS[i] != CHILD_KEYS[j]
  {
  }

  lemma WrapKeys(ref: SchemaRef, key: string, projections: seq<Projection>)
    requires |projections| == |ChildRefs(ref, key)|
    ensures Wrap(ref, key, projections).Keys == if MappingValue(ref.node, key).Some? then {key} else {}
  {
    if MappingValue(ref.node, key).Some? {
      OneKey(ref, key, projections);
    }
  }

  lemma OneKey(ref: SchemaRef, key: string, projections: seq<Projection>)
    requires |projections| == |ChildRefs(ref, key)| && MappingValue(ref.node, key).Some?
    ensures exists p :: Wrap(ref, key, projections) == map[key := p]
  {
    var wrapped := Wrap(ref, key, projections);
    assert key in wrapped;
    assert wrapped == map[key := wrapped[key]];
  }

  ghost predicate OnlyChildKeysFrom(m: map<string, Projection>, k: nat) {
    forall x :: x in m ==> exists j :: k <= j < |CHILD_KEYS| && CHILD_KEYS[j] == x
  }

  lemma {:induction false} KeysFrom(root: Node, active: set<string>, resolved: SchemaRef, k: nat)
    requires k <= |CHILD_KEYS| && ProjectKeys(root, active, resolved, k).Ok?
    ensures OnlyChildKeysFrom(ProjectKeys(root, active, resolved, k).value, k)
    decreases |CHILD_KEYS| - k
  {
    if k < |CHILD_KEYS| {
      KeysFrom(root, active, resolved, k + 1);
      WrapKeys(resolved, CHILD_KEYS[k], ProjectChildren(root, active, resolved, CHILD_KEYS[k], 0).value);
    }
  }

  lemma KeyNotLater(root: Node, active: set<string>, resolved: SchemaRef, k: nat)
    requires k < |CHILD_KEYS| && ProjectKeys(root, active, resolved, k + 1).Ok?
    ensures CHILD_KEYS[k] !in ProjectKeys(root, active, resolved, k + 1).value
  {
    var rest := ProjectKeys(root, active, resolved, k + 1).value;
    KeysFrom(root, active, resolved, k + 1);
    if CHILD_KEYS[k] in rest {
      var l :| k + 1 <= l < |CHILD_KEYS| && CHILD_KEYS[l] == CHILD_KEYS[k];
      ChildKeysDistinct(k, l);
      assert false;
    }
  }

  /** `all` has `key` exactly when `part` does, with the same value. */
  ghost predicate AgreeAt(all: map<string, Projection>, part: map<string, Projection>, key: string) {
    (key in all <==> key in part) && (key in all ==> all[key] == part[key])
  }

  lemma AgreeLeft(here: map<string, Projection>, rest: map<string, Projection>, key: string)
    requires key !in rest
    ensures AgreeAt(here + rest, here, key)
  {
  }

  lemma AgreeRight(here: map<string, Projection>, rest: map<string, Projection>, part: map<string, Projection>,
      key: string)
    requires key !in here && AgreeAt(rest, part, key)
    ensures AgreeAt(here + rest, part, key)
  {
  }

  lemma KeysStep(root: Node, active: set<string>, resolved: SchemaRef, k: nat)
    requires k < |CHILD_KEYS| && ProjectKeys(root, active, resolved, k).Ok?
    ensures ProjectChildren(root, active, resolved, CHILD_KEYS[k], 0).Ok? &&
              ProjectKeys(root, active, resolved, k + 1).Ok?
    ensures ProjectKeys(root, active, resolved, k).value ==
            Wrap(resolved, CHILD_KEYS[k], ProjectChildren(root, active, resolved, CHILD_KEYS[k],
                0).value) + ProjectKeys(root, active, resolved, k + 1).value
  {
  }

  /** What a projection holds under a child keyword is the wrapped projections of those children. */
  lemma {:induction false} KeysAt(root: Node, active: set<string>, resolved: SchemaRef, k: nat, j: nat)
    requires k <= j < |CHILD_KEYS| && ProjectKeys(root, active, resolved, k).Ok?
    ensures ProjectChildren(root, active, resolved, CHILD_KEYS[j], 0).Ok?
    ensures AgreeAt(ProjectKeys(root, active, resolved, k).value,
                    Wrap(resolved, CHILD_KEYS[j], ProjectChildren(root, active, resolved, CHILD_KEYS[j], 0).value),
                        CHILD_KEYS[j])
    decreases |CHILD_KEYS| - k
  {
    KeysStep(root, active, resolved, k);
    var here, rest := Wrap(resolved, CHILD_KEYS[k], ProjectChildren(root, active, resolved, CHILD_KEYS[k], 0).value),
                      ProjectKeys(root, active, resolved, k + 1).value;
    if k == j {
      KeyNotLater(root, active, resolved, k);
      AgreeLeft(here, rest, CHILD_KEYS[k]);
    } else {
      KeysAt(root, active, resolved, k + 1, j);
      WrapKeys(resolved, CHILD_KEYS[k], ProjectChildren(root, active, resolved, CHILD_KEYS[k], 0).value);
      ChildKeysDistinct(k, j);
      AgreeRight(here, rest, Wrap(resolved, CHILD_KEYS[j],
          ProjectChildren(root, active, resolved, CHILD_KEYS[j], 0).value), CHILD_KEYS[j]);
    }
  }

  ghost predicate SameWrapped(rootA: Node, activeA: set<string>, ra: SchemaRef, rootB: Node, activeB: set<string>,
      rb: SchemaRef, key: string)
    requires key in CHILD_KEYS
  {
    && MappingValue(ra.node, key).Some? == MappingValue(rb.node, key).Some?
    && ProjectChildren(rootA, activeA, ra, key, 0).Ok? && ProjectChildren(rootB, activeB, rb, key, 0).Ok?
    && Wrap(ra, key, ProjectChildren(rootA, activeA, ra, key, 0).value) ==
        Wrap(rb, key, ProjectChildren(rootB, activeB, rb, key, 0).value)
  }

  lemma ProjectedKey(rootA: Node, activeA: set<string>, ra: SchemaRef, rootB: Node, activeB: set<string>, rb: SchemaRef,
      j: nat)
    requires j < |CHILD_KEYS|
    requires ProjectKeys(rootA, activeA, ra, 0).Ok? && ProjectKeys(rootB, activeB, rb, 0).Ok?
    requires OwnFields(ra.node) + ProjectKeys(rootA, activeA, ra, 0).value ==
               OwnFields(rb.node) + ProjectKeys(rootB, activeB, rb, 0).value
    ensures SameWrapped(rootA, activeA, ra, rootB, activeB, rb, CHILD_KEYS[j])
  {
    KeysAt(rootA, activeA, ra, 0, j);
    KeysAt(rootB, activeB, rb, 0, j);
    var key := CHILD_KEYS[j];
    NotOwn(ra.node, key);
    NotOwn(rb.node, key);
    var pa, pb := ProjectChildren(rootA, activeA, ra, key, 0).value, ProjectChildren(rootB, activeB, rb, key, 0).value;
    AgreeBoth(OwnFields(ra.node), ProjectKeys(rootA, activeA, ra, 0).value, Wrap(ra, key, pa),
              OwnFields(rb.node), ProjectKeys(rootB, activeB, rb, 0).value, Wrap(rb, key, pb), key);
    WrappedAgree(ra, rb, key, pa, pb);
  }

  lemma NotOwn(node: Node, key: string)
    requires key in CHILD_KEYS
    ensures key !in OwnFields(node)
  {
    OwnAndChildKeysDiffer(key);
  }

  lemma WrappedAgree(ra: SchemaRef, rb: SchemaRef, key: string, pa: seq<Projection>, pb: seq<Projection>)
    requires |pa| == |ChildRefs(ra, key)| && |pb| == |ChildRefs(rb, key)|
    requires AgreeAt(Wrap(ra, key, pa), Wrap(rb, key, pb), key)
    ensures MappingValue(ra.node, key).Some? == MappingValue(rb.node, key).Some?
    ensures Wrap(ra, key, pa) == Wrap(rb, key, pb)
  {
    WrapKeys(ra, key, pa);
    WrapKeys(rb, key, pb);
  }

  lemma AgreeBoth(ownA: map<string, Projection>, allA: map<string, Projection>, wa: map<string, Projection>,
                  ownB: map<string, Projection>, allB: map<string, Projection>, wb: map<string, Projection>,
                      key: string)
    requires key !in ownA && key !in ownB && ownA + allA == ownB + allB
    requires AgreeAt(allA, wa, key) && AgreeAt(allB, wb, key)
    ensures AgreeAt(wa, wb, key)
  {
    var whole := ownA + allA;
    assert key in whole <==> key in allA;
    assert key in whole <==> key in allB;
    if key in allA {
      assert whole[key] == allA[key] == allB[key];
    }
  }

  lemma SortedSame(a: Node, b: Node)
    requires SortedStrings(a) == SortedStrings(b)
    ensures multiset(TextsOf(a)) == multiset(TextsOf(b))
  {
  }

  lemma ProjectedOwn(rootA: Node, activeA: set<string>, ra: SchemaRef, rootB: Node, activeB: set<string>, rb: SchemaRef,
      key: string)
    requires key in OWN_KEYS
    requires ProjectKeys(rootA, activeA, ra, 0).Ok? && ProjectKeys(rootB, activeB, rb, 0).Ok?
    requires OwnFields(ra.node) + ProjectKeys(rootA, activeA, ra, 0).value ==
               OwnFields(rb.node) + ProjectKeys(rootB, activeB, rb, 0).value
    ensures SameOwnKey(ra.node, rb.node, key)
  {
    var pa, pb := ProjectKeys(rootA, activeA, ra, 0).value, ProjectKeys(rootB, activeB, rb, 0).value;
    KeysFrom(rootA, activeA, ra, 0);
    KeysFrom(rootB, activeB, rb, 0);
    assert key !in pa && key !in pb by {
      forall j | 0 <= j < |CHILD_KEYS|
        ensures CHILD_KEYS[j] != key
      {
        OwnAndChildKeysDiffer(CHILD_KEYS[j]);
      }
    }
    assert OwnField(ra.node, key).Some? <==> key in OwnFields(ra.node) + pa;
    assert OwnField(rb.node, key).Some? <==> key in OwnFields(rb.node) + pb;
    if OwnField(ra.node, key).Some? {
      assert (OwnFields(ra.node) + pa)[key] == OwnField(ra.node, key).value;
      assert (OwnFields(rb.node) + pb)[key] == OwnField(rb.node, key).value;
      if key in TEXT_KEYS {
        SortedSame(MappingValue(ra.node, key).value, MappingValue(rb.node, key).value);
      }
    }
  }

  /** Equal projections come from equal structure: the same own keys up to order, the same child
      keywords, and equal projections beneath each of them. */
  lemma SameProjectionSameStructure(rootA: Node, activeA: set<string>, ra: SchemaRef, rootB: Node,
      activeB: set<string>, rb: SchemaRef)
    requires ProjectKeys(rootA, activeA, ra, 0).Ok? && ProjectKeys(rootB, activeB, rb, 0).Ok?
    requires OwnFields(ra.node) + ProjectKeys(rootA, activeA, ra, 0).value ==
               OwnFields(rb.node) + ProjectKeys(rootB, activeB, rb, 0).value
    ensures SameOwn(ra.node, rb.node)
    ensures forall j :: 0 <= j < |CHILD_KEYS| ==> SameWrapped(rootA, activeA, ra, rootB, activeB, rb, CHILD_KEYS[j])
  {
    forall key | key in OWN_KEYS
      ensures SameOwnKey(ra.node, rb.node, key)
    {
      ProjectedOwn(rootA, activeA, ra, rootB, activeB, rb, key);
    }
    forall j | 0 <= j < |CHILD_KEYS|
      ensures SameWrapped(rootA, activeA, ra, rootB, activeB, rb, CHILD_KEYS[j])
    {
      ProjectedKey(rootA, activeA, ra, rootB, activeB, rb, j);
    }
  }
}

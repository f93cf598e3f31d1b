/** The OpenAPI document of the gap analyser as YAML nodes, the JSON pointers that address them, and
    `$ref` resolution. */
module Oas {
  import opened Text
  import opened JsonPointer

  datatype Node =
    | Scalar(value: string)
    | Sequence(items: seq<Node>)
    | Mapping(entries: seq<Entry>)

  datatype Entry = Entry(key: string, value: Node)

  /** A node together with its JSON pointer inside the document. */
  datatype SchemaRef = SchemaRef(node: Node, pointer: string)

  datatype Error =
    | NonLocalRef(target: string)
    | BadIndex(pointer: string, token: string)
    | NotFound(pointer: string, token: string)
    | ChainTooDeep(pointer: string)
    | BranchMismatch(pointer: string, branches: nat, variants: nat)
    | UnmatchedProperty(name: string, pointer: string)
    | UnmatchedFields(names: set<string>)
    | NoParamsStruct
    | HashFailure

  datatype Result<+T> = Ok(value: T) | Err(error: Error)

  // ---- Mapping access ----

  function FindEntry(entries: seq<Entry>, key: string): (r: Option<Node>)
    ensures r.Some? <==> exists i :: 0 <= i < |entries| && entries[i].key == key
    ensures r.Some? ==> exists i :: 0 <= i < |entries| && entries[i] == Entry(key, r.value) &&
                                    forall j :: 0 <= j < i ==> entries[j].key != key
  {
    if entries == [] then None
    else if entries[0].key == key then
      assert entries[0] == Entry(key, entries[0].value);
      Some(entries[0].value)
    else
      var rest := FindEntry(entries[1..], key);
      assert forall i :: 0 <= i < |entries[1..]| ==> entries[1..][i] == entries[i + 1];
      assert rest.Some? ==> exists i :: 0 < i < |entries| && entries[i] == Entry(key, rest.value) &&
                                        forall j :: 0 <= j < i ==> entries[j].key != key by {
        if rest.Some? {
          var i :| 0 <= i < |entries[1..]| && entries[1..][i] == Entry(key, rest.value) &&
                   forall j :: 0 <= j < i ==> entries[1..][j].key != key;
          assert entries[i + 1] == Entry(key, rest.value);
          forall j | 0 <= j < i + 1
            ensures entries[j].key != key
          {
            if j > 0 { assert entries[1..][j - 1] == entries[j]; }
          }
        }
      }
      rest
  }

  function MappingValue(node: Node, key: string): Option<Node> {
    if node.Mapping? then FindEntry(node.entries, key) else None
  }

  /** The search loop of `mappingValue`: the first entry with that key. */
  method SearchMapping(node: Node, key: string) returns (r: Option<Node>)
    ensures r == MappingValue(node, key)
  {
    if !node.Mapping? {
      return None;
    }
    var i := 0;
    while i < |node.entries|
      invariant 0 <= i <= |node.entries|
      invariant FindEntry(node.entries, key) == FindEntry(node.entries[i..], key)
    {
      if node.entries[i].key == key {
        return Some(node.entries[i].value);
      }
      assert node.entries[i..][1..] == node.entries[i + 1..];
      i := i + 1;
    }
    return None;
  }

  function StringValue(node: Node, key: string): string {
    var v := MappingValue(node, key);
    if v.Some? && v.value.Scalar? then v.value.value else ""
  }

  predicate BoolValue(node: Node, key: string) {
    StringValue(node, key) == "true"
  }

  /** The items of a sequence; anything else holds none. */
  function Items(node: Node): seq<Node> {
    if node.Sequence? then node.items else []
  }

  /** The entries of a mapping; anything else holds none. */
  function Entries(node: Node): seq<Entry> {
    if node.Mapping? then node.entries else []
  }

  // ---- Lookup (section 4 of RFC 6901) ----

  /** fmt.Sscanf with %d: leading blanks, a sign, then as many digits as there are.  A number too
      big for an int is an error there and out of range here, which `lookup` does not tell apart. */
  function ScanIndex(token: string): Option<int> {
    var s := SkipBlanks(token);
    var negative := s != [] && s[0] == '-';
    var digits := DigitPrefix(if s != [] && (s[0] == '-' || s[0] == '+') then s[1..] else s);
    if digits == [] then None
    else var n: int := DigitsValue(digits);
      Some(if negative then -n else n)
  }

  function SkipBlanks(s: string): string {
    if s != [] && (s[0] == ' ' || s[0] == '\t') then SkipBlanks(s[1..]) else s
  }

  function DigitPrefix(s: string): (r: string)
    ensures AllDigits(r)
  {
    if s != [] && IsDigit(s[0]) then [s[0]] + DigitPrefix(s[1..]) else []
  }

  lemma {:induction false} DigitPrefixAll(s: string)
    requires AllDigits(s)
    ensures DigitPrefix(s) == s
  {
    if s != [] {
      DigitPrefixAll(s[1..]);
      assert s == [s[0]] + s[1..];
    }
  }

  lemma ScanDecimal(n: nat)
    ensures ScanIndex(Decimal(n)) == Some(n)
    ensures UnescapeToken(Decimal(n)) == Decimal(n)
    ensures '/' !in Decimal(n)
  {
    var s := Decimal(n);
    assert IsDigit(s[0]);
    DigitPrefixAll(s);
    DecimalValue(n);
    UnescapePlain(s);
  }

  /** One step of `lookup`. */
  function Step(node: Node, token: string): Option<Node> {
    if node.Sequence? then
      var index := ScanIndex(token);
      if index.Some? && 0 <= index.value < |node.items| then Some(node.items[index.value]) else None
    else MappingValue(node, token)
  }

  function Walk(node: Node, tokens: seq<string>, pointer: string): Result<Node> {
    if tokens == [] then Ok(node)
    else
      var token := UnescapeToken(tokens[0]);
      var next := Step(node, token);
      if next.Some? then Walk(next.value, tokens[1..], pointer)
      else if node.Sequence? then Err(BadIndex(pointer, token))
      else Err(NotFound(pointer, token))
  }

  function Tokens(pointer: string): seq<string> {
    Split(TrimPrefix(pointer, "/"), '/')
  }

  function Lookup(root: Node, pointer: string): Result<Node> {
    Walk(root, Tokens(pointer), pointer)
  }

  /** The loop of `lookup`. */
  method LookupLoop(root: Node, pointer: string) returns (r: Result<Node>)
    ensures r == Lookup(root, pointer)
  {
    var node := root;
    var tokens := Tokens(pointer);
    var i := 0;
    while i < |tokens|
      invariant 0 <= i <= |tokens|
      invariant Lookup(root, pointer) == Walk(node, tokens[i..], pointer)
    {
      var token := UnescapeToken(tokens[i]);
      assert tokens[i..][1..] == tokens[i + 1..];
      if node.Sequence? {
        var index := ScanIndex(token);
        if index.None? || index.value < 0 || index.value >= |node.items| {
          return Err(BadIndex(pointer, token));
        }
        node := node.items[index.value];
      } else {
        var next := SearchMapping(node, token);
        if next.None? {
          return Err(NotFound(pointer, token));
        }
        node := next.value;
      }
      i := i + 1;
    }
    return Ok(node);
  }

  lemma {:induction false} WalkAppend(node: Node, tokens: seq<string>, last: string, pointer: string, pointer': string)
    requires Walk(node, tokens, pointer).Ok?
    requires Step(Walk(node, tokens, pointer).value, UnescapeToken(last)).Some?
    ensures Walk(node, tokens + [last], pointer') ==
            Ok(Step(Walk(node, tokens, pointer).value, UnescapeToken(last)).value)
  {
    if tokens == [] {
      assert (tokens + [last])[1..] == [];
    } else {
      assert (tokens + [last])[1..] == tokens[1..] + [last];
      WalkAppend(Step(node, UnescapeToken(tokens[0])).value, tokens[1..], last, pointer, pointer');
    }
  }

  // ---- $ref resolution ----

  const MAX_REF_CHAIN: nat := 64

  function RefTarget(root: Node, target: string): Result<SchemaRef> {
    if !HasPrefix(target, "#") then Err(NonLocalRef(target))
    else
      var pointer := target[1..];
      match Lookup(root, pointer)
      case Err(e) => Err(e)
      case Ok(node) => Ok(SchemaRef(node, pointer))
  }

  /** What one turn of `resolve` does: stop with a result, or go on from the target of the `$ref`. */
  datatype Hop = Stop(result: Result<SchemaRef>) | Go(next: SchemaRef)

  function HopFrom(root: Node, ref: SchemaRef): Hop {
    var target := StringValue(ref.node, "$ref");
    if target == "" then Stop(Ok(ref))
    else
      match RefTarget(root, target)
      case Err(e) => Stop(Err(e))
      case Ok(next) => Go(next)
  }

  function Chase(hop: SchemaRef -> Hop, ref: SchemaRef, hops: nat): Result<SchemaRef>
    decreases hops, ref
  {
    if hops == 0 then Err(ChainTooDeep(ref.pointer))
    else
      match hop(ref)
      case Stop(r) => r
      case Go(next) => Chase(hop, next, hops - 1)
  }

  function Hops(root: Node): SchemaRef -> Hop {
    ref => HopFrom(root, ref)
  }

  function Resolve(root: Node, ref: SchemaRef): Result<SchemaRef> {
    Chase(Hops(root), ref, MAX_REF_CHAIN)
  }

  /** `hop` is what one turn does from `ref`. */
  ghost predicate IsTurn(root: Node, hop: SchemaRef -> Hop, ref: SchemaRef) {
    hop(ref) == HopFrom(root, ref)
  }

  ghost predicate AreTurns(root: Node, hop: SchemaRef -> Hop) {
    forall ref :: IsTurn(root, hop, ref)
  }

  /** The body of the loop of `resolve`. */
  method ResolveTurn(root: Node, current: SchemaRef, ghost hop: SchemaRef -> Hop) returns (turn: Hop)
    requires AreTurns(root, hop)
    ensures turn == hop(current)
  {
    assert IsTurn(root, hop, current);
    var target := StringValue(current.node, "$ref");
    if target == "" {
      return Stop(Ok(current));
    }
    if !HasPrefix(target, "#") {
      return Stop(Err(NonLocalRef(target)));
    }
    var found := LookupLoop(root, target[1..]);
    if found.Err? {
      return Stop(Err(found.error));
    }
    return Go(SchemaRef(found.value, target[1..]));
  }

  /** The bounded loop of `resolve`. */
  method ChaseLoop(root: Node, ref: SchemaRef, bound: nat, ghost hop: SchemaRef -> Hop) returns (r: Result<SchemaRef>)
    requires AreTurns(root, hop)
    ensures r == Chase(hop, ref, bound)
  {
    var current := ref;
    var left := bound;
    while left > 0
      invariant Chase(hop, ref, bound) == Chase(hop, current, left)
    {
      var turn := ResolveTurn(root, current, hop);
      if turn.Stop? {
        return turn.result;
      }
      current := turn.next;
      left := left - 1;
    }
    return Err(ChainTooDeep(current.pointer));
  }

  /** `resolve`. */
  method ResolveLoop(root: Node, ref: SchemaRef) returns (r: Result<SchemaRef>)
    ensures r == Resolve(root, ref)
  {
    forall x
      ensures IsTurn(root, Hops(root), x)
    {
    }
    r := ChaseLoop(root, ref, MAX_REF_CHAIN, Hops(root));
  }

  // ---- The finite set of refs a walk can meet ----

  /** A ref and everything beneath it in the tree, each with its pointer. */
  ghost function SubRefs(ref: SchemaRef): set<SchemaRef>
    decreases ref.node
  {
    match ref.node
    case Scalar(_) => {ref}
    case Sequence(items) =>
      {ref} + (set i, r | 0 <= i < |items| && r in SubRefs(SchemaRef(items[i], ref.pointer + "/" + Decimal(i))) :: r)
    case Mapping(entries) =>
      {ref} + (set i, r | 0 <= i < |entries| &&
                          r in SubRefs(SchemaRef(entries[i].value, ref.pointer + "/" + EscapeToken(entries[i].key))) ::
                              r)
  }

  /** Every `$ref` string in a tree. */
  ghost function RefStrings(node: Node): set<string>
    decreases node
  {
    match node
    case Scalar(_) => {}
    case Sequence(items) => set i, t | 0 <= i < |items| && t in RefStrings(items[i]) :: t
    case Mapping(entries) =>
      {StringValue(node, "$ref")} + (set i, t | 0 <= i < |entries| && t in RefStrings(entries[i].value) :: t)
  }

  /** Everything a walk from `ref` can meet: what lies beneath it or beneath the target of a `$ref`
      of the document. */
  ghost function Reach(root: Node, ref: SchemaRef): set<SchemaRef> {
    SubRefs(ref) +
    (set t, r | t in RefStrings(ref.node) + RefStrings(root) && RefTarget(root, t).Ok? &&
                r in SubRefs(RefTarget(root, t).value) :: r)
  }

  lemma {:induction false} SubRefsClosed(ref: SchemaRef, sub: SchemaRef)
    requires sub in SubRefs(ref)
    ensures SubRefs(sub) <= SubRefs(ref)
    ensures RefStrings(sub.node) <= RefStrings(ref.node)
    decreases ref.node
  {
    if sub != ref {
      match ref.node
      case Sequence(items) =>
        var i :| 0 <= i < |items| && sub in SubRefs(SchemaRef(items[i], ref.pointer + "/" + Decimal(i)));
        SubRefsClosed(SchemaRef(items[i], ref.pointer + "/" + Decimal(i)), sub);
      case Mapping(entries) =>
        var i :| 0 <= i < |entries| && sub in SubRefs(SchemaRef(entries[i].value,
            ref.pointer + "/" + EscapeToken(entries[i].key)));
        SubRefsClosed(SchemaRef(entries[i].value, ref.pointer + "/" + EscapeToken(entries[i].key)), sub);
    }
  }

  lemma {:induction false} WalkKeepsRefStrings(node: Node, tokens: seq<string>, pointer: string)
    requires Walk(node, tokens, pointer).Ok?
    ensures RefStrings(Walk(node, tokens, pointer).value) <= RefStrings(node)
    decreases tokens
  {
    if tokens != [] {
      var next := Step(node, UnescapeToken(tokens[0])).value;
      WalkKeepsRefStrings(next, tokens[1..], pointer);
      assert RefStrings(next) <= RefStrings(node);
    }
  }

  /** Closed under descending into the tree and under resolving. */
  ghost predicate Closed(root: Node, refs: set<SchemaRef>) {
    && (forall r, sub :: r in refs && sub in SubRefs(r) ==> sub in refs)
    && (forall r :: r in refs && Resolve(root, r).Ok? ==> Resolve(root, r).value in refs)
  }

  lemma OwnRefString(node: Node)
    requires StringValue(node, "$ref") != ""
    ensures StringValue(node, "$ref") in RefStrings(node)
  {
    assert node.Mapping?;
  }

  /** What can be met from a ref that can be met from `ref` can be met from `ref`. */
  lemma ReachShrinks(root: Node, ref: SchemaRef, r: SchemaRef)
    requires r in Reach(root, ref)
    ensures Reach(root, r) <= Reach(root, ref)
    ensures SubRefs(r) <= Reach(root, ref)
  {
    if r in SubRefs(ref) {
      SubRefsClosed(ref, r);
    } else {
      var t :| t in RefStrings(ref.node) + RefStrings(root) && RefTarget(root, t).Ok? &&
          r in SubRefs(RefTarget(root, t).value);
      SubRefsClosed(RefTarget(root, t).value, r);
      WalkKeepsRefStrings(root, Tokens(t[1..]), t[1..]);
    }
  }

  lemma OwnTargetInReach(root: Node, ref: SchemaRef, r: SchemaRef)
    requires r in Reach(root, ref)
    requires StringValue(r.node, "$ref") != "" && RefTarget(root, StringValue(r.node, "$ref")).Ok?
    ensures RefTarget(root, StringValue(r.node, "$ref")).value in Reach(root, ref)
  {
    var target := StringValue(r.node, "$ref");
    var next := RefTarget(root, target).value;
    OwnRefString(r.node);
    assert next in SubRefs(next);
    assert next in Reach(root, r);
    ReachShrinks(root, ref, r);
  }

  /** One turn from `x` either stops there or stays in `refs`. */
  ghost predicate HopStays(hop: SchemaRef -> Hop, refs: set<SchemaRef>, x: SchemaRef) {
    match hop(x)
    case Stop(r) => r.Ok? ==> r.value == x
    case Go(next) => next in refs
  }

  lemma {:induction false} ResolvesIn(hop: SchemaRef -> Hop, r: SchemaRef, hops: nat, refs: set<SchemaRef>)
    requires r in refs && Chase(hop, r, hops).Ok?
    requires forall x :: x in refs ==> HopStays(hop, refs, x)
    ensures Chase(hop, r, hops).value in refs
    decreases hops
  {
    assert HopStays(hop, refs, r);
    match hop(r)
    case Stop(_) =>
    case Go(next) => ResolvesIn(hop, next, hops - 1, refs);
  }

  /** The reachable set is finite (it is a `set`), contains the start and is closed. */
  lemma ReachIsClosed(root: Node, ref: SchemaRef)
    ensures ref in Reach(root, ref) && Closed(root, Reach(root, ref))
  {
    assert ref in SubRefs(ref);
    var refs := Reach(root, ref);
    forall r, sub | r in refs && sub in SubRefs(r)
      ensures sub in refs
    {
      ReachShrinks(root, ref, r);
    }
    forall r | r in refs
      ensures HopStays(Hops(root), refs, r)
    {
      if HopFrom(root, r).Go? {
        OwnTargetInReach(root, ref, r);
      }
    }
    forall r | r in refs && Resolve(root, r).Ok?
      ensures Resolve(root, r).value in refs
    {
      ResolvesIn(Hops(root), r, MAX_REF_CHAIN, refs);
    }
  }

  lemma ItemInSubRefs(ref: SchemaRef, i: nat)
    requires ref.node.Sequence? && i < |ref.node.items|
    ensures SchemaRef(ref.node.items[i], ref.pointer + "/" + Decimal(i)) in SubRefs(ref)
  {
    var sub := SchemaRef(ref.node.items[i], ref.pointer + "/" + Decimal(i));
    assert sub in SubRefs(sub);
  }

  lemma EntryInSubRefs(ref: SchemaRef, i: nat)
    requires ref.node.Mapping? && i < |ref.node.entries|
    ensures SchemaRef(ref.node.entries[i].value,
              ref.pointer + "/" + EscapeToken(ref.node.entries[i].key)) in SubRefs(ref)
  {
    var sub := SchemaRef(ref.node.entries[i].value, ref.pointer + "/" + EscapeToken(ref.node.entries[i].key));
    assert sub in SubRefs(sub);
  }

  /** The value under a keyword, at `pointer/keyword`. */
  lemma KeywordInSubRefs(ref: SchemaRef, key: string)
    requires MappingValue(ref.node, key).Some?
    requires '~' !in key && '/' !in key
    ensures SchemaRef(MappingValue(ref.node, key).value, ref.pointer + "/" + key) in SubRefs(ref)
  {
    var value := MappingValue(ref.node, key).value;
    var i :| 0 <= i < |ref.node.entries| && ref.node.entries[i] == Entry(key, value);
    EscapePlain(key);
    EntryInSubRefs(ref, i);
  }
}

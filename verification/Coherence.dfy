/** Pointer coherence: every ref the gap analyser derives from a request body looks up, from the root of the
    document, to exactly its node (sections 3 and 4 of RFC 6901). */
module Coherence {
  import opened Text
  import opened JsonPointer
  import opened Oas

  /** Looking the pointer up from the root gives exactly the node. */
  ghost predicate Coherent(root: Node, ref: SchemaRef) {
    Lookup(root, ref.pointer) == Ok(ref.node)
  }

  ghost predicate DistinctKeys(node: Node)
    decreases node
  {
    match node
    case Scalar(_) => true
    case Sequence(items) => forall i :: 0 <= i < |items| ==> DistinctKeys(items[i])
    case Mapping(entries) =>
      && (forall i, j :: 0 <= i < j < |entries| ==> entries[i].key != entries[j].key)
      && (forall i :: 0 <= i < |entries| ==> DistinctKeys(entries[i].value))
  }

  lemma {:induction false} WalkKeepsDistinctKeys(node: Node, tokens: seq<string>, pointer: string)
    requires DistinctKeys(node) && Walk(node, tokens, pointer).Ok?
    ensures DistinctKeys(Walk(node, tokens, pointer).value)
    decreases tokens
  {
    if tokens != [] {
      WalkKeepsDistinctKeys(Step(node, UnescapeToken(tokens[0])).value, tokens[1..], pointer);
    }
  }

  lemma TokensAppend(pointer: string, token: string)
    requires pointer != "" && '/' !in token
    ensures Tokens(pointer + "/" + token) == Tokens(pointer) + [token]
  {
    var longer := pointer + "/" + token;
    assert HasPrefix(longer, "/") <==> HasPrefix(pointer, "/");
    assert TrimPrefix(longer, "/") == TrimPrefix(pointer, "/") + "/" + token;
    SplitAppend(TrimPrefix(pointer, "/"), '/', token);
  }

  lemma CoherentStep(root: Node, ref: SchemaRef, token: string, child: Node)
    requires Coherent(root, ref) && ref.pointer != "" && '/' !in token
    requires Step(ref.node, UnescapeToken(token)) == Some(child)
    ensures Coherent(root, SchemaRef(child, ref.pointer + "/" + token))
  {
    TokensAppend(ref.pointer, token);
    WalkAppend(root, Tokens(ref.pointer), token, ref.pointer, ref.pointer + "/" + token);
  }

  lemma {:induction false} CoherentBeneath(root: Node, ref: SchemaRef, sub: SchemaRef)
    requires Coherent(root, ref) && ref.pointer != "" && DistinctKeys(ref.node)
    requires sub in SubRefs(ref)
    ensures Coherent(root, sub)
    decreases ref.node
  {
    if sub != ref {
      match ref.node
      case Sequence(items) =>
        var i :| 0 <= i < |items| && sub in SubRefs(SchemaRef(items[i], ref.pointer + "/" + Decimal(i)));
        ScanDecimal(i);
        CoherentStep(root, ref, Decimal(i), items[i]);
        CoherentBeneath(root, SchemaRef(items[i], ref.pointer + "/" + Decimal(i)), sub);
      case Mapping(entries) =>
        var i :| 0 <= i < |entries| && sub in SubRefs(SchemaRef(entries[i].value,
            ref.pointer + "/" + EscapeToken(entries[i].key)));
        UnescapeEscape(entries[i].key);
        EscapedHasNoSlash(entries[i].key);
        DistinctFind(entries, i);
        CoherentStep(root, ref, EscapeToken(entries[i].key), entries[i].value);
        CoherentBeneath(root, SchemaRef(entries[i].value, ref.pointer + "/" + EscapeToken(entries[i].key)), sub);
    }
  }

  lemma DistinctFind(entries: seq<Entry>, i: nat)
    requires i < |entries|
    requires forall i, j :: 0 <= i < j < |entries| ==> entries[i].key != entries[j].key
    ensures FindEntry(entries, entries[i].key) == Some(entries[i].value)
  {
    var r := FindEntry(entries, entries[i].key);
    var k :| 0 <= k < |entries| && entries[k] == Entry(entries[i].key, r.value);
    assert k == i;
  }

  lemma TargetCoherence(root: Node, target: string, r: SchemaRef)
    requires DistinctKeys(root) && RefTarget(root, target).Ok? && r in SubRefs(RefTarget(root, target).value)
    requires target != "#"
    ensures Coherent(root, r)
  {
    var next := RefTarget(root, target).value;
    assert target[0] == '#';
    assert next.pointer != "";
    WalkKeepsDistinctKeys(root, Tokens(next.pointer), next.pointer);
    CoherentBeneath(root, next, r);
  }

  // ---- The bare "#" ----

  /** Every child of `node` is also the root's child under the same key. */
  ghost predicate SharedChildren(root: Node, node: Node) {
    match node
    case Scalar(_) => true
    case Sequence(items) => forall i :: 0 <= i < |items| ==> Step(root, Decimal(i)) == Some(items[i])
    case Mapping(entries) => forall i :: 0 <= i < |entries| ==> Step(root, entries[i].key) == Some(entries[i].value)
  }

  /** Looking up one token from the root, whatever pointer an error would name. */
  lemma TopLevel(root: Node, token: string, pointer: string, child: Node)
    ensures Walk(root, [token], pointer) == Ok(child) <==> Step(root, UnescapeToken(token)) == Some(child)
    ensures Walk(root, [token], pointer).Ok? <==> Step(root, UnescapeToken(token)).Some?
  {
    var one := [token];
    assert one[1..] == [];
  }

  /** A `$ref` of exactly "#" is looked up as the root's entry named "". */
  lemma HashTarget(root: Node)
    ensures RefTarget(root, "#").Ok? <==> Step(root, "").Some?
    ensures Step(root, "").Some? ==> RefTarget(root, "#") == Ok(SchemaRef(Step(root, "").value, ""))
  {
    var target := "#";
    assert HasPrefix(target, "#") && target[1..] == "";
    assert TrimPrefix("", "/") == "" && Tokens("") == [""];
    assert UnescapeToken("") == "";
    if Step(root, "").Some? {
      TopLevel(root, "", "", Step(root, "").value);
    } else {
      TopLevel(root, "", "", root);
    }
  }

  lemma ChildOfHash(root: Node, token: string, child: Node)
    requires '/' !in token
    ensures Coherent(root, SchemaRef(child, "" + "/" + token)) <==> Step(root, UnescapeToken(token)) == Some(child)
  {
    var pointer := "" + "/" + token;
    assert HasPrefix(pointer, "/") && pointer[1..] == token;
    SplitPiece(token, '/');
    TopLevel(root, token, pointer, child);
  }

  lemma DecimalToken(i: nat)
    ensures UnescapeToken(Decimal(i)) == Decimal(i) && '/' !in Decimal(i)
  {
    UnescapePlain(Decimal(i));
  }

  /** What lies beneath the target of "#" is coherent exactly when its children are the root's own. */
  lemma HashCoherence(root: Node, node: Node)
    requires DistinctKeys(root) && Step(root, "") == Some(node)
    ensures (forall r :: r in SubRefs(SchemaRef(node, "")) ==> Coherent(root, r)) <==> SharedChildren(root, node)
  {
    if SharedChildren(root, node) {
      forall r | r in SubRefs(SchemaRef(node, ""))
        ensures Coherent(root, r)
      {
        SharedCoherent(root, node, r);
      }
    } else if node.Sequence? {
      var i :| 0 <= i < |node.items| && Step(root, Decimal(i)) != Some(node.items[i]);
      DecimalToken(i);
      ChildOfHash(root, Decimal(i), node.items[i]);
      ItemInSubRefs(SchemaRef(node, ""), i);
    } else {
      var i :| 0 <= i < |node.entries| && Step(root, node.entries[i].key) != Some(node.entries[i].value);
      var token := EscapeToken(node.entries[i].key);
      UnescapeEscape(node.entries[i].key);
      EscapedHasNoSlash(node.entries[i].key);
      ChildOfHash(root, token, node.entries[i].value);
      EntryInSubRefs(SchemaRef(node, ""), i);
    }
  }

  lemma HashItself(root: Node, node: Node)
    requires Step(root, "") == Some(node)
    ensures Coherent(root, SchemaRef(node, "")) && (DistinctKeys(root) ==> DistinctKeys(node))
  {
    assert TrimPrefix("", "/") == "" && Tokens("") == [""];
    assert UnescapeToken("") == "";
    TopLevel(root, "", "", node);
    if DistinctKeys(root) {
      WalkKeepsDistinctKeys(root, [""], "");
    }
  }

  lemma SharedCoherent(root: Node, node: Node, r: SchemaRef)
    requires DistinctKeys(root) && Step(root, "") == Some(node) && SharedChildren(root, node)
    requires r in SubRefs(SchemaRef(node, ""))
    ensures Coherent(root, r)
  {
    HashItself(root, node);
    if r != SchemaRef(node, "") {
      match node
      case Sequence(items) =>
        var i :| 0 <= i < |items| && r in SubRefs(SchemaRef(items[i], "" + "/" + Decimal(i)));
        DecimalToken(i);
        ChildOfHash(root, Decimal(i), items[i]);
        CoherentBeneath(root, SchemaRef(items[i], "" + "/" + Decimal(i)), r);
      case Mapping(entries) =>
        var i :| 0 <= i < |entries| && r in SubRefs(SchemaRef(entries[i].value,
            "" + "/" + EscapeToken(entries[i].key)));
        UnescapeEscape(entries[i].key);
        EscapedHasNoSlash(entries[i].key);
        ChildOfHash(root, EscapeToken(entries[i].key), entries[i].value);
        CoherentBeneath(root, SchemaRef(entries[i].value, "" + "/" + EscapeToken(entries[i].key)), r);
    }
  }

  // ---- What a walk meets ----

  /** From `a` the code comes to `b`: down the tree, or along the `$ref` of `a`. */
  ghost predicate ComesTo(root: Node, a: SchemaRef, b: SchemaRef) {
    b in SubRefs(a) || HopFrom(root, a) == Go(b)
  }

  ghost predicate IsTrail(root: Node, trail: seq<SchemaRef>) {
    trail != [] && forall i :: 0 <= i < |trail| - 1 ==> ComesTo(root, trail[i], trail[i + 1])
  }

  ghost predicate TrailTo(root: Node, ref: SchemaRef, r: SchemaRef, trail: seq<SchemaRef>) {
    IsTrail(root, trail) && trail[0] == ref && trail[|trail| - 1] == r
  }

  /** `r` is met on a walk from `ref`: the least closed set, trail by trail. */
  ghost predicate Meets(root: Node, ref: SchemaRef, r: SchemaRef) {
    exists trail :: TrailTo(root, ref, r, trail)
  }

  lemma MeetsItself(root: Node, ref: SchemaRef)
    ensures Meets(root, ref, ref)
  {
    assert TrailTo(root, ref, ref, [ref]);
  }

  lemma MeetsNext(root: Node, ref: SchemaRef, a: SchemaRef, b: SchemaRef)
    requires Meets(root, ref, a) && ComesTo(root, a, b)
    ensures Meets(root, ref, b)
  {
    var trail :| TrailTo(root, ref, a, trail);
    var longer := trail + [b];
    forall i | 0 <= i < |longer| - 1
      ensures ComesTo(root, longer[i], longer[i + 1])
    {
      if i < |trail| - 1 {
        assert ComesTo(root, trail[i], trail[i + 1]);
      }
    }
    assert TrailTo(root, ref, b, longer);
  }

  lemma {:induction false} MetInReach(root: Node, ref: SchemaRef, trail: seq<SchemaRef>)
    requires IsTrail(root, trail) && trail[0] == ref
    ensures trail[|trail| - 1] in Reach(root, ref)
    decreases |trail|
  {
    ReachIsClosed(root, ref);
    if |trail| > 1 {
      var n := |trail| - 1;
      ShorterTrail(root, trail);
      MetInReach(root, ref, trail[..n]);
      assert ComesTo(root, trail[n - 1], trail[n - 1 + 1]);
      if HopFrom(root, trail[n - 1]) == Go(trail[n]) {
        OwnTargetInReach(root, ref, trail[n - 1]);
      }
    }
  }

  lemma ShorterTrail(root: Node, trail: seq<SchemaRef>)
    requires IsTrail(root, trail) && |trail| > 1
    ensures IsTrail(root, trail[..|trail| - 1])
  {
    var short := trail[..|trail| - 1];
    forall i | 0 <= i < |short| - 1
      ensures ComesTo(root, short[i], short[i + 1])
    {
      assert ComesTo(root, trail[i], trail[i + 1]);
    }
  }

  /** The refs that are met, as a set. */
  ghost function MetSet(root: Node, ref: SchemaRef): set<SchemaRef> {
    set r | r in Reach(root, ref) && Meets(root, ref, r)
  }

  lemma InMetSet(root: Node, ref: SchemaRef, r: SchemaRef)
    ensures r in MetSet(root, ref) <==> Meets(root, ref, r)
  {
    if Meets(root, ref, r) {
      var trail :| TrailTo(root, ref, r, trail);
      MetInReach(root, ref, trail);
    }
  }

  /** It is closed under descending and resolving, so everything `resolve`, `view` and `project` derive from `ref`
      is met. */
  lemma MetIsClosed(root: Node, ref: SchemaRef)
    ensures ref in MetSet(root, ref) && Closed(root, MetSet(root, ref))
  {
    var refs := MetSet(root, ref);
    MeetsItself(root, ref);
    InMetSet(root, ref, ref);
    forall r, sub | r in refs && sub in SubRefs(r)
      ensures sub in refs
    {
      MeetsNext(root, ref, r, sub);
      InMetSet(root, ref, sub);
    }
    forall r | r in refs
      ensures HopStays(Hops(root), refs, r)
    {
      HopIsMet(root, ref, r);
    }
    forall r | r in refs && Resolve(root, r).Ok?
      ensures Resolve(root, r).value in refs
    {
      ResolvesIn(Hops(root), r, MAX_REF_CHAIN, refs);
    }
  }

  lemma HopIsMet(root: Node, ref: SchemaRef, r: SchemaRef)
    requires r in MetSet(root, ref)
    ensures HopStays(Hops(root), MetSet(root, ref), r)
  {
    var hop := HopFrom(root, r);
    if hop.Go? {
      MeetsNext(root, ref, r, hop.next);
      InMetSet(root, ref, hop.next);
    }
  }

  // ---- The exact condition ----

  /** A `$ref` of exactly "#" is met. */
  ghost predicate MeetsHash(root: Node, ref: SchemaRef) {
    exists r :: Meets(root, ref, r) && StringValue(r.node, "$ref") == "#"
  }

  /** The "#" does no harm here: the root has no entry named "", or that entry's children are the root's own. */
  ghost predicate HashHarmless(root: Node) {
    Step(root, "").None? || SharedChildren(root, Step(root, "").value)
  }

  /** What every ref of a harmless walk satisfies. */
  ghost predicate Sound(root: Node, r: SchemaRef) {
    && Coherent(root, r) && DistinctKeys(r.node)
    && (r.pointer == "" ==> Step(root, "") == Some(r.node) && SharedChildren(root, r.node))
  }

  lemma {:induction false} SubDistinct(ref: SchemaRef, sub: SchemaRef)
    requires DistinctKeys(ref.node) && sub in SubRefs(ref)
    ensures DistinctKeys(sub.node) && (sub != ref ==> sub.pointer != "")
    decreases ref.node
  {
    if sub != ref {
      match ref.node
      case Sequence(items) =>
        var i :| 0 <= i < |items| && sub in SubRefs(SchemaRef(items[i], ref.pointer + "/" + Decimal(i)));
        SubDistinct(SchemaRef(items[i], ref.pointer + "/" + Decimal(i)), sub);
      case Mapping(entries) =>
        var i :| 0 <= i < |entries| &&
                 sub in SubRefs(SchemaRef(entries[i].value, ref.pointer + "/" + EscapeToken(entries[i].key)));
        SubDistinct(SchemaRef(entries[i].value, ref.pointer + "/" + EscapeToken(entries[i].key)), sub);
    }
  }

  lemma SoundBeneath(root: Node, a: SchemaRef, b: SchemaRef)
    requires DistinctKeys(root) && Sound(root, a) && b in SubRefs(a)
    ensures Sound(root, b)
  {
    SubDistinct(a, b);
    if a.pointer != "" {
      CoherentBeneath(root, a, b);
    } else {
      SharedCoherent(root, a.node, b);
    }
  }

  lemma SoundTarget(root: Node, a: SchemaRef, b: SchemaRef)
    requires DistinctKeys(root) && HopFrom(root, a) == Go(b)
    requires StringValue(a.node, "$ref") == "#" ==> HashHarmless(root)
    ensures Sound(root, b)
  {
    var target := StringValue(a.node, "$ref");
    if target == "#" {
      HashTarget(root);
      HashItself(root, b.node);
    } else {
      assert b in SubRefs(b);
      TargetCoherence(root, target, b);
      assert target[0] == '#';
      WalkKeepsDistinctKeys(root, Tokens(b.pointer), b.pointer);
    }
  }

  lemma {:induction false} TrailSound(root: Node, ref: SchemaRef, trail: seq<SchemaRef>)
    requires DistinctKeys(root) && Sound(root, ref) && IsTrail(root, trail) && trail[0] == ref
    requires !MeetsHash(root, ref) || HashHarmless(root)
    ensures Sound(root, trail[|trail| - 1])
    decreases |trail|
  {
    if |trail| > 1 {
      var n := |trail| - 1;
      var a, b := trail[n - 1], trail[n];
      ShorterTrail(root, trail);
      TrailSound(root, ref, trail[..n]);
      assert ComesTo(root, trail[n - 1], trail[n - 1 + 1]);
      assert TrailTo(root, ref, a, trail[..n]);
      if b in SubRefs(a) {
        SoundBeneath(root, a, b);
      } else {
        SoundTarget(root, a, b);
      }
    }
  }

  lemma HarmShows(root: Node, ref: SchemaRef, a: SchemaRef)
    requires DistinctKeys(root) && Meets(root, ref, a) && StringValue(a.node, "$ref") == "#" && Step(root, "").Some?
    requires forall r :: Meets(root, ref, r) ==> Coherent(root, r)
    ensures SharedChildren(root, Step(root, "").value)
  {
    var node := Step(root, "").value;
    var hash := SchemaRef(node, "");
    HashTarget(root);
    assert HopFrom(root, a) == Go(hash);
    MeetsNext(root, ref, a, hash);
    forall r | r in SubRefs(hash)
      ensures Coherent(root, r)
    {
      MeetsNext(root, ref, hash, r);
    }
    HashCoherence(root, node);
  }

  /** Everything met on a walk from a coherent ref is coherent, if and only if no `$ref` of exactly "#" is met, or the
      root has no entry named "", or every child of that entry is also the root's child under the same key. */
  lemma PointerCoherence(root: Node, ref: SchemaRef)
    requires DistinctKeys(root) && DistinctKeys(ref.node) && Coherent(root, ref) && ref.pointer != ""
    ensures (forall r :: Meets(root, ref, r) ==> Coherent(root, r)) <==> !MeetsHash(root, ref) || HashHarmless(root)
  {
    if !MeetsHash(root, ref) || HashHarmless(root) {
      forall r | Meets(root, ref, r)
        ensures Coherent(root, r)
      {
        var trail :| TrailTo(root, ref, r, trail);
        TrailSound(root, ref, trail);
      }
    } else if forall r :: Meets(root, ref, r) ==> Coherent(root, r) {
      var a :| Meets(root, ref, a) && StringValue(a.node, "$ref") == "#";
      HarmShows(root, ref, a);
      assert false;
    }
  }

  /** An entry named "" with a child of its own, and a request body that refers to "#". */
  function HashBody(): Node {
    Mapping([Entry("$ref", Scalar("#"))])
  }

  function HashDocument(): Node {
    Mapping([Entry("", Mapping([Entry("a", Scalar("x"))])), Entry("b", HashBody())])
  }

  lemma HashDocumentEntries()
    ensures var root := HashDocument();
            && Step(root, "") == Some(root.entries[0].value) && Step(root, "b") == Some(HashBody())
            && Step(root, "a").None?
            && StringValue(HashBody(), "$ref") == "#"
  {
    var entries := HashDocument().entries;
    assert FindEntry(entries[1..], "b") == Some(HashBody());
    assert FindEntry(entries[1..][1..], "a") == None;
    assert FindEntry(entries[1..], "a") == None;
  }

  lemma HashDocumentKeys()
    ensures DistinctKeys(HashDocument()) && DistinctKeys(HashBody())
  {
    var inner := HashDocument().entries[0].value;
    assert DistinctKeys(Scalar("x")) && DistinctKeys(Scalar("#"));
    assert DistinctKeys(inner) && DistinctKeys(HashBody());
  }

  /** In that document a pointer derived from the body does not look up to its node. */
  lemma HashCanBreak() returns (r: SchemaRef)
    ensures var root, ref := HashDocument(), SchemaRef(HashBody(), "" + "/" + "b");
            && DistinctKeys(root) && DistinctKeys(ref.node) && Coherent(root, ref)
            && Meets(root, ref, r) && !Coherent(root, r)
  {
    var root := HashDocument();
    var ref := SchemaRef(HashBody(), "" + "/" + "b");
    HashDocumentEntries();
    HashDocumentKeys();
    UnescapePlain("b");
    ChildOfHash(root, "b", HashBody());
    MeetsItself(root, ref);
    NotShared();
    PointerCoherence(root, ref);
    r :| Meets(root, ref, r) && !Coherent(root, r);
  }

  lemma NotShared()
    ensures !HashHarmless(HashDocument())
  {
    HashDocumentEntries();
    var inner := HashDocument().entries[0].value;
    assert inner.entries[0].key == "a";
  }
}

/** When `$ref` resolution succeeds, and with what: the end of a chain of at most 64 schemas. */
module RefChains {
  import opened Text
  import opened JsonPointer
  import opened Oas

  /** The `$ref` of `a` is a local one, and `b` is what lies there. */
  ghost predicate RefersTo(root: Node, a: SchemaRef, b: SchemaRef) {
    StringValue(a.node, "$ref") == "#" + b.pointer && Lookup(root, b.pointer) == Ok(b.node)
  }

  /** Every schema of the chain but the last refers to the next. */
  ghost predicate IsChain(root: Node, chain: seq<SchemaRef>) {
    forall i :: 0 <= i < |chain| - 1 ==> RefersTo(root, chain[i], chain[i + 1])
  }

  /** The chain leads from `ref` to `last`. */
  ghost predicate Leads(root: Node, chain: seq<SchemaRef>, ref: SchemaRef, last: SchemaRef) {
    chain != [] && IsChain(root, chain) && chain[0] == ref && chain[|chain| - 1] == last
  }

  lemma HopRefers(root: Node, a: SchemaRef, b: SchemaRef)
    ensures HopFrom(root, a) == Go(b) <==> RefersTo(root, a, b)
  {
    var target := StringValue(a.node, "$ref");
    if HasPrefix(target, "#") {
      assert target == "#" + target[1..];
    }
    if RefersTo(root, a, b) {
      assert target[1..] == b.pointer;
    }
  }

  lemma HopStops(root: Node, a: SchemaRef, b: SchemaRef)
    ensures HopFrom(root, a) == Stop(Ok(b)) <==> a == b && StringValue(a.node, "$ref") == ""
  {
  }

  // ---- Chases, whatever a turn does ----

  ghost predicate IsPath(hop: SchemaRef -> Hop, path: seq<SchemaRef>) {
    forall i :: 0 <= i < |path| - 1 ==> hop(path[i]) == Go(path[i + 1])
  }

  lemma ConsPath(hop: SchemaRef -> Hop, a: SchemaRef, path: seq<SchemaRef>)
    requires path != [] && IsPath(hop, path) && hop(a) == Go(path[0])
    ensures IsPath(hop, [a] + path)
  {
    var all := [a] + path;
    forall i | 0 <= i < |all| - 1
      ensures hop(all[i]) == Go(all[i + 1])
    {
      if i > 0 {
        assert all[i] == path[i - 1] && all[i + 1] == path[i];
      }
    }
  }

  lemma TailPath(hop: SchemaRef -> Hop, path: seq<SchemaRef>)
    requires |path| > 1 && IsPath(hop, path)
    ensures IsPath(hop, path[1..]) && hop(path[0]) == Go(path[1])
  {
    assert hop(path[0]) == Go(path[0 + 1]);
    forall i | 0 <= i < |path[1..]| - 1
      ensures hop(path[1..][i]) == Go(path[1..][i + 1])
    {
      assert hop(path[i + 1]) == Go(path[i + 1 + 1]);
    }
  }

  /** A chase ends where a turn stops, or runs out of turns. */
  lemma {:induction false} PathOf(hop: SchemaRef -> Hop, ref: SchemaRef, hops: nat) returns (path: seq<SchemaRef>)
    ensures path != [] && path[0] == ref && IsPath(hop, path)
    ensures var last := path[|path| - 1];
            || (|path| <= hops && hop(last) == Stop(Chase(hop, ref, hops)))
            || (|path| == hops + 1 && Chase(hop, ref, hops) == Err(ChainTooDeep(last.pointer)))
    decreases hops
  {
    path := [ref];
    if hops > 0 && hop(ref).Go? {
      var rest := PathOf(hop, hop(ref).next, hops - 1);
      ConsPath(hop, ref, rest);
      path := [ref] + rest;
    }
  }

  lemma {:induction false} PathStops(hop: SchemaRef -> Hop, path: seq<SchemaRef>, hops: nat)
    requires path != [] && IsPath(hop, path) && |path| <= hops && hop(path[|path| - 1]).Stop?
    ensures Chase(hop, path[0], hops) == hop(path[|path| - 1]).result
    decreases hops
  {
    if |path| > 1 {
      TailPath(hop, path);
      PathStops(hop, path[1..], hops - 1);
    }
  }

  lemma {:induction false} PathTooLong(hop: SchemaRef -> Hop, path: seq<SchemaRef>, hops: nat)
    requires |path| == hops + 1 && IsPath(hop, path)
    ensures Chase(hop, path[0], hops) == Err(ChainTooDeep(path[hops].pointer))
    decreases hops
  {
    if hops > 0 {
      TailPath(hop, path);
      PathTooLong(hop, path[1..], hops - 1);
    }
  }

  // ---- Chains of references ----

  lemma ChainIff(root: Node, chain: seq<SchemaRef>)
    ensures IsPath(Hops(root), chain) <==> IsChain(root, chain)
  {
    forall i | 0 <= i < |chain| - 1
      ensures Hops(root)(chain[i]) == Go(chain[i + 1]) <==> RefersTo(root, chain[i], chain[i + 1])
    {
      HopRefers(root, chain[i], chain[i + 1]);
    }
  }

  /** A ref resolves to the schema without a `$ref` at the end of a chain of at most 64 schemas, and to nothing else. */
  lemma ResolvesIff(root: Node, ref: SchemaRef, last: SchemaRef)
    ensures Resolve(root, ref) == Ok(last) <==>
            && StringValue(last.node, "$ref") == ""
            && exists chain :: |chain| <= 64 && Leads(root, chain, ref, last)
  {
    if Resolve(root, ref) == Ok(last) {
      var chain := PathOf(Hops(root), ref, MAX_REF_CHAIN);
      ChainIff(root, chain);
      HopStops(root, chain[|chain| - 1], last);
      assert Leads(root, chain, ref, last);
    } else if chain :| |chain| <= 64 && Leads(root, chain, ref, last) {
      if StringValue(last.node, "$ref") == "" {
        ChainIff(root, chain);
        HopStops(root, last, last);
        PathStops(Hops(root), chain, MAX_REF_CHAIN);
      }
    }
  }

  lemma {:induction false} WalkFails(node: Node, tokens: seq<string>, pointer: string)
    requires Walk(node, tokens, pointer).Err?
    ensures !Walk(node, tokens, pointer).error.ChainTooDeep?
    decreases tokens
  {
    var next := Step(node, UnescapeToken(tokens[0]));
    if next.Some? {
      WalkFails(next.value, tokens[1..], pointer);
    }
  }

  /** One turn fails for other reasons. */
  lemma NotTooDeep(root: Node, ref: SchemaRef)
    ensures var hop := HopFrom(root, ref); hop.Stop? && hop.result.Err? ==> !hop.result.error.ChainTooDeep?
  {
    var target := StringValue(ref.node, "$ref");
    if HasPrefix(target, "#") && Lookup(root, target[1..]).Err? {
      WalkFails(root, Tokens(target[1..]), target[1..]);
    }
  }

  /** It is too deep exactly when 64 references follow one another. */
  lemma TooDeepIff(root: Node, ref: SchemaRef)
    ensures Resolve(root, ref).Err? && Resolve(root, ref).error.ChainTooDeep? <==>
            exists chain :: |chain| == 65 && IsChain(root, chain) && chain[0] == ref
  {
    if Resolve(root, ref).Err? && Resolve(root, ref).error.ChainTooDeep? {
      var chain := PathOf(Hops(root), ref, MAX_REF_CHAIN);
      ChainIff(root, chain);
      NotTooDeep(root, chain[|chain| - 1]);
    } else if chain :| |chain| == 65 && IsChain(root, chain) && chain[0] == ref {
      ChainIff(root, chain);
      PathTooLong(Hops(root), chain, MAX_REF_CHAIN);
    }
  }
}

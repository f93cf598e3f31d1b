/** Which functions hand a value of unknown static type to reflection, directly or through another
    such function, and the memoised interface resolution that question needs. */
module Usage {
  import opened Collections

  type Func = string

  datatype ImplKey = ImplKey(iface: string, name: string)

  /** A named module type: the interfaces its value and its pointer implement, and the method each
      lookup finds under a name. */
  datatype NamedType = NamedType(
    valueImplements: set<string>, pointerImplements: set<string>,
    valueMethods: map<string, Func>, pointerMethods: map<string, Func>)

  /** A generic module type is matched by method name only. */
  datatype GenericType = GenericType(methods: seq<GenericMethod>)

  datatype GenericMethod = GenericMethod(name: string, fn: Func)

  datatype Types = Types(named: seq<NamedType>, generic: seq<GenericType>)

  // ---- Interface resolution ----

  function NamedImpl(t: NamedType, key: ImplKey): seq<Func> {
    var methods := if key.iface in t.valueImplements then t.valueMethods
                   else if key.iface in t.pointerImplements then t.pointerMethods
                   else map[];
    if key.name in methods then [methods[key.name]] else []
  }

  function NamedImpls(named: seq<NamedType>, key: ImplKey): seq<Func> {
    if named == [] then [] else NamedImpl(named[0], key) + NamedImpls(named[1..], key)
  }

  function MethodsNamed(methods: seq<GenericMethod>, name: string): seq<Func> {
    if methods == [] then []
    else (if methods[0].name == name then [methods[0].fn] else []) + MethodsNamed(methods[1..], name)
  }

  function GenericImpls(generic: seq<GenericType>, name: string): seq<Func> {
    if generic == [] then [] else MethodsNamed(generic[0].methods, name) + GenericImpls(generic[1..], name)
  }

  /** The uncached resolution of an interface method to every implementation. */
  function ImplementationsOf(types: Types, key: ImplKey): seq<Func> {
    NamedImpls(types.named, key) + GenericImpls(types.generic, key.name)
  }

  /** The type implements the interface, by its value or else by its pointer, with this method. */
  predicate Contributes(t: NamedType, key: ImplKey, impl: Func) {
    if key.iface in t.valueImplements then key.name in t.valueMethods && t.valueMethods[key.name] == impl
    else key.iface in t.pointerImplements && key.name in t.pointerMethods && t.pointerMethods[key.name] == impl
  }

  lemma {:induction false} NamedImplsAre(named: seq<NamedType>, key: ImplKey, impl: Func)
    ensures impl in NamedImpls(named, key) <==> exists t :: t in named && Contributes(t, key, impl)
  {
    if named != [] {
      NamedImplsAre(named[1..], key, impl);
      assert impl in NamedImpl(named[0], key) <==> Contributes(named[0], key, impl);
      assert named == [named[0]] + named[1..];
    }
  }

  lemma {:induction false} MethodsAre(methods: seq<GenericMethod>, name: string, impl: Func)
    ensures impl in MethodsNamed(methods, name) <==> GenericMethod(name, impl) in methods
  {
    if methods != [] {
      MethodsAre(methods[1..], name, impl);
      assert methods == [methods[0]] + methods[1..];
    }
  }

  lemma {:induction false} GenericImplsAre(generic: seq<GenericType>, name: string, impl: Func)
    ensures impl in GenericImpls(generic, name) <==> exists g :: g in generic && GenericMethod(name, impl) in g.methods
  {
    if generic != [] {
      GenericImplsAre(generic[1..], name, impl);
      MethodsAre(generic[0].methods, name, impl);
      assert generic == [generic[0]] + generic[1..];
    }
  }

  /** The implementations of an interface method are those of every named type that implements the interface, and every
      method of that name of a generic type. */
  lemma ImplementationsAre(types: Types, key: ImplKey, impl: Func)
    ensures impl in ImplementationsOf(types, key) <==>
            || (exists t :: t in types.named && Contributes(t, key, impl))
            || (exists g :: g in types.generic && GenericMethod(key.name, impl) in g.methods)
  {
    NamedImplsAre(types.named, key, impl);
    GenericImplsAre(types.generic, key.name, impl);
  }

  /** What Go guarantees: a method is found from the value as from the pointer, whose method set is the larger. */
  predicate GoMethods(t: NamedType) {
    t.valueMethods == t.pointerMethods && t.valueImplements <= t.pointerImplements
  }

  /** So a named type contributes exactly when its pointer implements the interface, whichever receiver its methods
      have. */
  lemma PointerDecides(t: NamedType, key: ImplKey, impl: Func)
    requires GoMethods(t)
    ensures Contributes(t, key, impl) <==>
            key.iface in t.pointerImplements && key.name in t.pointerMethods && t.pointerMethods[key.name] == impl
  {
  }

  lemma NamedStep(named: seq<NamedType>, key: ImplKey, impls: seq<Func>, i: nat)
    requires i < |named|
    ensures impls + NamedImpls(named[i..], key) ==
            (impls + NamedImpl(named[i], key)) + NamedImpls(named[i + 1..], key)
  {
    assert named[i..][1..] == named[i + 1..];
    ConcatAssociates(impls, NamedImpl(named[i], key), NamedImpls(named[i + 1..], key));
  }

  method CollectNamed(named: seq<NamedType>, key: ImplKey) returns (impls: seq<Func>)
    ensures impls == NamedImpls(named, key)
  {
    impls := [];
    for i := 0 to |named|
      invariant NamedImpls(named, key) == impls + NamedImpls(named[i..], key)
    {
      NamedStep(named, key, impls, i);
      impls := impls + NamedImpl(named[i], key);
    }
  }

  method CollectGeneric(generic: seq<GenericType>, name: string) returns (impls: seq<Func>)
    ensures impls == GenericImpls(generic, name)
  {
    impls := [];
    for i := 0 to |generic|
      invariant GenericImpls(generic, name) == impls + GenericImpls(generic[i..], name)
    {
      assert generic[i..][1..] == generic[i + 1..];
      var methods := CollectMethods(generic[i].methods, name);
      impls := impls + methods;
    }
  }

  method CollectMethods(methods: seq<GenericMethod>, name: string) returns (impls: seq<Func>)
    ensures impls == MethodsNamed(methods, name)
  {
    impls := [];
    for i := 0 to |methods|
      invariant MethodsNamed(methods, name) == impls + MethodsNamed(methods[i..], name)
    {
      assert methods[i..][1..] == methods[i + 1..];
      if methods[i].name == name {
        impls := impls + [methods[i].fn];
      }
    }
  }

  /** `moduleIndex` with its memo table, shared by every resource's walk. */
  class ModuleIndex {
    const types: Types
    var implCache: map<ImplKey, seq<Func>>

    /** Every cached answer is the uncached one. */
    ghost predicate Valid()
      reads this
    {
      forall key :: key in implCache ==> implCache[key] == ImplementationsOf(types, key)
    }

    constructor (types: Types)
      ensures Valid() && this.types == types
    {
      this.types := types;
      implCache := map[];
    }

    method Implementations(key: ImplKey) returns (impls: seq<Func>)
      requires Valid()
      modifies this
      ensures Valid()
      ensures impls == ImplementationsOf(types, key)
      ensures implCache == old(implCache)[key := impls]
    {
      if key in implCache {
        impls := implCache[key];
        assert implCache == implCache[key := impls];
        return;
      }
      var named := CollectNamed(types.named, key);
      var generic := CollectGeneric(types.generic, key.name);
      impls := named + generic;
      implCache := implCache[key := impls];
    }
  }

  // ---- Reflecting functions ----

  datatype Callee = Unresolved | Plain(fn: Func) | Method(key: ImplKey)

  /** One call: does it pass an argument of non-concrete type, is it into the reflect package, and
      what does it call. */
  datatype Call = Call(nonConcrete: bool, intoReflect: bool, callee: Callee)

  datatype Decl = Decl(fn: Func, calls: seq<Call>)

  predicate CallsReflecting(types: Types, call: Call, reflecting: set<Func>) {
    match call.callee
    case Unresolved => false
    case Plain(fn) => fn in reflecting
    case Method(key) => exists impl :: impl in ImplementationsOf(types, key) && impl in reflecting
  }

  /** The call may end up in `fn`: it names it, or it calls an interface method that `fn` implements. */
  ghost predicate MayCall(types: Types, call: Call, fn: Func) {
    match call.callee
    case Unresolved => false
    case Plain(named) => fn == named
    case Method(key) =>
      || (exists t :: t in types.named && Contributes(t, key, fn))
      || (exists g :: g in types.generic && GenericMethod(key.name, fn) in g.methods)
  }

  lemma CallsReflectingIff(types: Types, call: Call, reflecting: set<Func>)
    ensures CallsReflecting(types, call, reflecting) <==> exists fn :: fn in reflecting && MayCall(types, call, fn)
  {
    if call.callee.Method? {
      forall fn
        ensures fn in ImplementationsOf(types, call.callee.key) <==> MayCall(types, call, fn)
      {
        ImplementationsAre(types, call.callee.key, fn);
      }
    }
  }

  predicate HandsOver(types: Types, call: Call, reflecting: set<Func>) {
    call.nonConcrete && (call.intoReflect || CallsReflecting(types, call, reflecting))
  }

  ghost predicate Reflecting(types: Types, d: Decl, reflecting: set<Func>) {
    exists call :: call in d.calls && HandsOver(types, call, reflecting)
  }

  /** Closed: whoever passes a non-concrete argument to reflect or to a member is a member. */
  ghost predicate ClosedUnder(types: Types, decls: set<Decl>, s: set<Func>) {
    forall d :: d in decls && Reflecting(types, d, s) ==> d.fn in s
  }

  ghost predicate IsLeastClosed(types: Types, decls: set<Decl>, s: set<Func>) {
    && ClosedUnder(types, decls, s)
    && (forall other :: ClosedUnder(types, decls, other) ==> s <= other)
  }

  /** The least closed set is one set: it does not depend on the order of declarations. */
  lemma LeastClosedUnique(types: Types, decls: set<Decl>, a: set<Func>, b: set<Func>)
    requires IsLeastClosed(types, decls, a) && IsLeastClosed(types, decls, b)
    ensures a == b
  {
    assert a <= b && b <= a;
  }

  lemma HandsOverMonotone(types: Types, call: Call, a: set<Func>, b: set<Func>)
    requires a <= b && HandsOver(types, call, a)
    ensures HandsOver(types, call, b)
  {
    if call.callee.Method? && !call.intoReflect {
      var impl :| impl in ImplementationsOf(types, call.callee.key) && impl in a;
      assert impl in b;
    }
  }

  function DeclSet(decls: seq<Decl>): set<Decl> {
    set d | d in decls
  }

  function Funcs(decls: seq<Decl>): set<Func> {
    set d | d in decls :: d.fn
  }

  method CallsReflectingVia(index: ModuleIndex, call: Call, reflecting: set<Func>) returns (r: bool)
    requires index.Valid()
    modifies index
    ensures index.Valid()
    ensures r == CallsReflecting(index.types, call, reflecting)
  {
    match call.callee
    case Unresolved => r := false;
    case Plain(fn) => r := fn in reflecting;
    case Method(key) =>
      var impls := index.Implementations(key);
      r := exists impl :: impl in impls && impl in reflecting;
  }

  /** The inspection of one declaration: stops at the first call that hands a value over. */
  method Inspect(index: ModuleIndex, d: Decl, found: set<Func>) returns (hit: bool)
    requires index.Valid()
    modifies index
    ensures index.Valid()
    ensures hit <==> Reflecting(index.types, d, found)
  {
    for i := 0 to |d.calls|
      invariant index.Valid()
      invariant forall j :: 0 <= j < i ==> !HandsOver(index.types, d.calls[j], found)
    {
      var call := d.calls[i];
      if call.nonConcrete {
        var reaches := CallsReflectingVia(index, call, found);
        if call.intoReflect || reaches {
          assert HandsOver(index.types, call, found);
          return true;
        }
      }
    }
    return false;
  }

  /** Contained in every closed set. */
  ghost predicate BelowClosed(types: Types, decls: set<Decl>, found: set<Func>) {
    forall other :: ClosedUnder(types, decls, other) ==> found <= other
  }

  /** One pass over the declarations of `reflectingFuncs`. */
  method Pass(index: ModuleIndex, decls: seq<Decl>, start: set<Func>) returns (found: set<Func>, changed: bool)
    requires index.Valid() && start <= Funcs(decls) && BelowClosed(index.types, DeclSet(decls), start)
    modifies index
    ensures index.Valid()
    ensures start <= found <= Funcs(decls) && BelowClosed(index.types, DeclSet(decls), found)
    ensures changed <==> found != start
    ensures !changed ==> ClosedUnder(index.types, DeclSet(decls), found)
  {
    found, changed := start, false;
    for i := 0 to |decls|
      invariant index.Valid()
      invariant start <= found <= Funcs(decls) && BelowClosed(index.types, DeclSet(decls), found)
      invariant changed <==> found != start
      invariant !changed ==> forall j :: 0 <= j < i && Reflecting(index.types, decls[j], found) ==> decls[j].fn in found
    {
      var d := decls[i];
      if d.fn in found {
        continue;
      }
      var hit := Inspect(index, d, found);
      if hit {
        AddIsLeast(index.types, DeclSet(decls), d, found);
        found := found + {d.fn};
        changed := true;
      }
    }
  }

  /** `reflectingFuncs`: passes over the declarations until one changes nothing. */
  method ReflectingFuncs(index: ModuleIndex, decls: seq<Decl>) returns (found: set<Func>)
    requires index.Valid()
    modifies index
    ensures index.Valid()
    ensures IsLeastClosed(index.types, DeclSet(decls), found)
    ensures found <= Funcs(decls)
  {
    found := {};
    var changed := true;
    while changed
      invariant index.Valid()
      invariant found <= Funcs(decls) && BelowClosed(index.types, DeclSet(decls), found)
      invariant !changed ==> ClosedUnder(index.types, DeclSet(decls), found)
      decreases |Funcs(decls) - found| + if changed then 1 else 0
    {
      ghost var start := found;
      found, changed := Pass(index, decls, found);
      FewerLeft(Funcs(decls), start, found);
    }
  }

  lemma AddIsLeast(types: Types, decls: set<Decl>, d: Decl, found: set<Func>)
    requires d in decls && Reflecting(types, d, found)
    requires BelowClosed(types, decls, found)
    ensures BelowClosed(types, decls, found + {d.fn})
  {
    var call :| call in d.calls && HandsOver(types, call, found);
    forall other | ClosedUnder(types, decls, other)
      ensures d.fn in other
    {
      HandsOverMonotone(types, call, found, other);
      assert Reflecting(types, d, other);
    }
  }

  // ---- What membership in the least set means ----

  ghost predicate HandsOverTo(types: Types, decls: set<Decl>, d: Decl, call: Call, chain: seq<Func>)
    decreases |chain|, 0
  {
    && d in decls && call in d.calls && call.nonConcrete
    && if chain == [] then call.intoReflect
       else MayCall(types, call, chain[0]) && HandOverChain(types, decls, chain[0], chain[1..])
  }

  /** From `fn` a value is handed over, function by function along `chain`, until reflect gets it. */
  ghost predicate HandOverChain(types: Types, decls: set<Decl>, fn: Func, chain: seq<Func>)
    decreases |chain|, 1
  {
    exists d, call :: HandsOverTo(types, decls, d, call, chain) && d.fn == fn
  }

  lemma {:induction false} ChainInClosed(types: Types, decls: set<Decl>, fn: Func, chain: seq<Func>, s: set<Func>)
    requires HandOverChain(types, decls, fn, chain) && ClosedUnder(types, decls, s)
    ensures fn in s
    decreases |chain|
  {
    var d, call :| HandsOverTo(types, decls, d, call, chain) && d.fn == fn;
    if chain != [] {
      ChainInClosed(types, decls, chain[0], chain[1..], s);
      CallsReflectingIff(types, call, {chain[0]});
      assert HandsOver(types, call, {chain[0]});
      HandsOverMonotone(types, call, {chain[0]}, s);
    }
    assert HandsOver(types, call, s);
    assert Reflecting(types, d, s);
  }

  ghost predicate Chained(types: Types, decls: set<Decl>, fn: Func) {
    exists chain :: HandOverChain(types, decls, fn, chain)
  }

  ghost function ChainedFuncs(types: Types, decls: set<Decl>): set<Func> {
    set d | d in decls && Chained(types, decls, d.fn) :: d.fn
  }

  lemma ChainedFuncsClosed(types: Types, decls: set<Decl>)
    ensures ClosedUnder(types, decls, ChainedFuncs(types, decls))
  {
    var s := ChainedFuncs(types, decls);
    forall d | d in decls && Reflecting(types, d, s)
      ensures d.fn in s
    {
      var call :| call in d.calls && HandsOver(types, call, s);
      if call.intoReflect {
        assert HandsOverTo(types, decls, d, call, []);
        assert HandOverChain(types, decls, d.fn, []);
      } else {
        CallsReflectingIff(types, call, s);
        var next :| next in s && MayCall(types, call, next);
        var chain :| HandOverChain(types, decls, next, chain);
        var longer := [next] + chain;
        assert longer[1..] == chain;
        assert HandsOverTo(types, decls, d, call, longer);
        assert HandOverChain(types, decls, d.fn, longer);
      }
    }
  }

  /** A function is reflecting exactly when a chain of such calls leads from it to reflect. */
  lemma ReflectingIffChained(types: Types, decls: set<Decl>, found: set<Func>, fn: Func)
    requires IsLeastClosed(types, decls, found)
    ensures fn in found <==> Chained(types, decls, fn)
  {
    ChainedFuncsClosed(types, decls);
    assert found <= ChainedFuncs(types, decls);
    if Chained(types, decls, fn) {
      var chain :| HandOverChain(types, decls, fn, chain);
      ChainInClosed(types, decls, fn, chain, found);
    }
  }

  // ---- Including more implementations only finds more ----

  /** The same named types, and at least the same generic types, in any order. */
  ghost predicate MoreGenerics(more: Types, types: Types) {
    more.named == types.named && forall g :: g in types.generic ==> g in more.generic
  }

  lemma {:induction false} GenericImplMember(generic: seq<GenericType>, name: string, fn: Func)
    ensures fn in GenericImpls(generic, name) <==> exists g :: g in generic && fn in MethodsNamed(g.methods, name)
  {
    if generic != [] {
      GenericImplMember(generic[1..], name, fn);
      assert forall g :: g in generic <==> g == generic[0] || g in generic[1..];
    }
  }

  lemma MoreImplementations(more: Types, types: Types, key: ImplKey, fn: Func)
    requires MoreGenerics(more, types) && fn in ImplementationsOf(types, key)
    ensures fn in ImplementationsOf(more, key)
  {
    GenericImplMember(types.generic, key.name, fn);
    GenericImplMember(more.generic, key.name, fn);
  }

  lemma ReflectingUnderMore(more: Types, types: Types, d: Decl, s: set<Func>)
    requires MoreGenerics(more, types) && Reflecting(types, d, s)
    ensures Reflecting(more, d, s)
  {
    var call :| call in d.calls && HandsOver(types, call, s);
    if call.callee.Method? && !call.intoReflect {
      var impl :| impl in ImplementationsOf(types, call.callee.key) && impl in s;
      MoreImplementations(more, types, call.callee.key, impl);
    }
    assert HandsOver(more, call, s);
  }

  /** Matching more generic types, as matching by name alone does, can only add reflecting functions, and so only
      adds usage marks. */
  lemma MoreGenericsMoreReflecting(more: Types, types: Types, decls: set<Decl>, found: set<Func>, found': set<Func>)
    requires MoreGenerics(more, types) && IsLeastClosed(types, decls, found) && IsLeastClosed(more, decls, found')
    ensures found <= found'
  {
    forall d | d in decls && Reflecting(types, d, found')
      ensures d.fn in found'
    {
      ReflectingUnderMore(more, types, d, found');
    }
    assert ClosedUnder(types, decls, found');
  }
}

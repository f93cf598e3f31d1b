/** How reflecting functions become usage marks, and why over-including implementations cannot invent a gap. */
module UsageMarks {
  import U = Usage
  import opened Oas
  import opened Gaps
  import opened Walk
  import opened WalkTheorems

  /** A call and the types of its arguments and type arguments, as `markOpaqueType` names them. */
  datatype Site = Site(call: U.Call, argTypes: set<TypeId>)

  /** `markReflectingCallSite` over all sites: what is handed to a reflecting function is opaque. */
  ghost function SiteMarks(types: U.Types, sites: set<Site>, reflecting: set<U.Func>): set<TypeId> {
    set s, t | s in sites && U.CallsReflecting(types, s.call, reflecting) && t in s.argTypes :: t
  }

  /** The usage of a resource: the other marks, and those of the call sites. */
  ghost function UsageWith(base: Usage, types: U.Types, sites: set<Site>, reflecting: set<U.Func>): Usage {
    base.(opaqueTypes := base.opaqueTypes + SiteMarks(types, sites, reflecting))
  }

  lemma CallsReflectingGrows(more: U.Types, types: U.Types, call: U.Call, a: set<U.Func>, b: set<U.Func>)
    requires U.MoreGenerics(more, types) && a <= b && U.CallsReflecting(types, call, a)
    ensures U.CallsReflecting(more, call, b)
  {
    if call.callee.Method? {
      var impl :| impl in U.ImplementationsOf(types, call.callee.key) && impl in a;
      U.MoreImplementations(more, types, call.callee.key, impl);
      assert impl in b;
    }
  }

  /** Matching more generic types only adds marks. */
  lemma MoreGenericsMoreMarks(base: Usage, more: U.Types, types: U.Types, decls: set<U.Decl>, sites: set<Site>,
                              found: set<U.Func>, found': set<U.Func>)
    requires U.MoreGenerics(more, types)
    requires U.IsLeastClosed(types, decls, found) && U.IsLeastClosed(more, decls, found')
    ensures UsageWith(base, types, sites, found).fields == UsageWith(base, more, sites, found').fields
    ensures UsageWith(base, types, sites, found).opaqueTypes <= UsageWith(base, more, sites, found').opaqueTypes
  {
    U.MoreGenericsMoreReflecting(more, types, decls, found, found');
    forall t | t in SiteMarks(types, sites, found)
      ensures t in SiteMarks(more, sites, found')
    {
      var s :| s in sites && U.CallsReflecting(types, s.call, found) && t in s.argTypes;
      CallsReflectingGrows(more, types, s.call, found, found');
    }
  }

  /** So matching generic types by name alone, which includes too many implementations, never invents a gap. */
  lemma GenericsNeverInvent(c: Context, base: Usage, more: U.Types, types: U.Types, decls: set<U.Decl>,
      sites: set<Site>, found: set<U.Func>, found': set<U.Func>, active: set<string>, ref: SchemaRef, goType: GoType,
      path: string, m: Member)
    requires U.MoreGenerics(more, types)
    requires U.IsLeastClosed(types, decls, found) && U.IsLeastClosed(more, decls, found')
    requires c.usage == UsageWith(base, types, sites, found) && NamedFields(c)
    requires var c' := c.(usage := UsageWith(base, more, sites, found'));
             && Faithful(c) && Faithful(c')
             && GapsOf(c, active, ref, goType, path).result.Ok? && GapsOf(c', active, ref, goType, path).result.Ok?
             && m in GapsOf(c', active, ref, goType, path).result.value
    ensures exists m' :: m' in GapsOf(c, active, ref, goType, path).result.value && Beneath(m.field, m'.field)
  {
    var c' := c.(usage := UsageWith(base, more, sites, found'));
    MoreGenericsMoreMarks(base, more, types, decls, sites, found, found');
    assert Overcounts(c', c);
    OvercountingNeverInvents(c, c', active, ref, goType, path, m);
  }
}

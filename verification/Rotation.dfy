/** The schema-coverage rotation: analyse the entities that have waited longest, then stamp them. */
module Rotation {
  import opened Collections
  import opened Text
  import opened Sorting

  const RESOURCE := "resource"
  const DATA_SOURCE := "data source"
  const PREFIX := "elasticstack_"

  /** When an entity was last analysed, in the whole seconds the memory file keeps; None is never. */
  type Stamp = Option<int>

  datatype Entity = Entity(kind: string, name: string)
  datatype Candidate = Candidate(entity: Entity, ts: Stamp)

  /** The memory as one table over both kinds. */
  type Stamps = map<Entity, Stamp>

  function StampsOf(resources: map<string, Stamp>, dataSources: map<string, Stamp>): Stamps {
    map e: Entity |
      e in (set name | name in resources :: Entity(RESOURCE, name)) + (set name | name in dataSources ::
          Entity(DATA_SOURCE, name)) ::
      if e.kind == RESOURCE then resources[e.name] else dataSources[e.name]
  }

  // ---- The order of waiting ----

  /** The comparison handed to the sort: never analysed first, then older, then kind, then name. */
  predicate Before(a: Candidate, b: Candidate) {
    if a.ts.None? && b.ts.Some? then true
    else if a.ts.Some? && b.ts.None? then false
    else if a.ts == b.ts then
      if a.entity.kind != b.entity.kind then !StringLeq(b.entity.kind, a.entity.kind)
      else !StringLeq(b.entity.name, a.entity.name)
    else a.ts.value < b.ts.value
  }

  predicate NotAfter(a: Candidate, b: Candidate) {
    !Before(b, a)
  }

  lemma NotAfterTransitive(a: Candidate, b: Candidate, c: Candidate)
    requires NotAfter(a, b) && NotAfter(b, c)
    ensures NotAfter(a, c)
  {
    StringOrder();
  }

  lemma WaitingOrder()
    ensures TotalOrder(NotAfter)
  {
    StringOrder();
    forall a, b, c | NotAfter(a, b) && NotAfter(b, c)
      ensures NotAfter(a, c)
    {
      NotAfterTransitive(a, b, c);
    }
    forall a, b | NotAfter(a, b) && NotAfter(b, a)
      ensures a == b
    {
      assert a.entity.name == b.entity.name && a.entity.kind == b.entity.kind;
    }
  }

  function Cand(m: Stamps, e: Entity): Candidate
    requires e in m
  {
    Candidate(e, m[e])
  }

  /** The `n` entities that have waited longest, longest first; all of them when there are fewer. */
  ghost predicate IsOldest(m: Stamps, n: nat, picked: seq<Entity>) {
    && Distinct(picked) && Elements(picked) <= m.Keys
    && |picked| == Smaller(n, |m.Keys|)
    && (forall i, j :: 0 <= i < j < |picked| ==>
        picked[i] in m && picked[j] in m && Before(Cand(m, picked[i]), Cand(m, picked[j])))
    && (forall e, f :: e in Elements(picked) && f in m.Keys - Elements(picked) ==> Before(Cand(m, e), Cand(m, f)))
  }

  function Smaller(a: nat, b: nat): nat {
    if a < b then a else b
  }

  lemma CandsAmong(m: Stamps, a: seq<Entity>, ca: seq<Candidate>, b: seq<Entity>, cb: seq<Candidate>)
    requires |ca| == |a| && |cb| == |b| && Elements(a) <= Elements(b) <= m.Keys
    requires forall i :: 0 <= i < |a| ==> ca[i] == Cand(m, InKeys(m, a, i))
    requires forall i :: 0 <= i < |b| ==> cb[i] == Cand(m, InKeys(m, b, i))
    ensures Elements(ca) <= Elements(cb)
  {
    forall x | x in ca
      ensures x in cb
    {
      var i :| 0 <= i < |a| && ca[i] == x;
      assert a[i] in Elements(b);
      var j :| 0 <= j < |b| && b[j] == a[i];
      assert cb[j] == x;
    }
  }

  /** The selection is determined by the memory, whatever order its maps are iterated in. */
  lemma OldestUnique(m: Stamps, n: nat, a: seq<Entity>, b: seq<Entity>)
    requires IsOldest(m, n, a) && IsOldest(m, n, b)
    ensures a == b
  {
    WaitingOrder();
    DistinctMultiset(a);
    DistinctMultiset(b);
    SameSizeSubset(m, n, a, b);
    var ca, cb := seq(|a|, i requires 0 <= i < |a| => Cand(m, InKeys(m, a, i))),
        seq(|b|, i requires 0 <= i < |b| => Cand(m, InKeys(m, b, i)));
    CandsAmong(m, a, ca, b, cb);
    CandsAmong(m, b, cb, a, ca);
    BeforeSorts(ca);
    BeforeSorts(cb);
    SortedSetUnique(ca, cb, NotAfter);
    forall i | 0 <= i < |a|
      ensures a[i] == b[i]
    {
      assert ca[i] == cb[i];
    }
  }

  ghost function InKeys(m: Stamps, picked: seq<Entity>, i: nat): (e: Entity)
    requires Elements(picked) <= m.Keys && i < |picked|
    ensures e == picked[i] && e in m
  {
    assert picked[i] in Elements(picked);
    picked[i]
  }

  lemma BeforeSorts(s: seq<Candidate>)
    requires forall i, j :: 0 <= i < j < |s| ==> Before(s[i], s[j])
    ensures Sorted(s, NotAfter) && Distinct(s)
  {
    forall i, j | 0 <= i < j < |s|
      ensures NotAfter(s[i], s[j]) && s[i] != s[j]
    {
      BeforeStrict(s[i], s[j]);
    }
  }

  lemma BeforeStrict(a: Candidate, b: Candidate)
    requires Before(a, b)
    ensures a != b && NotAfter(a, b)
  {
    StringOrder();
    LeqTotal(a.entity.name, a.entity.name);
  }

  lemma SameSizeSubset(m: Stamps, n: nat, a: seq<Entity>, b: seq<Entity>)
    requires IsOldest(m, n, a) && IsOldest(m, n, b) && |Elements(a)| == |Elements(b)|
    ensures Elements(a) == Elements(b)
  {
    var x, y := Elements(a), Elements(b);
    if x != y {
      assert x - y != {} && y - x != {} by {
        Difference(x, y);
      }
      var e :| e in x - y;
      var f :| f in y - x;
      BeforeStrict(Cand(m, e), Cand(m, f));
      assert false;
    }
  }

  lemma Difference<T>(x: set<T>, y: set<T>)
    requires |x| == |y| && x != y
    ensures x - y != {} && y - x != {}
  {
    assert x == (x - y) + (x * y) && y == (y - x) + (x * y);
    assert |x| == |x - y| + |x * y| && |y| == |y - x| + |x * y|;
    assert |x - y| == |y - x|;
    assert x - y != {} || y - x != {};
    assert |x - y| != 0;
  }

  /** `a` has waited longer than `b`: never analysed before analysed, then the older, then by kind and name. */
  ghost predicate WaitedLonger(m: Stamps, a: Entity, b: Entity)
    requires a in m && b in m
  {
    if m[a] == m[b] then
      a != b && if a.kind == b.kind then StringLeq(a.name, b.name) else StringLeq(a.kind, b.kind)
    else m[a].None? || (m[b].Some? && m[a].value < m[b].value)
  }

  /** A selection lists the entities from the one that has waited longest, and leaves none out that has waited
      longer. */
  lemma SelectionIs(m: Stamps, n: nat, picked: seq<Entity>)
    requires IsOldest(m, n, picked)
    ensures |picked| == if n < |m.Keys| then n else |m.Keys|
    ensures forall e :: e in picked ==> e in m
    ensures forall i, j :: 0 <= i < j < |picked| ==>
              picked[i] in m && picked[j] in m && WaitedLonger(m, picked[i], picked[j])
    ensures forall e, f :: e in picked && f in m && f !in picked ==> e in m && WaitedLonger(m, e, f)
  {
    forall i | 0 <= i < |picked|
      ensures picked[i] in m
    {
      assert picked[i] in Elements(picked);
    }
    forall i, j | 0 <= i < j < |picked|
      ensures WaitedLonger(m, picked[i], picked[j])
    {
      BeforeWaits(m, picked[i], picked[j]);
    }
    forall e, f | e in picked && f in m && f !in picked
      ensures e in m && WaitedLonger(m, e, f)
    {
      assert e in Elements(picked) && f in m.Keys - Elements(picked);
      BeforeWaits(m, e, f);
    }
  }

  lemma BeforeWaits(m: Stamps, a: Entity, b: Entity)
    requires a in m && b in m && Before(Cand(m, a), Cand(m, b))
    ensures WaitedLonger(m, a, b)
  {
    BeforeStrict(Cand(m, a), Cand(m, b));
    LeqTotal(a.kind, b.kind);
    LeqTotal(a.name, b.name);
  }

  // ---- The memory ----

  /** The memory after stamping `picked` with `now`. */
  ghost function Recorded(m: Stamps, picked: seq<Entity>, now: int): Stamps {
    map e | e in m.Keys + Elements(picked) :: if e in Elements(picked) then Some(now) else m[e]
  }

  predicate Recordable(e: Entity) {
    (e.kind == RESOURCE || e.kind == DATA_SOURCE) && e.name != ""
  }

  /** `record` refuses the whole list because of an entity without a name. */
  ghost predicate Refused(picked: seq<Entity>) {
    exists e :: e in picked && e.name == ""
  }

  /** What a round leaves: the selection stamped, or the memory as it was when `record` refuses it. */
  ghost function AfterRound(m: Stamps, picked: seq<Entity>, now: int): Stamps {
    if Refused(picked) then m else Recorded(m, picked, now)
  }

  ghost predicate AllNamed(m: Stamps) {
    forall e :: e in m ==> e.name != ""
  }

  class Memory {
    var resources: map<string, Stamp>
    var dataSources: map<string, Stamp>

    function Contents(): Stamps
      reads this
    {
      StampsOf(resources, dataSources)
    }

    constructor (resources: map<string, Stamp>, dataSources: map<string, Stamp>)
      ensures Contents() == StampsOf(resources, dataSources)
    {
      this.resources, this.dataSources := resources, dataSources;
    }

    /** `selectEntities`. */
    method SelectEntities(n: nat) returns (picked: seq<Entity>)
      ensures IsOldest(Contents(), n, picked)
    {
      var r := Candidates(RESOURCE, resources);
      var d := Candidates(DATA_SOURCE, dataSources);
      AllCandidates(resources, dataSources, r, d);
      WaitingOrder();
      var sorted := Sort(r + d, NotAfter);
      DistinctMultiset(r + d);
      DistinctFromMultiset(sorted, Elements(r + d));
      DistinctMultiset(sorted);
      OnePerEntity(Contents(), Elements(sorted));
      var count := if n > |sorted| then |sorted| else n;
      picked := [];
      for i := 0 to count
        invariant |picked| == i && forall k :: 0 <= k < i ==> picked[k] == sorted[k].entity
      {
        picked := picked + [sorted[i].entity];
      }
      PrefixIsOldest(Contents(), n, sorted, picked);
    }

    /** The update inside `cmdRecord`: refused as a whole when an entity is malformed. */
    method Record(entities: seq<Entity>, now: int) returns (ok: bool)
      modifies this
      ensures ok <==> entities != [] && forall i :: 0 <= i < |entities| ==> Recordable(entities[i])
      ensures Contents() == if ok then Recorded(old(Contents()), entities, now) else old(Contents())
      ensures ok ==> Contents().Keys == old(Contents()).Keys + Elements(entities)
      ensures ok ==> forall e :: e in Contents() ==>
                       Contents()[e] == if e in entities then Some(now) else old(Contents())[e]
    {
      if entities == [] {
        return false;
      }
      for i := 0 to |entities|
        invariant Contents() == old(Contents())
        invariant forall k :: 0 <= k < i ==> Recordable(entities[k])
      {
        if !Recordable(entities[i]) {
          return false;
        }
      }
      assert Recorded(old(Contents()), entities[..0], now) == old(Contents());
      for i := 0 to |entities|
        invariant Contents() == Recorded(old(Contents()), entities[..i], now)
      {
        var e := entities[i];
        ghost var old_r, old_d := resources, dataSources;
        if e.kind == RESOURCE {
          resources := resources[e.name := Some(now)];
        } else {
          dataSources := dataSources[e.name := Some(now)];
        }
        StampOne(old_r, old_d, e, now);
        RecordOneMore(old(Contents()), entities, i, now);
      }
      assert entities[..|entities|] == entities;
      ok := true;
    }

    /** One round of the scheduler: `select` piped into `record`, which refuses the whole round when a selected
        entity has no name. */
    method Round(n: nat, now: int) returns (picked: seq<Entity>)
      modifies this
      ensures IsOldest(old(Contents()), n, picked)
      ensures Contents() == AfterRound(old(Contents()), picked, now)
    {
      picked := SelectEntities(n);
      PickedRecordable(resources, dataSources, picked);
      RecordedNothing(Contents(), now);
      var ok := Record(picked, now);
    }

    /** `reconcileMemory`: the inventory exactly, old stamps kept, newcomers never analysed. */
    method Reconcile(resourceNames: set<string>, dataSourceNames: set<string>) returns (added: nat, removed: nat)
      modifies this
      ensures resources == Reconciled(old(resources), resourceNames)
      ensures dataSources == Reconciled(old(dataSources), dataSourceNames)
      ensures added == |resourceNames - old(resources).Keys| + |dataSourceNames - old(dataSources).Keys|
      ensures removed == |old(resources).Keys - resourceNames| + |old(dataSources).Keys - dataSourceNames|
    {
      var r, ra, rr := ReconcileEntries(resources, resourceNames);
      var d, da, dr := ReconcileEntries(dataSources, dataSourceNames);
      resources, dataSources := r, d;
      added, removed := ra + da, rr + dr;
    }

    /** `normalizeMemoryKeys`. */
    method NormalizeKeys() returns (ofResources: Migration, ofDataSources: Migration)
      modifies this
      ensures resources == NormalizedOf(old(resources)) && ofResources == MigrationOf(old(resources))
      ensures dataSources == NormalizedOf(old(dataSources)) && ofDataSources == MigrationOf(old(dataSources))
    {
      resources, ofResources := NormalizeEntries(resources);
      dataSources, ofDataSources := NormalizeEntries(dataSources);
    }
  }

  lemma PickedRecordable(resources: map<string, Stamp>, dataSources: map<string, Stamp>, picked: seq<Entity>)
    requires Elements(picked) <= StampsOf(resources, dataSources).Keys
    ensures (forall i :: 0 <= i < |picked| ==> Recordable(picked[i])) <==> !Refused(picked)
  {
    forall i | 0 <= i < |picked|
      ensures Recordable(picked[i]) <==> picked[i].name != ""
    {
      assert picked[i] in Elements(picked);
      assert picked[i] in StampsOf(resources, dataSources);
    }
    if e :| e in picked && e.name == "" {
      var i :| 0 <= i < |picked| && picked[i] == e;
      assert !Recordable(picked[i]);
    }
  }

  lemma RecordedNothing(m: Stamps, now: int)
    ensures Recorded(m, [], now) == m
  {
    assert Elements<Entity>([]) == {};
  }

  ghost function CandidatesOf(kind: string, entries: map<string, Stamp>): set<Candidate> {
    set name | name in entries :: Candidate(Entity(kind, name), entries[name])
  }

  /** One loop of `selectEntities`: a candidate per entry, in any order. */
  method Candidates(kind: string, entries: map<string, Stamp>) returns (out: seq<Candidate>)
    ensures Distinct(out) && Elements(out) == CandidatesOf(kind, entries)
  {
    out := [];
    var left := entries.Keys;
    while left != {}
      invariant left <= entries.Keys && Distinct(out)
      invariant Elements(out) == set name | name in entries && name !in left ::
                  Candidate(Entity(kind, name), entries[name])
      decreases left
    {
      var name :| name in left;
      var c := Candidate(Entity(kind, name), entries[name]);
      assert c !in Elements(out);
      AppendDistinct(out, c);
      out := out + [c];
      left := left - {name};
    }
  }

  ghost function AllOf(m: Stamps): set<Candidate> {
    set e | e in m :: Cand(m, e)
  }

  lemma AllCandidates(resources: map<string, Stamp>, dataSources: map<string, Stamp>, r: seq<Candidate>,
      d: seq<Candidate>)
    requires Distinct(r) && Elements(r) == CandidatesOf(RESOURCE, resources)
    requires Distinct(d) && Elements(d) == CandidatesOf(DATA_SOURCE, dataSources)
    ensures Distinct(r + d) && Elements(r + d) == AllOf(StampsOf(resources, dataSources))
  {
    assert RESOURCE[0] != DATA_SOURCE[0];
    forall i, j | 0 <= i < j < |r + d|
      ensures (r + d)[i] != (r + d)[j]
    {
      if i < |r| <= j {
        assert r[i] in Elements(r) && d[j - |r|] in Elements(d);
      }
    }
    assert Elements(r + d) == Elements(r) + Elements(d);
    var m := StampsOf(resources, dataSources);
    forall c | c in Elements(r) + Elements(d)
      ensures c in AllOf(m)
    {
      assert c.entity in m && c == Cand(m, c.entity);
    }
    forall c | c in AllOf(m)
      ensures c in Elements(r) + Elements(d)
    {
    }
  }

  lemma WithoutOne(m: Stamps, e: Entity, rest: Stamps)
    requires e in m && rest == m - {e}
    ensures AllOf(rest) == AllOf(m) - {Cand(m, e)}
  {
    forall c
      ensures c in AllOf(rest) <==> c in AllOf(m) && c != Cand(m, e)
    {
      if c in AllOf(m) && c != Cand(m, e) {
        assert c.entity in rest && c == Cand(rest, c.entity);
      }
      if c in AllOf(rest) {
        assert c == Cand(m, c.entity);
      }
    }
  }

  lemma {:induction false} OnePerEntity(m: Stamps, all: set<Candidate>)
    requires all == AllOf(m)
    ensures |all| == |m.Keys|
    decreases |m|
  {
    if m.Keys == {} {
      assert all == {};
    } else {
      var e :| e in m.Keys;
      var rest := m - {e};
      assert rest.Keys == m.Keys - {e};
      WithoutOne(m, e, rest);
      OnePerEntity(rest, AllOf(rest));
    }
  }

  lemma PrefixIsOldest(m: Stamps, n: nat, sorted: seq<Candidate>, picked: seq<Entity>)
    requires Distinct(sorted) && Sorted(sorted, NotAfter) && Elements(sorted) == AllOf(m) && |sorted| == |m.Keys|
    requires |picked| == Smaller(n, |sorted|) && forall i :: 0 <= i < |picked| ==> picked[i] == sorted[i].entity
    ensures IsOldest(m, n, picked)
  {
    forall i | 0 <= i < |sorted|
      ensures sorted[i].entity in m && sorted[i] == Cand(m, sorted[i].entity)
    {
      assert sorted[i] in Elements(sorted);
    }
    forall i, j | 0 <= i < j < |sorted|
      ensures Before(sorted[i], sorted[j])
    {
      SortedStrict(sorted[i], sorted[j]);
    }
    forall i, j | 0 <= i < j < |picked|
      ensures picked[i] in m && picked[j] in m && picked[i] != picked[j] &&
                Before(Cand(m, picked[i]), Cand(m, picked[j]))
    {
      assert Before(sorted[i], sorted[j]);
      assert sorted[i] != sorted[j];
    }
    forall e, f | e in Elements(picked) && f in m.Keys - Elements(picked)
      ensures e in m && Before(Cand(m, e), Cand(m, f))
    {
      var i :| 0 <= i < |picked| && picked[i] == e;
      assert Cand(m, f) in Elements(sorted);
      var j :| 0 <= j < |sorted| && sorted[j] == Cand(m, f);
      assert forall k :: 0 <= k < |picked| ==> picked[k] in Elements(picked);
      assert j >= |picked|;
      assert Before(sorted[i], sorted[j]);
    }
    forall e | e in Elements(picked)
      ensures e in m.Keys
    {
      var i :| 0 <= i < |picked| && picked[i] == e;
    }
  }

  lemma SortedStrict(a: Candidate, b: Candidate)
    requires NotAfter(a, b) && a != b
    ensures Before(a, b)
  {
    WaitingOrder();
    assert !NotAfter(b, a);
  }

  lemma StampOne(resources: map<string, Stamp>, dataSources: map<string, Stamp>, e: Entity, now: int)
    requires Recordable(e)
    ensures StampsOf(resources, dataSources)[e := Some(now)]
         == if e.kind == RESOURCE then StampsOf(resources[e.name := Some(now)], dataSources)
            else StampsOf(resources, dataSources[e.name := Some(now)])
  {
    if e.kind == RESOURCE {
      StampResource(resources, dataSources, e.name, now);
    } else {
      StampDataSource(resources, dataSources, e.name, now);
    }
  }

  lemma KindsDiffer()
    ensures RESOURCE != DATA_SOURCE
  {
    assert RESOURCE[0] != DATA_SOURCE[0];
  }

  ghost function StampAt(m: Stamps, e: Entity): Option<Stamp> {
    if e in m then Some(m[e]) else None
  }

  ghost function EntryAt(entries: map<string, Stamp>, name: string): Option<Stamp> {
    if name in entries then Some(entries[name]) else None
  }

  lemma StampsAt(resources: map<string, Stamp>, dataSources: map<string, Stamp>, e: Entity)
    ensures StampAt(StampsOf(resources, dataSources), e) ==
            if e.kind == RESOURCE then EntryAt(resources, e.name)
            else if e.kind == DATA_SOURCE then EntryAt(dataSources, e.name) else None
  {
    KindsDiffer();
  }

  lemma SameStamps(a: Stamps, b: Stamps)
    requires forall e :: StampAt(a, e) == StampAt(b, e)
    ensures a == b
  {
    forall e
      ensures e in a <==> e in b
      ensures e in a ==> a[e] == b[e]
    {
      assert StampAt(a, e) == StampAt(b, e);
    }
  }

  lemma StampResource(resources: map<string, Stamp>, dataSources: map<string, Stamp>, name: string, now: int)
    ensures StampsOf(resources, dataSources)[Entity(RESOURCE, name) := Some(now)] ==
              StampsOf(resources[name := Some(now)], dataSources)
  {
    KindsDiffer();
    var a, b := StampsOf(resources, dataSources)[Entity(RESOURCE, name) := Some(now)],
        StampsOf(resources[name := Some(now)], dataSources);
    forall e
      ensures StampAt(a, e) == StampAt(b, e)
    {
      StampsAt(resources, dataSources, e);
      StampsAt(resources[name := Some(now)], dataSources, e);
    }
    SameStamps(a, b);
  }

  lemma StampDataSource(resources: map<string, Stamp>, dataSources: map<string, Stamp>, name: string, now: int)
    ensures StampsOf(resources, dataSources)[Entity(DATA_SOURCE, name) := Some(now)] ==
              StampsOf(resources, dataSources[name := Some(now)])
  {
    KindsDiffer();
    var a, b := StampsOf(resources, dataSources)[Entity(DATA_SOURCE, name) := Some(now)],
        StampsOf(resources, dataSources[name := Some(now)]);
    forall e
      ensures StampAt(a, e) == StampAt(b, e)
    {
      StampsAt(resources, dataSources, e);
      StampsAt(resources, dataSources[name := Some(now)], e);
    }
    SameStamps(a, b);
  }

  lemma RecordOneMore(m: Stamps, entities: seq<Entity>, i: nat, now: int)
    requires i < |entities|
    ensures Recorded(m, entities[..i + 1], now) == Recorded(m, entities[..i], now)[entities[i] := Some(now)]
  {
    assert entities[..i + 1] == entities[..i] + [entities[i]];
    assert Elements(entities[..i + 1]) == Elements(entities[..i]) + {entities[i]};
  }

  // ---- Reconciling with the provider ----

  function Reconciled(entries: map<string, Stamp>, inventory: set<string>): map<string, Stamp> {
    map name | name in inventory :: if name in entries then entries[name] else None
  }

  /** Exactly the inventory, with the old stamps, and newcomers never analysed. */
  lemma ReconciledIs(entries: map<string, Stamp>, inventory: set<string>)
    ensures Reconciled(entries, inventory).Keys == inventory
    ensures forall name :: name in inventory && name in entries ==>
              Reconciled(entries, inventory)[name] == entries[name]
    ensures forall name :: name in inventory && name !in entries ==> Reconciled(entries, inventory)[name] == None
  {
  }

  ghost predicate KeepsStamps(entries: map<string, Stamp>, out: map<string, Stamp>) {
    forall name :: name in out ==> out[name] == if name in entries then entries[name] else None
  }

  ghost predicate Adding(entries: map<string, Stamp>, inventory: set<string>, left: set<string>,
      out: map<string, Stamp>, added: nat) {
    && left <= inventory && KeepsStamps(entries, out)
    && (forall name :: name in out ==> name in entries || name in inventory)
    && (forall name :: name in entries || (name in inventory && name !in left) ==> name in out)
    && |out.Keys| == |entries.Keys| + added
  }

  lemma AddOne(entries: map<string, Stamp>, inventory: set<string>, left: set<string>, out: map<string, Stamp>,
      added: nat, name: string)
    requires Adding(entries, inventory, left, out, added) && name in left && name !in out
    ensures Adding(entries, inventory, left - {name}, out[name := None], added + 1)
  {
    assert out[name := None].Keys == out.Keys + {name};
  }

  lemma SkipOne(entries: map<string, Stamp>, inventory: set<string>, left: set<string>, out: map<string, Stamp>,
      added: nat, name: string)
    requires Adding(entries, inventory, left, out, added) && name in left && name in out
    ensures Adding(entries, inventory, left - {name}, out, added)
  {
  }

  lemma AddedAll(entries: map<string, Stamp>, inventory: set<string>, out: map<string, Stamp>, added: nat)
    requires Adding(entries, inventory, {}, out, added)
    ensures out.Keys == entries.Keys + inventory && KeepsStamps(entries, out) && added == |inventory - entries.Keys|
  {
    assert out.Keys == entries.Keys + (inventory - entries.Keys);
    assert entries.Keys !! inventory - entries.Keys;
  }

  method AddMissing(entries: map<string, Stamp>, inventory: set<string>) returns (out: map<string, Stamp>, added: nat)
    ensures out.Keys == entries.Keys + inventory && KeepsStamps(entries, out)
    ensures added == |inventory - entries.Keys|
  {
    out, added := entries, 0;
    var left := inventory;
    while left != {}
      invariant Adding(entries, inventory, left, out, added)
      decreases left
    {
      var name :| name in left;
      if name !in out {
        AddOne(entries, inventory, left, out, added, name);
        out := out[name := None];
        added := added + 1;
      } else {
        SkipOne(entries, inventory, left, out, added, name);
      }
      left := left - {name};
    }
    AddedAll(entries, inventory, out, added);
  }

  method RemoveStale(entries: map<string, Stamp>, inventory: set<string>)
    returns (out: map<string, Stamp>, removed: nat)
    ensures out.Keys == entries.Keys * inventory && KeepsStamps(entries, out)
    ensures removed == |entries.Keys - inventory|
  {
    out, removed := entries, 0;
    var left := entries.Keys;
    while left != {}
      invariant left <= out.Keys <= entries.Keys && KeepsStamps(entries, out)
      invariant out.Keys == left + entries.Keys * inventory
      invariant |out.Keys| + removed == |entries.Keys|
      decreases left
    {
      var name :| name in left;
      if name !in inventory {
        RemoveOne(entries, out, name);
        out := out - {name};
        removed := removed + 1;
      }
      left := left - {name};
    }
    assert entries.Keys == out.Keys + (entries.Keys - inventory);
  }

  lemma RemoveOne(entries: map<string, Stamp>, out: map<string, Stamp>, name: string)
    requires KeepsStamps(entries, out) && name in out
    ensures KeepsStamps(entries, out - {name}) && (out - {name}).Keys == out.Keys - {name}
  {
  }

  method ReconcileEntries(entries: map<string, Stamp>, inventory: set<string>)
    returns (out: map<string, Stamp>, added: nat, removed: nat)
    ensures out == Reconciled(entries, inventory)
    ensures added == |inventory - entries.Keys| && removed == |entries.Keys - inventory|
  {
    var more: map<string, Stamp>;
    more, added := AddMissing(entries, inventory);
    out, removed := RemoveStale(more, inventory);
    ReconcileStages(entries, inventory, more, out);
  }

  lemma ReconcileStages(entries: map<string, Stamp>, inventory: set<string>, more: map<string, Stamp>,
      out: map<string, Stamp>)
    requires more.Keys == entries.Keys + inventory && KeepsStamps(entries, more)
    requires out.Keys == more.Keys * inventory && KeepsStamps(more, out)
    ensures out == Reconciled(entries, inventory)
    ensures more.Keys - inventory == entries.Keys - inventory
  {
    assert out.Keys == inventory;
    forall name | name in inventory
      ensures out[name] == Reconciled(entries, inventory)[name]
    {
      assert name in out && name in more;
    }
  }

  /** With an unchanged inventory, reconciling between rounds is invisible. */
  lemma ReconcileSettles(entries: map<string, Stamp>, inventory: set<string>)
    ensures Reconciled(Reconciled(entries, inventory), inventory) == Reconciled(entries, inventory)
    ensures Reconciled(entries, inventory) == entries <==> entries.Keys == inventory
  {
    assert Reconciled(entries, inventory).Keys == inventory;
  }

  // ---- Migrating legacy keys ----

  function NormalizeKey(name: string): string {
    if HasPrefix(name, PREFIX) then name else PREFIX + name
  }

  function MergeTimestamps(existing: Stamp, incoming: Stamp): Stamp {
    if existing.None? then incoming
    else if incoming.None? then existing
    else if incoming.value > existing.value then incoming
    else existing
  }

  predicate NoNewer(a: Stamp, b: Stamp) {
    a.None? || (b.Some? && a.value <= b.value)
  }

  /** `v` is the newest stamp among the entries that `norm` sends to `key`. */
  ghost predicate IsNewest(entries: map<string, Stamp>, norm: string -> string, key: string, v: Stamp) {
    && (exists name :: name in entries && norm(name) == key && entries[name] == v)
    && (forall name :: name in entries && norm(name) == key ==> NoNewer(entries[name], v))
  }

  /** The canonical keys, each with the newest stamp of the names that migrate to it. */
  ghost predicate IsMerged(entries: map<string, Stamp>, norm: string -> string, out: map<string, Stamp>) {
    && (forall name :: name in entries ==> norm(name) in out)
    && (forall key :: key in out ==> IsNewest(entries, norm, key, out[key]))
  }

  ghost predicate IsNormalized(entries: map<string, Stamp>, out: map<string, Stamp>) {
    IsMerged(entries, NormalizeKey, out)
  }

  ghost function Moved(entries: map<string, Stamp>, norm: string -> string): set<string> {
    set name | name in entries && norm(name) != name
  }

  ghost function Legacy(entries: map<string, Stamp>): set<string> {
    Moved(entries, NormalizeKey)
  }

  /** How many names were migrated, and how many of them met another under their canonical key. */
  datatype Migration = Migration(migrated: nat, collisions: nat)

  /** The entries merged one after the other, in some order (see `MergedUnique`). */
  ghost function MergeAll(entries: map<string, Stamp>, norm: string -> string): map<string, Stamp>
    decreases |entries|
  {
    if entries == map[] then map[]
    else
      var name :| name in entries;
      OneFewer(entries, name);
      Absorb(MergeAll(entries - {name}, norm), norm(name), entries[name])
  }

  /** The one migration of the entries. */
  ghost function NormalizedOf(entries: map<string, Stamp>): map<string, Stamp> {
    MergeAll(entries, NormalizeKey)
  }

  /** The names that were not canonical, and the entries that met another under their key. */
  ghost function MigrationOf(entries: map<string, Stamp>): Migration {
    MergeAllIs(entries, NormalizeKey);
    Migration(|Legacy(entries)|, |entries| - |NormalizedOf(entries)|)
  }

  /** `normalizeMemoryEntries`. */
  method NormalizeEntries(entries: map<string, Stamp>) returns (out: map<string, Stamp>, m: Migration)
    ensures out == NormalizedOf(entries) && m == MigrationOf(entries)
  {
    var migrated, collisions;
    out, migrated, collisions := MergeEntries(entries, NormalizeKey);
    MergeAllIs(entries, NormalizeKey);
    MergedUnique(entries, NormalizeKey, out, NormalizedOf(entries));
    m := Migration(migrated, collisions);
  }

  lemma {:induction false} MergeAllIs(entries: map<string, Stamp>, norm: string -> string)
    ensures IsMerged(entries, norm, MergeAll(entries, norm)) && |MergeAll(entries, norm)| <= |entries|
    decreases |entries|
  {
    if entries != map[] {
      var name :| name in entries && MergeAll(entries, norm) ==
                  Absorb(MergeAll(entries - {name}, norm), norm(name), entries[name]);
      OneFewer(entries, name);
      MergeAllIs(entries - {name}, norm);
      MergeStep(entries - {name}, norm, MergeAll(entries - {name}, norm), name, entries[name]);
    }
  }

  /** Each canonical key has the newest stamp of the names that migrate to it, and the entries that went missing are
      the collisions counted. */
  lemma NormalizedIs(entries: map<string, Stamp>)
    ensures IsNormalized(entries, NormalizedOf(entries))
    ensures |NormalizedOf(entries)| + MigrationOf(entries).collisions == |entries|
    ensures forall name :: name in entries ==> NormalizeKey(name) in NormalizedOf(entries)
    ensures forall key :: key in NormalizedOf(entries) ==> exists name :: name in entries && NormalizeKey(name) == key
  {
    MergeAllIs(entries, NormalizeKey);
  }

  /** The canonical key of a name is the name with the prefix, added when it is missing. */
  lemma CanonicalKey(name: string)
    ensures NormalizeKey(name) == if "elasticstack_" <= name then name else "elasticstack_" + name
    ensures "elasticstack_" <= NormalizeKey(name)
  {
  }

  lemma OneFewer(entries: map<string, Stamp>, name: string)
    requires name in entries
    ensures (entries - {name})[name := entries[name]] == entries && |entries - {name}| == |entries| - 1
  {
    assert (entries - {name}).Keys == entries.Keys - {name};
  }

  method MergeEntries(entries: map<string, Stamp>, norm: string -> string)
    returns (out: map<string, Stamp>, migrated: nat, collisions: nat)
    ensures IsMerged(entries, norm, out)
    ensures migrated == |Moved(entries, norm)| && |out| + collisions == |entries|
  {
    out, migrated, collisions := map[], 0, 0;
    var left := entries;
    ghost var done: map<string, Stamp> := map[];
    while left != map[]
      invariant MergeInvariant(entries, norm, done, left, out, migrated, collisions)
      decreases |left|
    {
      var name :| name in left;
      var ts := left[name];
      MergeTurn(entries, norm, done, left, out, migrated, collisions, name);
      if norm(name) != name {
        migrated := migrated + 1;
      }
      if norm(name) in out {
        collisions := collisions + 1;
      }
      out := Absorb(out, norm(name), ts);
      done := done[name := ts];
      left := left - {name};
    }
    MergedAll(entries, norm, done, out, migrated, collisions);
  }

  lemma MergedAll(entries: map<string, Stamp>, norm: string -> string, done: map<string, Stamp>,
      out: map<string, Stamp>, migrated: nat, collisions: nat)
    requires MergeInvariant(entries, norm, done, map[], out, migrated, collisions)
    ensures IsMerged(entries, norm, out) && migrated == |Moved(entries, norm)| && |out| + collisions == |entries|
  {
    NothingLeft(entries, done);
  }

  lemma NothingLeft(entries: map<string, Stamp>, done: map<string, Stamp>)
    requires done + map[] == entries
    ensures done == entries
  {
  }

  ghost predicate MergeInvariant(entries: map<string, Stamp>, norm: string -> string, done: map<string, Stamp>,
      left: map<string, Stamp>, out: map<string, Stamp>, migrated: nat, collisions: nat) {
    && left.Keys !! done.Keys && done + left == entries
    && IsMerged(done, norm, out)
    && migrated == |Moved(done, norm)| && |out| + collisions == |done|
  }

  lemma MergeTurn(entries: map<string, Stamp>, norm: string -> string, done: map<string, Stamp>,
      left: map<string, Stamp>, out: map<string, Stamp>, migrated: nat, collisions: nat, name: string)
    requires MergeInvariant(entries, norm, done, left, out, migrated, collisions) && name in left
    ensures MergeInvariant(entries, norm, done[name := left[name]], left - {name}, Absorb(out, norm(name), left[name]),
                           if norm(name) != name then migrated + 1 else migrated,
                           if norm(name) in out then collisions + 1 else collisions)
    ensures |left - {name}| < |left|
  {
    var ts := left[name];
    MovedStep(done, norm, name, ts);
    MergeStep(done, norm, out, name, ts);
    OneOver(done, left, name);
  }

  function Absorb(out: map<string, Stamp>, key: string, ts: Stamp): map<string, Stamp> {
    if key in out then out[key := MergeTimestamps(out[key], ts)] else out[key := ts]
  }

  lemma OneOver(done: map<string, Stamp>, left: map<string, Stamp>, name: string)
    requires name in left && left.Keys !! done.Keys
    ensures done[name := left[name]] + (left - {name}) == done + left
    ensures |left - {name}| < |left|
  {
    assert (left - {name}).Keys == left.Keys - {name};
  }

  lemma MovedStep(done: map<string, Stamp>, norm: string -> string, name: string, ts: Stamp)
    requires name !in done
    ensures |Moved(done[name := ts], norm)| == |Moved(done, norm)| + if norm(name) != name then 1 else 0
    ensures |done[name := ts]| == |done| + 1
  {
    assert done[name := ts].Keys == done.Keys + {name};
    MovedSet(done, norm, name, ts);
  }

  lemma MovedSet(done: map<string, Stamp>, norm: string -> string, name: string, ts: Stamp)
    requires name !in done
    ensures name !in Moved(done, norm)
    ensures Moved(done[name := ts], norm) ==
              if norm(name) != name then Moved(done, norm) + {name} else Moved(done, norm)
  {
  }

  lemma NewestStep(done: map<string, Stamp>, norm: string -> string, out: map<string, Stamp>, name: string, ts: Stamp,
      key: string)
    requires IsMerged(done, norm, out) && name !in done && (key in out || norm(name) == key)
    ensures key in Absorb(out, norm(name), ts)
    ensures IsNewest(done[name := ts], norm, key, Absorb(out, norm(name), ts)[key])
  {
    if key !in out {
      FirstOfKey(done, norm, out, name, ts, key);
    } else if norm(name) == key {
      NewerOfKey(done, norm, name, ts, key, out[key]);
    } else {
      OtherKey(done, norm, name, ts, key, out[key]);
    }
  }

  lemma FirstOfKey(done: map<string, Stamp>, norm: string -> string, out: map<string, Stamp>, name: string, ts: Stamp,
      key: string)
    requires IsMerged(done, norm, out) && name !in done && key !in out && norm(name) == key
    ensures IsNewest(done[name := ts], norm, key, ts)
  {
    var next := done[name := ts];
    assert name in next && next[name] == ts;
    assert forall n :: n in done ==> norm(n) in out;
  }

  lemma NewerOfKey(done: map<string, Stamp>, norm: string -> string, name: string, ts: Stamp, key: string, v: Stamp)
    requires name !in done && norm(name) == key && IsNewest(done, norm, key, v)
    ensures IsNewest(done[name := ts], norm, key, MergeTimestamps(v, ts))
  {
    var next := done[name := ts];
    var n :| n in done && norm(n) == key && done[n] == v;
    assert n in next && next[n] == v && name in next && next[name] == ts;
  }

  lemma OtherKey(done: map<string, Stamp>, norm: string -> string, name: string, ts: Stamp, key: string, v: Stamp)
    requires name !in done && norm(name) != key && IsNewest(done, norm, key, v)
    ensures IsNewest(done[name := ts], norm, key, v)
  {
    var next := done[name := ts];
    var n :| n in done && norm(n) == key && done[n] == v;
    assert n in next && next[n] == v;
  }

  lemma MergeStep(done: map<string, Stamp>, norm: string -> string, out: map<string, Stamp>, name: string, ts: Stamp)
    requires IsMerged(done, norm, out) && name !in done
    ensures var out' := Absorb(out, norm(name), ts);
            IsMerged(done[name := ts], norm, out') && |out'| == if norm(name) in out then |out| else |out| + 1
  {
    var key := norm(name);
    var out' := Absorb(out, key, ts);
    assert out'.Keys == out.Keys + {key};
    forall k | k in out'
      ensures IsNewest(done[name := ts], norm, k, out'[k])
    {
      NewestStep(done, norm, out, name, ts, k);
    }
  }

  lemma NewestUnique(entries: map<string, Stamp>, norm: string -> string, key: string, v: Stamp, w: Stamp)
    requires IsNewest(entries, norm, key, v) && IsNewest(entries, norm, key, w)
    ensures v == w
  {
    var a :| a in entries && norm(a) == key && entries[a] == v;
    var b :| b in entries && norm(b) == key && entries[b] == w;
    assert NoNewer(v, w) && NoNewer(w, v);
  }

  /** The migration does not depend on map order. */
  lemma MergedUnique(entries: map<string, Stamp>, norm: string -> string, a: map<string, Stamp>, b: map<string, Stamp>)
    requires IsMerged(entries, norm, a) && IsMerged(entries, norm, b)
    ensures a == b
  {
    forall key | key in a
      ensures key in b && a[key] == b[key]
    {
      assert IsNewest(entries, norm, key, a[key]);
      var name :| name in entries && norm(name) == key && entries[name] == a[key];
      NewestUnique(entries, norm, key, a[key], b[key]);
    }
    forall key | key in b
      ensures key in a
    {
      assert IsNewest(entries, norm, key, b[key]);
      var name :| name in entries && norm(name) == key && entries[name] == b[key];
    }
  }

  lemma NormalizeKeyStable(name: string)
    ensures NormalizeKey(NormalizeKey(name)) == NormalizeKey(name)
  {
  }

  lemma CanonicalKeys(entries: map<string, Stamp>, a: map<string, Stamp>, key: string)
    requires IsNormalized(entries, a) && key in a
    ensures NormalizeKey(key) == key
  {
    assert IsNewest(entries, NormalizeKey, key, a[key]);
    var name :| name in entries && NormalizeKey(name) == key;
    NormalizeKeyStable(name);
  }

  /** Migrating twice is migrating once. */
  lemma NormalizedFixed(entries: map<string, Stamp>, a: map<string, Stamp>)
    requires IsNormalized(entries, a)
    ensures IsNormalized(a, a)
  {
    forall key | key in a
      ensures NormalizeKey(key) == key && IsNewest(a, NormalizeKey, key, a[key])
    {
      CanonicalKeys(entries, a, key);
      forall other | other in a && NormalizeKey(other) == key
        ensures other == key
      {
        CanonicalKeys(entries, a, other);
      }
    }
  }

  // ---- Fairness over whole runs ----

  /** `now` is later than every stamp in the memory. */
  ghost predicate Later(m: Stamps, now: int) {
    forall e :: e in m && m[e].Some? ==> m[e].value < now
  }

  ghost predicate RoundAt(n: nat, states: seq<Stamps>, picks: seq<seq<Entity>>, times: seq<int>, i: nat) {
    && i < |picks| == |times| && |states| == |picks| + 1
    && Later(states[i], times[i])
    && IsOldest(states[i], n, picks[i])
    && states[i + 1] == AfterRound(states[i], picks[i], times[i])
  }

  /** Any number of rounds of `n`, as `Memory.Round` makes them, each recorded later than everything before it. */
  ghost predicate IsRun(n: nat, states: seq<Stamps>, picks: seq<seq<Entity>>, times: seq<int>) {
    && |picks| == |times| && |states| == |picks| + 1
    && forall i :: 0 <= i < |picks| ==> RoundAt(n, states, picks, times, i)
  }

  /** Everything picked in rounds `first` to `upTo - 1`. */
  ghost function PickedIn(picks: seq<seq<Entity>>, first: nat, upTo: nat): set<Entity>
    requires first <= upTo <= |picks|
  {
    if first == upTo then {} else PickedIn(picks, first, upTo - 1) + Elements(picks[upTo - 1])
  }

  /** Whatever is outside `done` waits ahead of everything inside. */
  ghost predicate WaitsAhead(m: Stamps, done: set<Entity>) {
    done <= m.Keys && forall a, b {:trigger Older(m, a, b)} :: a in m.Keys - done && b in done ==> Older(m, a, b)
  }

  /** `a` was stamped before `b`, or never. */
  ghost predicate Older(m: Stamps, a: Entity, b: Entity) {
    a in m && b in m && m[b].Some? && (m[a].None? || m[a].value < m[b].value)
  }

  lemma {:induction false} InventoryFixed(n: nat, states: seq<Stamps>, picks: seq<seq<Entity>>, times: seq<int>, i: nat)
    requires IsRun(n, states, picks, times) && i < |states|
    ensures states[i].Keys == states[0].Keys
    decreases i
  {
    if i > 0 {
      InventoryFixed(n, states, picks, times, i - 1);
      assert RoundAt(n, states, picks, times, i - 1);
    }
  }

  /** A round takes no entity of `done` unless it takes everything else too. */
  lemma OthersFirst(m: Stamps, n: nat, picked: seq<Entity>, done: set<Entity>)
    requires IsOldest(m, n, picked) && WaitsAhead(m, done)
    ensures Elements(picked) !! done || m.Keys - done <= Elements(picked)
  {
    if b :| b in Elements(picked) && b in done {
      forall a | a in m.Keys - done
        ensures a in Elements(picked)
      {
        assert Older(m, a, b);
        assert Before(Cand(m, a), Cand(m, b));
        BeforeStrict(Cand(m, a), Cand(m, b));
      }
    }
  }

  lemma RoundKeepsAhead(m: Stamps, picked: seq<Entity>, now: int, done: set<Entity>)
    requires WaitsAhead(m, done) && Later(m, now) && Elements(picked) <= m.Keys
    ensures WaitsAhead(Recorded(m, picked, now), done + Elements(picked))
  {
    var m', done' := Recorded(m, picked, now), done + Elements(picked);
    forall a, b | a in m'.Keys - done' && b in done'
      ensures Older(m', a, b)
    {
      if b !in Elements(picked) {
        assert Older(m, a, b);
      }
    }
  }

  /** What `k` rounds of `n` can cover of `size` entities. */
  function Covered(k: nat, n: nat, size: nat): nat {
    if k == 0 then 0 else Smaller(Covered(k - 1, n, size) + n, size)
  }

  lemma {:induction false} CoveredIs(k: nat, n: nat, size: nat)
    ensures Covered(k, n, size) == Smaller(k * n, size)
  {
    if k > 0 {
      CoveredIs(k - 1, n, size);
      assert k * n == (k - 1) * n + n;
    } else {
      assert k * n == 0;
    }
  }

  /** How far a round moves the count of entities visited. */
  lemma RoundCount(keys: set<Entity>, done: set<Entity>, picked: set<Entity>, n: nat)
    requires done <= keys && picked <= keys && |picked| == Smaller(n, |keys|)
    requires picked !! done || keys - done <= picked
    ensures |done + picked| == Smaller(|done| + n, |keys|)
  {
    SubsetSize(done + picked, keys);
    SubsetSize(done, keys);
    if picked !! done {
      assert |done + picked| == |done| + |picked|;
    } else {
      assert done + picked == keys;
      assert |keys - done| == |keys| - |done|;
      SubsetSize(keys - done, picked);
    }
  }

  lemma RoundMoves(m: Stamps, n: nat, picked: seq<Entity>, now: int, done: set<Entity>)
    requires IsOldest(m, n, picked) && Later(m, now) && WaitsAhead(m, done)
    ensures WaitsAhead(Recorded(m, picked, now), done + Elements(picked))
    ensures |done + Elements(picked)| == Smaller(|done| + n, |m.Keys|)
  {
    OthersFirst(m, n, picked, done);
    RoundKeepsAhead(m, picked, now, done);
    DistinctMultiset(picked);
    RoundCount(m.Keys, done, Elements(picked), n);
  }

  lemma NamedRecords(m: Stamps, picked: seq<Entity>, now: int)
    requires AllNamed(m) && Elements(picked) <= m.Keys
    ensures AfterRound(m, picked, now) == Recorded(m, picked, now)
  {
    forall e | e in picked
      ensures e.name != ""
    {
      assert e in Elements(picked);
    }
  }

  lemma RunMoves(n: nat, states: seq<Stamps>, picks: seq<seq<Entity>>, times: seq<int>, at: nat, done: set<Entity>)
    requires IsRun(n, states, picks, times) && AllNamed(states[0]) && at < |picks| && WaitsAhead(states[at], done)
    ensures WaitsAhead(states[at + 1], done + Elements(picks[at]))
    ensures |done + Elements(picks[at])| == Smaller(|done| + n, |states[0].Keys|)
  {
    InventoryFixed(n, states, picks, times, at);
    assert RoundAt(n, states, picks, times, at);
    NamedRecords(states[at], picks[at], times[at]);
    RoundMoves(states[at], n, picks[at], times[at], done);
  }

  /** A window of `k` rounds visits as many different entities as it possibly can. */
  lemma WindowCount(n: nat, states: seq<Stamps>, picks: seq<seq<Entity>>, times: seq<int>, first: nat, k: nat)
    requires IsRun(n, states, picks, times) && AllNamed(states[0]) && first + k <= |picks|
    ensures WaitsAhead(states[first + k], PickedIn(picks, first, first + k))
    ensures |PickedIn(picks, first, first + k)| == Smaller(k * n, |states[0].Keys|)
  {
    WindowCovered(n, states, picks, times, first, k);
    CoveredIs(k, n, |states[0].Keys|);
  }

  ghost predicate WindowFacts(n: nat, states: seq<Stamps>, picks: seq<seq<Entity>>, first: nat, k: nat) {
    && |states| == |picks| + 1 && first + k <= |picks|
    && WaitsAhead(states[first + k], PickedIn(picks, first, first + k))
    && |PickedIn(picks, first, first + k)| == Covered(k, n, |states[0].Keys|)
  }

  lemma WindowStep(n: nat, states: seq<Stamps>, picks: seq<seq<Entity>>, first: nat, k: nat)
    requires WindowFacts(n, states, picks, first, k) && first + k < |picks|
    requires var done := PickedIn(picks, first, first + k) + Elements(picks[first + k]);
             && WaitsAhead(states[first + k + 1], done)
             && |done| == Smaller(|PickedIn(picks, first, first + k)| + n, |states[0].Keys|)
    ensures WindowFacts(n, states, picks, first, k + 1)
  {
    var at := first + k;
    PickedStep(picks, first, at);
    CoveredStep(k, n, |states[0].Keys|);
    assert first + (k + 1) == at + 1;
  }

  lemma PickedStep(picks: seq<seq<Entity>>, first: nat, at: nat)
    requires first <= at < |picks|
    ensures PickedIn(picks, first, at + 1) == PickedIn(picks, first, at) + Elements(picks[at])
  {
  }

  lemma CoveredStep(k: nat, n: nat, size: nat)
    ensures Covered(k + 1, n, size) == Smaller(Covered(k, n, size) + n, size)
  {
  }

  lemma WindowTurn(n: nat, states: seq<Stamps>, picks: seq<seq<Entity>>, times: seq<int>, first: nat, k: nat)
    requires IsRun(n, states, picks, times) && AllNamed(states[0]) && first + k < |picks|
    requires WindowFacts(n, states, picks, first, k)
    ensures WindowFacts(n, states, picks, first, k + 1)
  {
    RunMoves(n, states, picks, times, first + k, PickedIn(picks, first, first + k));
    WindowStep(n, states, picks, first, k);
  }

  lemma {:induction false} WindowCovered(n: nat, states: seq<Stamps>, picks: seq<seq<Entity>>, times: seq<int>,
      first: nat, k: nat)
    requires IsRun(n, states, picks, times) && AllNamed(states[0]) && first + k <= |picks|
    ensures WindowFacts(n, states, picks, first, k)
  {
    if k > 0 {
      WindowCovered(n, states, picks, times, first, k - 1);
      WindowTurn(n, states, picks, times, first, k - 1);
    } else {
      assert PickedIn(picks, first, first) == {};
    }
  }

  function Ceiling(a: nat, b: nat): nat
    requires b > 0
  {
    (a + b - 1) / b
  }

  lemma CeilingCovers(a: nat, b: nat)
    requires b > 0
    ensures Ceiling(a, b) * b >= a
  {
    var q, r := (a + b - 1) / b, (a + b - 1) % b;
    assert a + b - 1 == q * b + r;
  }

  /** Every entity is selected within any ceil(N/n) consecutive rounds, when all have a name. */
  lemma Fairness(n: nat, states: seq<Stamps>, picks: seq<seq<Entity>>, times: seq<int>, first: nat, e: Entity)
    requires n > 0 && IsRun(n, states, picks, times) && AllNamed(states[0]) && e in states[0]
    requires first + Ceiling(|states[0].Keys|, n) <= |picks|
    ensures e in PickedIn(picks, first, first + Ceiling(|states[0].Keys|, n))
  {
    var keys := states[0].Keys;
    var upTo := first + Ceiling(|keys|, n);
    WindowCount(n, states, picks, times, first, upTo - first);
    InventoryFixed(n, states, picks, times, upTo);
    CeilingCovers(|keys|, n);
    SubsetSize(PickedIn(picks, first, upTo), keys);
    var missed := keys - PickedIn(picks, first, upTo);
    assert missed == {};
    assert e !in missed;
  }

  /** What a round of a run selects from. */
  lemma OldestAt(n: nat, states: seq<Stamps>, picks: seq<seq<Entity>>, times: seq<int>, at: nat)
    requires IsRun(n, states, picks, times) && at < |picks|
    ensures IsOldest(states[at], n, picks[at]) && states[at].Keys == states[0].Keys
  {
    InventoryFixed(n, states, picks, times, at);
    assert RoundAt(n, states, picks, times, at);
  }

  /** No repeats while enough entities unpicked in the window remain; otherwise all of those go first. */
  lemma NoEarlyRepeat(n: nat, states: seq<Stamps>, picks: seq<seq<Entity>>, times: seq<int>, first: nat, at: nat)
    requires IsRun(n, states, picks, times) && AllNamed(states[0]) && first <= at < |picks|
    ensures var waiting := states[0].Keys - PickedIn(picks, first, at);
            if |waiting| >= n then Elements(picks[at]) !! PickedIn(picks, first, at) else waiting <= Elements(picks[at])
  {
    WindowAhead(n, states, picks, times, first, at);
    OldestAt(n, states, picks, times, at);
    RoundPrefersWaiting(states[at], n, picks[at], PickedIn(picks, first, at));
  }

  lemma WindowAhead(n: nat, states: seq<Stamps>, picks: seq<seq<Entity>>, times: seq<int>, first: nat, at: nat)
    requires IsRun(n, states, picks, times) && AllNamed(states[0]) && first <= at <= |picks|
    ensures WaitsAhead(states[at], PickedIn(picks, first, at))
  {
    WindowCount(n, states, picks, times, first, at - first);
  }

  lemma RoundPrefersWaiting(m: Stamps, n: nat, picked: seq<Entity>, done: set<Entity>)
    requires IsOldest(m, n, picked) && WaitsAhead(m, done)
    ensures if |m.Keys - done| >= n then Elements(picked) !! done else m.Keys - done <= Elements(picked)
  {
    OthersFirst(m, n, picked, done);
    DistinctMultiset(picked);
    WaitingSizes(m.Keys, n, Elements(picked), done);
  }

  lemma WaitingSizes(keys: set<Entity>, n: nat, picked: set<Entity>, done: set<Entity>)
    requires done <= keys && picked <= keys && |picked| == Smaller(n, |keys|)
    requires picked !! done || keys - done <= picked
    ensures if |keys - done| >= n then picked !! done else keys - done <= picked
  {
    var waiting := keys - done;
    SubsetSize(waiting, keys);
    if waiting <= picked {
      SubsetSize(waiting, picked);
      if |waiting| >= n {
        assert picked - waiting == {};
      }
    } else {
      assert picked <= waiting;
      SubsetSize(picked, waiting);
      assert waiting - picked != {};
    }
  }
}

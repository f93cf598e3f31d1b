/** The triage protocol of the gap analyser: a queue is built from what memory does not cover, an
    agent returns verdicts for it, and the verdicts are merged back into memory. */
module Triage {
  import opened Collections
  import opened Text
  import opened Sorting
  import opened Gaps

  const VERDICT_FILE := "file"
  const VERDICT_SUPPRESS := "suppress"
  const MAX_TRIAGE_PER_RUN: nat := 15

  /** Reading and writing of timestamps: `parse` is total, an unreadable value is the oldest time. */
  datatype Clock = Clock(parse: string -> int, stamp: int -> string, date: int -> string)

  datatype Record = Record(fingerprint: string, verdict: string, reason: string, date: string, issue: string)

  datatype Memory = Memory(groups: map<string, Record>, resources: map<string, string>)

  datatype QueueItem = QueueItem(key: string, resource: string, fingerprint: string, size: nat)

  datatype GateReason = NoSlots | NothingToTriage | QueueReady

  datatype Report = Report(runAgent: bool, gate: GateReason, slots: int, queue: seq<QueueItem>)

  datatype Verdict = Verdict(key: string, verdict: string, reason: string)

  /** A verdict on record whose fingerprint still matches. */
  predicate Covers(m: Memory, g: Group) {
    g.key in m.groups && m.groups[g.key].fingerprint == g.fingerprint
  }

  // ---- Triage order ----

  /** strings.Compare and cmp.Compare: negative, zero or positive. */
  function CompareStrings(a: string, b: string): int {
    if a == b then 0 else if StringLeq(a, b) then -1 else 1
  }

  function CompareInts(a: int, b: int): int {
    if a < b then -1 else if a == b then 0 else 1
  }

  function CompareResources(m: Memory, clock: Clock, a: string, b: string): int {
    var triagedA, triagedB := a in m.resources, b in m.resources;
    if triagedA != triagedB then if !triagedA then -1 else 1
    else
      var byTime := if triagedA then CompareInts(clock.parse(m.resources[a]), clock.parse(m.resources[b])) else 0;
      if byTime != 0 then byTime else CompareStrings(a, b)
  }

  function CompareGroups(m: Memory, clock: Clock, a: Group, b: Group): int {
    if a.resource != b.resource then CompareResources(m, clock, a.resource, b.resource)
    else
      var bySize := CompareInts(|b.members|, |a.members|);
      if bySize != 0 then bySize else CompareStrings(a.key, b.key)
  }

  /** The order the comparator describes. */
  function Order(m: Memory, clock: Clock): (Group, Group) -> bool {
    (a, b) => CompareGroups(m, clock, a, b) <= 0
  }

  lemma CompareStringsLaws(a: string, b: string, c: string)
    ensures CompareStrings(a, b) <= 0 || CompareStrings(b, a) <= 0
    ensures CompareStrings(a, b) <= 0 && CompareStrings(b, c) <= 0 ==> CompareStrings(a, c) <= 0
    ensures CompareStrings(a, b) <= 0 && CompareStrings(b, a) <= 0 ==> a == b
  {
    LeqTotal(a, b);
    if StringLeq(a, b) && StringLeq(b, c) {
      LeqTransitive(a, b, c);
    }
    if StringLeq(a, b) && StringLeq(b, a) {
      LeqAntisymmetric(a, b);
    }
  }

  lemma CompareResourcesLaws(m: Memory, clock: Clock, a: string, b: string, c: string)
    ensures CompareResources(m, clock, a, b) <= 0 || CompareResources(m, clock, b, a) <= 0
    ensures CompareResources(m, clock, a, b) <= 0 && CompareResources(m, clock, b, c) <= 0 ==>
              CompareResources(m, clock, a, c) <= 0
    ensures CompareResources(m, clock, a, b) <= 0 && CompareResources(m, clock, b, a) <= 0 ==> a == b
  {
    CompareStringsLaws(a, b, c);
  }

  /** The comparator is consistent: `slices.SortFunc` may rely on it. */
  lemma OrderIsTotal(m: Memory, clock: Clock)
    ensures TotalPreorder(Order(m, clock))
  {
    var leq := Order(m, clock);
    forall a, b
      ensures leq(a, b) || leq(b, a)
    {
      CompareResourcesLaws(m, clock, a.resource, b.resource, b.resource);
      CompareStringsLaws(a.key, b.key, b.key);
    }
    forall a, b, c | leq(a, b) && leq(b, c)
      ensures leq(a, c)
    {
      CompareResourcesLaws(m, clock, a.resource, b.resource, c.resource);
      CompareResourcesLaws(m, clock, a.resource, b.resource, a.resource);
      CompareStringsLaws(a.key, b.key, c.key);
    }
  }

  /** Never-triaged resources come first, then the longest untouched. */
  lemma OldestFirst(m: Memory, clock: Clock, a: Group, b: Group)
    requires a.resource != b.resource && Order(m, clock)(a, b)
    ensures a.resource in m.resources ==> b.resource in m.resources
    ensures a.resource in m.resources && b.resource in m.resources ==>
              clock.parse(m.resources[a.resource]) <= clock.parse(m.resources[b.resource])
  {
  }

  // ---- The queue ----

  function Pending(groups: seq<Group>, m: Memory): seq<Group> {
    if groups == [] then []
    else (if Covers(m, groups[0]) then [] else [groups[0]]) + Pending(groups[1..], m)
  }

  function Item(g: Group): QueueItem {
    QueueItem(g.key, g.resource, g.fingerprint, |g.members|)
  }

  function ItemsOf(s: seq<Group>): seq<QueueItem> {
    seq(|s|, i requires 0 <= i < |s| => Item(s[i]))
  }

  function Cut(s: seq<Group>): seq<Group> {
    if |s| <= MAX_TRIAGE_PER_RUN then s else s[..MAX_TRIAGE_PER_RUN]
  }

  /** The first groups, in triage order, of those that memory does not cover. */
  ghost predicate IsQueueFrom(queue: seq<QueueItem>, groups: seq<Group>, m: Memory, clock: Clock, order: seq<Group>) {
    && multiset(order) == multiset(Pending(groups, m))
    && Sorted(order, Order(m, clock))
    && queue == ItemsOf(Cut(order))
  }

  ghost predicate IsQueue(queue: seq<QueueItem>, groups: seq<Group>, m: Memory, clock: Clock) {
    exists order :: IsQueueFrom(queue, groups, m, clock, order)
  }

  lemma PendingStep(groups: seq<Group>, m: Memory, i: nat, pending: seq<Group>)
    requires i < |groups|
    ensures pending + Pending(groups[i..], m) ==
            (if Covers(m, groups[i]) then pending else pending + [groups[i]]) + Pending(groups[i + 1..], m)
  {
    assert groups[i..][0] == groups[i] && groups[i..][1..] == groups[i + 1..];
    var rest := Pending(groups[i + 1..], m);
    assert pending + ([groups[i]] + rest) == (pending + [groups[i]]) + rest;
  }

  method DeleteCovered(groups: seq<Group>, m: Memory) returns (pending: seq<Group>)
    ensures pending == Pending(groups, m)
  {
    pending := [];
    for i := 0 to |groups|
      invariant Pending(groups, m) == pending + Pending(groups[i..], m)
    {
      PendingStep(groups, m, i, pending);
      if !Covers(m, groups[i]) {
        pending := pending + [groups[i]];
      }
    }
  }

  method TriageQueue(groups: seq<Group>, m: Memory, clock: Clock) returns (queue: seq<QueueItem>)
    ensures IsQueue(queue, groups, m, clock)
  {
    var pending := DeleteCovered(groups, m);
    OrderIsTotal(m, clock);
    var order := Sort(pending, Order(m, clock));
    queue := ItemsLoop(Cut(order));
    assert IsQueueFrom(queue, groups, m, clock, order);
  }

  method ItemsLoop(cut: seq<Group>) returns (queue: seq<QueueItem>)
    ensures queue == ItemsOf(cut)
  {
    queue := [];
    for i := 0 to |cut|
      invariant queue == ItemsOf(cut)[..i]
    {
      queue := queue + [Item(cut[i])];
    }
  }

  ghost predicate DistinctGroupKeys(groups: seq<Group>) {
    forall i, j :: 0 <= i < j < |groups| ==> groups[i].key != groups[j].key
  }

  ghost predicate Queued(q: QueueItem, groups: seq<Group>, m: Memory) {
    exists g :: g in groups && !Covers(m, g) && Item(g) == q
  }

  lemma {:induction false} PendingMembers(groups: seq<Group>, m: Memory)
    ensures forall g :: g in Pending(groups, m) <==> g in groups && !Covers(m, g)
    ensures DistinctGroupKeys(groups) ==> DistinctGroupKeys(Pending(groups, m))
  {
    if groups != [] {
      PendingMembers(groups[1..], m);
      assert groups == [groups[0]] + groups[1..];
      assert forall g :: g in groups <==> g == groups[0] || g in groups[1..];
      if DistinctGroupKeys(groups) {
        assert DistinctGroupKeys(groups[1..]);
        forall g | g in Pending(groups[1..], m)
          ensures g.key != groups[0].key
        {
          assert g in groups[1..];
        }
      }
    }
  }

  lemma KeysSeparate(s: seq<Group>, m: Memory, clock: Clock)
    requires forall x, y :: x in s && y in s && x.key == y.key ==> x == y
    ensures Separates(s, Order(m, clock))
  {
    forall x, y | x in s && y in s && Order(m, clock)(x, y) && Order(m, clock)(y, x)
      ensures x == y
    {
      CompareResourcesLaws(m, clock, x.resource, y.resource, x.resource);
      CompareStringsLaws(x.key, y.key, x.key);
    }
  }

  lemma PermutedDistinctKeys(order: seq<Group>, groups: seq<Group>, m: Memory)
    requires DistinctGroupKeys(groups) && multiset(order) == multiset(Pending(groups, m))
    ensures DistinctGroupKeys(order)
    ensures forall x, y :: x in order && y in order && x.key == y.key ==> x == y
    ensures forall g :: g in order <==> g in groups && !Covers(m, g)
    ensures |order| == |Pending(groups, m)|
  {
    PendingMembers(groups, m);
    MultisetMembers(order, Pending(groups, m));
    var p := Pending(groups, m);
    assert Distinct(p);
    DistinctMultiset(p);
    DistinctFromMultiset(order, Elements(p));
    forall x, y | x in order && y in order && x.key == y.key
      ensures x == y
    {
      assert x in p && y in p;
    }
    forall i, j | 0 <= i < j < |order|
      ensures order[i].key != order[j].key
    {
      assert order[i] in order && order[j] in order && order[i] != order[j];
    }
  }

  /** The queue is determined by the groups and the memory. */
  lemma QueueUnique(a: seq<QueueItem>, b: seq<QueueItem>, groups: seq<Group>, m: Memory, clock: Clock)
    requires DistinctGroupKeys(groups) && IsQueue(a, groups, m, clock) && IsQueue(b, groups, m, clock)
    ensures a == b
  {
    var x :| IsQueueFrom(a, groups, m, clock, x);
    var y :| IsQueueFrom(b, groups, m, clock, y);
    PermutedDistinctKeys(x, groups, m);
    KeysSeparate(x, m, clock);
    SortedUnique(x, y, Order(m, clock));
  }

  /** A queue holds pending groups, each key once, and is empty only when nothing is pending. */
  lemma QueueContents(queue: seq<QueueItem>, groups: seq<Group>, m: Memory, clock: Clock)
    requires DistinctGroupKeys(groups) && IsQueue(queue, groups, m, clock)
    ensures forall i :: 0 <= i < |queue| ==> Queued(queue[i], groups, m)
    ensures forall i, j :: 0 <= i < j < |queue| ==> queue[i].key != queue[j].key
    ensures queue == [] <==> forall g :: g in groups ==> Covers(m, g)
    ensures |queue| <= MAX_TRIAGE_PER_RUN
  {
    var order :| IsQueueFrom(queue, groups, m, clock, order);
    PermutedDistinctKeys(order, groups, m);
    forall i | 0 <= i < |queue|
      ensures Queued(queue[i], groups, m)
    {
      assert order[i] in order && Item(order[i]) == queue[i];
    }
    if queue == [] {
      assert order == [];
    } else {
      assert order[0] in order;
    }
  }

  /** `buildReport`: no slots, no queue; the agent runs exactly when there is a queue. */
  method BuildReport(groups: seq<Group>, m: Memory, clock: Clock, slots: int) returns (r: Report)
    ensures r.slots == if slots < 0 then 0 else slots
    ensures slots > 0 ==> IsQueue(r.queue, groups, m, clock)
    ensures slots <= 0 ==> r.queue == []
    ensures r.runAgent <==> r.queue != []
    ensures r.gate == if slots <= 0 then NoSlots else if r.queue == [] then NothingToTriage else QueueReady
  {
    var s := if slots < 0 then 0 else slots;
    var queue: seq<QueueItem> := [];
    if s > 0 {
      queue := TriageQueue(groups, m, clock);
    }
    if s == 0 {
      r := Report(false, NoSlots, s, queue);
    } else if queue == [] {
      r := Report(false, NothingToTriage, s, queue);
    } else {
      r := Report(true, QueueReady, s, queue);
    }
  }

  // ---- Verdicts ----

  function Normalise(vs: seq<Verdict>): seq<Verdict> {
    seq(|vs|, i requires 0 <= i < |vs| => Verdict(TrimSpace(vs[i].key), TrimSpace(vs[i].verdict),
        TrimSpace(vs[i].reason)))
  }

  predicate ValidVerdict(v: Verdict) {
    (v.verdict == VERDICT_FILE || v.verdict == VERDICT_SUPPRESS) && v.reason != ""
  }

  function Files(vs: seq<Verdict>): nat {
    if vs == [] then 0 else Files(vs[..|vs| - 1]) + if vs[|vs| - 1].verdict == VERDICT_FILE then 1 else 0
  }

  /** The first `n` verdicts follow the queue and the slots were open before each of them. */
  ghost predicate FollowsQueue(queue: seq<QueueItem>, slots: int, vs: seq<Verdict>, n: nat) {
    && n <= |vs| && n <= |queue|
    && (forall i :: 0 <= i < n ==> vs[i].key == queue[i].key && ValidVerdict(vs[i]))
    && (forall i, j :: 0 <= i < j < n ==> queue[i].key != queue[j].key)
    && (forall i :: 0 <= i < n ==> Files(vs[..i]) < slots)
  }

  /** Exactly the acceptable verdict lists: a prefix of the queue that stops at the verdict that
      fills the slots, or covers the whole queue. */
  ghost predicate Accepts(queue: seq<QueueItem>, slots: int, vs: seq<Verdict>) {
    FollowsQueue(queue, slots, vs, |vs|) && (Files(vs) == slots || |vs| == |queue|)
  }

  predicate KeyQueued(queue: seq<QueueItem>, key: string) {
    exists i :: 0 <= i < |queue| && queue[i].key == key
  }

  function LastItem(queue: seq<QueueItem>, key: string): (item: QueueItem)
    requires KeyQueued(queue, key)
    ensures item in queue && item.key == key
  {
    var n := |queue| - 1;
    if queue[n].key == key then queue[n]
    else
      var i :| 0 <= i < |queue| && queue[i].key == key;
      assert queue[..n][i].key == key;
      LastItem(queue[..n], key)
  }

  function RecordFor(item: QueueItem, v: Verdict, clock: Clock, when: int): Record {
    Record(item.fingerprint, v.verdict, v.reason, clock.date(when), if v.verdict == VERDICT_FILE then v.key else "")
  }

  ghost predicate KeysQueued(queue: seq<QueueItem>, vs: seq<Verdict>) {
    forall k :: 0 <= k < |vs| ==> KeyQueued(queue, vs[k].key)
  }

  /** Memory after merging accepted verdicts, one after the other. */
  ghost function After(m: Memory, queue: seq<QueueItem>, vs: seq<Verdict>, clock: Clock, when: int): Memory
    requires KeysQueued(queue, vs)
  {
    if vs == [] then m
    else
      var n := |vs| - 1;
      var v := vs[n];
      assert KeysQueued(queue, vs[..n]);
      var before := After(m, queue, vs[..n], clock, when);
      var item := LastItem(queue, v.key);
      Memory(before.groups[v.key := RecordFor(item, v, clock, when)],
          before.resources[item.resource := clock.stamp(when)])
  }

  datatype Rejection =
    | UnknownKey(key: string) | DuplicateKey(key: string) | OutOfOrder(index: nat) | SlotsFilled(key: string)
    | BadVerdict(key: string) | EmptyReason(key: string) | StoppedEarly

  function KeySet(queue: seq<QueueItem>): set<string> {
    set i | 0 <= i < |queue| :: queue[i].key
  }

  lemma {:induction false} KeySetSize(queue: seq<QueueItem>)
    ensures |KeySet(queue)| <= |queue|
  {
    if queue != [] {
      var n := |queue| - 1;
      KeySetSize(queue[..n]);
      assert KeySet(queue) == KeySet(queue[..n]) + {queue[n].key} by {
        forall k | k in KeySet(queue)
          ensures k in KeySet(queue[..n]) + {queue[n].key}
        {
          var i :| 0 <= i < |queue| && queue[i].key == k;
          if i < n {
            assert queue[..n][i].key == k;
          }
        }
        forall k | k in KeySet(queue[..n])
          ensures k in KeySet(queue)
        {
          var i :| 0 <= i < n && queue[..n][i].key == k;
          assert queue[i].key == k;
        }
      }
    } else {
      assert KeySet(queue) == {};
    }
  }

  /** Distinct keys, all of them queued, are no more than the queue is long: the order check never
      indexes past the queue. */
  lemma Pigeonhole(queue: seq<QueueItem>, seen: set<string>)
    requires seen <= KeySet(queue)
    ensures |seen| <= |queue|
  {
    KeySetSize(queue);
    SubsetSize(seen, KeySet(queue));
  }

  lemma {:induction false} FilesStep(vs: seq<Verdict>, i: nat)
    requires i < |vs|
    ensures Files(vs[..i + 1]) == Files(vs[..i]) + if vs[i].verdict == VERDICT_FILE then 1 else 0
  {
    assert vs[..i + 1][..i] == vs[..i];
  }

  /** What one more verdict has to satisfy. */
  ghost predicate NextFollows(queue: seq<QueueItem>, slots: int, vs: seq<Verdict>, i: nat)
    requires i < |vs|
  {
    && i < |queue| && vs[i].key == queue[i].key && ValidVerdict(vs[i])
    && (forall k :: 0 <= k < i ==> queue[k].key != queue[i].key)
    && Files(vs[..i]) < slots
  }

  lemma RejectedHere(queue: seq<QueueItem>, slots: int, vs: seq<Verdict>, i: nat)
    requires i < |vs| && FollowsQueue(queue, slots, vs, i) && !NextFollows(queue, slots, vs, i)
    ensures !Accepts(queue, slots, vs)
  {
  }

  /** The checks on one verdict, in the order the loop makes them. */
  method CheckOne(queue: seq<QueueItem>, slots: int, vs: seq<Verdict>, i: nat, seen: set<string>, files: nat)
    returns (rejected: Option<Rejection>)
    requires i < |vs| && i <= |queue| && FollowsQueue(queue, slots, vs, i)
    requires files == Files(vs[..i]) && seen == KeySet(queue[..i]) && |seen| == i && seen <= KeySet(queue)
    ensures rejected.None? <==> NextFollows(queue, slots, vs, i)
    ensures rejected.None? ==> vs[i].key !in seen && vs[i].key in KeySet(queue)
  {
    var v := vs[i];
    SeenIff(queue, i, v.key);
    if v.key !in KeySet(queue) {
      return Some(UnknownKey(v.key));
    }
    if v.key in seen {
      return Some(DuplicateKey(v.key));
    }
    Pigeonhole(queue, seen + {v.key});
    if v.key != queue[i].key {
      return Some(OutOfOrder(i + 1));
    }
    if files >= slots {
      return Some(SlotsFilled(v.key));
    }
    if v.verdict != VERDICT_FILE && v.verdict != VERDICT_SUPPRESS {
      return Some(BadVerdict(v.key));
    }
    if v.reason == "" {
      return Some(EmptyReason(v.key));
    }
    return None;
  }

  /** The validation loop of `applyVerdicts`. */
  method CheckVerdicts(queue: seq<QueueItem>, slots: int, vs: seq<Verdict>) returns (rejected: Option<Rejection>)
    ensures rejected.None? <==> Accepts(queue, slots, vs)
  {
    var seen: set<string> := {};
    var files := 0;
    for i := 0 to |vs|
      invariant i <= |queue| && FollowsQueue(queue, slots, vs, i)
      invariant files == Files(vs[..i])
      invariant seen == KeySet(queue[..i]) && |seen| == i && seen <= KeySet(queue)
    {
      var bad := CheckOne(queue, slots, vs, i, seen, files);
      if bad.Some? {
        RejectedHere(queue, slots, vs, i);
        return bad;
      }
      FollowsStep(queue, slots, vs, i);
      FilesStep(vs, i);
      SeenGrows(queue, i);
      seen := seen + {vs[i].key};
      if vs[i].verdict == VERDICT_FILE {
        files := files + 1;
      }
    }
    assert vs[..|vs|] == vs;
    if files != slots && |vs| < |queue| {
      return Some(StoppedEarly);
    }
    return None;
  }

  lemma SeenGrows(queue: seq<QueueItem>, i: nat)
    requires i < |queue|
    ensures KeySet(queue[..i + 1]) == KeySet(queue[..i]) + {queue[i].key}
    ensures KeySet(queue[..i + 1]) <= KeySet(queue)
  {
    var shorter, longer := queue[..i], queue[..i + 1];
    assert longer[i] == queue[i];
    forall k | k in KeySet(shorter)
      ensures k in KeySet(longer)
    {
      var j :| 0 <= j < i && shorter[j].key == k;
      assert longer[j].key == k;
    }
    forall k | k in KeySet(longer)
      ensures k in KeySet(shorter) + {queue[i].key} && k in KeySet(queue)
    {
      var j :| 0 <= j < i + 1 && longer[j].key == k;
      assert queue[j].key == k;
      if j < i {
        assert shorter[j].key == k;
      }
    }
  }

  lemma SeenIff(queue: seq<QueueItem>, i: nat, key: string)
    requires i <= |queue|
    ensures key in KeySet(queue[..i]) <==> exists k :: 0 <= k < i && queue[k].key == key
  {
    if key in KeySet(queue[..i]) {
      var k :| 0 <= k < i && queue[..i][k].key == key;
      assert queue[k].key == key;
    }
    if k :| 0 <= k < i && queue[k].key == key {
      assert queue[..i][k].key == key;
    }
  }

  lemma FollowsStep(queue: seq<QueueItem>, slots: int, vs: seq<Verdict>, i: nat)
    requires i < |vs| && FollowsQueue(queue, slots, vs, i) && NextFollows(queue, slots, vs, i)
    ensures FollowsQueue(queue, slots, vs, i + 1)
  {
  }

  // ---- Merging into memory ----

  /** state.json in memory: `applyVerdicts` writes through the pointer it is given. */
  class MemoryFile {
    var groups: map<string, Record>
    var resources: map<string, string>

    constructor (m: Memory)
      ensures Value() == m
    {
      groups, resources := m.groups, m.resources;
    }

    function Value(): Memory
      reads this
    {
      Memory(groups, resources)
    }
  }

  lemma AcceptedAreQueued(queue: seq<QueueItem>, slots: int, vs: seq<Verdict>)
    requires Accepts(queue, slots, vs)
    ensures KeysQueued(queue, vs)
  {
    forall k | 0 <= k < |vs|
      ensures KeyQueued(queue, vs[k].key)
    {
      assert queue[k].key == vs[k].key;
    }
  }

  /** `applyVerdicts`: all or nothing. */
  method ApplyVerdicts(report: Report, mem: MemoryFile, verdicts: seq<Verdict>, clock: Clock, when: int)
    returns (rejected: Option<Rejection>)
    modifies mem
    ensures rejected.None? <==> Accepts(report.queue, report.slots, Normalise(verdicts))
    ensures rejected.Some? ==> unchanged(mem)
    ensures rejected.None? ==>
              KeysQueued(report.queue, Normalise(verdicts)) &&
              mem.Value() == After(old(mem.Value()), report.queue, Normalise(verdicts), clock, when)
  {
    var vs := Normalise(verdicts);
    rejected := CheckVerdicts(report.queue, report.slots, vs);
    if rejected.Some? {
      return;
    }
    AcceptedAreQueued(report.queue, report.slots, vs);
    RecordAll(mem, report.queue, vs, clock, when);
  }

  /** The recording loop of `applyVerdicts`. */
  method RecordAll(mem: MemoryFile, queue: seq<QueueItem>, vs: seq<Verdict>, clock: Clock, when: int)
    requires KeysQueued(queue, vs)
    modifies mem
    ensures mem.Value() == After(old(mem.Value()), queue, vs, clock, when)
  {
    for i := 0 to |vs|
      invariant KeysQueued(queue, vs[..i])
      invariant mem.Value() == After(old(mem.Value()), queue, vs[..i], clock, when)
    {
      var v := vs[i];
      assert vs[..i + 1][..i] == vs[..i];
      var item := LastItem(queue, v.key);
      mem.groups := mem.groups[v.key := RecordFor(item, v, clock, when)];
      mem.resources := mem.resources[item.resource := clock.stamp(when)];
    }
    assert vs[..|vs|] == vs;
  }

  // ---- One round ----

  ghost predicate DistinctQueue(queue: seq<QueueItem>) {
    forall i, j :: 0 <= i < j < |queue| ==> queue[i].key != queue[j].key
  }

  ghost predicate Triaged(queue: seq<QueueItem>, n: nat, key: string) {
    exists k :: 0 <= k < n && k < |queue| && queue[k].key == key
  }

  /** Every triaged key now has a record with the queued fingerprint; nothing else changed. */
  lemma {:induction false} AfterRecords(m: Memory, queue: seq<QueueItem>, vs: seq<Verdict>, clock: Clock, when: int,
      key: string)
    requires DistinctQueue(queue) && |vs| <= |queue| && KeysQueued(queue, vs)
    requires forall i :: 0 <= i < |vs| ==> vs[i].key == queue[i].key
    ensures var after := After(m, queue, vs, clock, when).groups;
            && (forall k :: 0 <= k < |vs| && queue[k].key == key ==>
                key in after && after[key].fingerprint == queue[k].fingerprint)
            && (!Triaged(queue, |vs|, key) ==>
                (key in after <==> key in m.groups) && (key in after ==> after[key] == m.groups[key]))
  {
    if vs != [] {
      var n := |vs| - 1;
      assert KeysQueued(queue, vs[..n]);
      AfterRecords(m, queue, vs[..n], clock, when, key);
      var item := LastItem(queue, vs[n].key);
      var i :| 0 <= i < |queue| && queue[i] == item;
      assert i == n;
      assert Triaged(queue, n, key) ==> Triaged(queue, |vs|, key);
      assert queue[n].key == key ==> Triaged(queue, |vs|, key);
    }
  }

  ghost function PendingSet(groups: seq<Group>, m: Memory): set<Group> {
    set g | g in groups && !Covers(m, g)
  }

  ghost function TriagedSet(groups: seq<Group>, queue: seq<QueueItem>, n: nat): set<Group> {
    set g | g in groups && Triaged(queue, n, g.key)
  }

  lemma CoveredAfter(groups: seq<Group>, m: Memory, queue: seq<QueueItem>, slots: int, vs: seq<Verdict>, clock: Clock,
      when: int, g: Group)
    requires DistinctGroupKeys(groups) && IsQueue(queue, groups, m, clock) && Accepts(queue, slots, vs) && g in groups
    requires KeysQueued(queue, vs)
    ensures Covers(After(m, queue, vs, clock, when), g) <==> Covers(m, g) || Triaged(queue, |vs|, g.key)
  {
    QueueDistinct(queue, groups, m, clock);
    AfterRecords(m, queue, vs, clock, when, g.key);
    if Triaged(queue, |vs|, g.key) {
      var k :| 0 <= k < |vs| && k < |queue| && queue[k].key == g.key;
      QueuedAs(groups, m, clock, queue, k, g);
    }
  }

  lemma QueueDistinct(queue: seq<QueueItem>, groups: seq<Group>, m: Memory, clock: Clock)
    requires DistinctGroupKeys(groups) && IsQueue(queue, groups, m, clock)
    ensures DistinctQueue(queue)
  {
    QueueContents(queue, groups, m, clock);
  }

  /** The queue holds the group itself under its key. */
  lemma QueuedAs(groups: seq<Group>, m: Memory, clock: Clock, queue: seq<QueueItem>, k: nat, g: Group)
    requires DistinctGroupKeys(groups) && IsQueue(queue, groups, m, clock) && g in groups
    requires k < |queue| && queue[k].key == g.key
    ensures queue[k] == Item(g) && forall j :: 0 <= j < |queue| && j != k ==> queue[j].key != g.key
  {
    QueueContents(queue, groups, m, clock);
    assert Queued(queue[k], groups, m);
    var q :| q in groups && !Covers(m, q) && Item(q) == queue[k];
    SameKeySameGroup(groups, q, g);
  }

  lemma SameKeySameGroup(groups: seq<Group>, a: Group, b: Group)
    requires DistinctGroupKeys(groups) && a in groups && b in groups && a.key == b.key
    ensures a == b
  {
    var i :| 0 <= i < |groups| && groups[i] == a;
    var j :| 0 <= j < |groups| && groups[j] == b;
    assert i == j;
  }

  lemma TriagedStep(groups: seq<Group>, queue: seq<QueueItem>, n: nat, q: Group)
    requires DistinctGroupKeys(groups) && DistinctQueue(queue) && n < |queue| && q in groups && q.key == queue[n].key
    ensures TriagedSet(groups, queue, n + 1) == TriagedSet(groups, queue, n) + {q}
    ensures q !in TriagedSet(groups, queue, n)
  {
    forall g | g in groups
      ensures Triaged(queue, n + 1, g.key) <==> Triaged(queue, n, g.key) || g == q
    {
      if g.key == q.key {
        SameKeySameGroup(groups, g, q);
      }
      assert g == q ==> Triaged(queue, n + 1, g.key);
    }
  }

  lemma {:induction false} TriagedCount(groups: seq<Group>, m: Memory, queue: seq<QueueItem>, n: nat)
    requires DistinctGroupKeys(groups) && DistinctQueue(queue) && n <= |queue|
    requires forall i :: 0 <= i < |queue| ==> Queued(queue[i], groups, m)
    ensures TriagedSet(groups, queue, n) <= PendingSet(groups, m) && |TriagedSet(groups, queue, n)| == n
    decreases n
  {
    if n == 0 {
      assert TriagedSet(groups, queue, 0) == {};
    } else {
      TriagedCount(groups, m, queue, n - 1);
      assert Queued(queue[n - 1], groups, m);
      var q :| q in groups && !Covers(m, q) && Item(q) == queue[n - 1];
      TriagedStep(groups, queue, n - 1, q);
    }
  }

  lemma {:induction false} FilesBounded(queue: seq<QueueItem>, slots: int, vs: seq<Verdict>)
    requires slots >= 0 && Accepts(queue, slots, vs)
    ensures Files(vs) <= slots
  {
    if vs != [] {
      var n := |vs| - 1;
      assert Files(vs[..n]) < slots;
    }
  }

  /** A round takes exactly the groups it has verdicts for off the pending set, at least one while a
      queue is left, and files no more than the slots. */
  lemma RoundShrinks(groups: seq<Group>, m: Memory, queue: seq<QueueItem>, slots: int, vs: seq<Verdict>, clock: Clock,
      when: int)
    requires DistinctGroupKeys(groups) && IsQueue(queue, groups, m, clock) && slots > 0 && Accepts(queue, slots, vs)
    requires KeysQueued(queue, vs)
    ensures var after := After(m, queue, vs, clock, when);
            && PendingSet(groups, after) == PendingSet(groups, m) - TriagedSet(groups, queue, |vs|)
            && |PendingSet(groups, after)| + |vs| == |PendingSet(groups, m)|
    ensures queue != [] ==> |vs| > 0
    ensures Files(vs) <= slots
  {
    PendingAfter(groups, m, queue, slots, vs, clock, when);
    QueueContents(queue, groups, m, clock);
    TriagedCount(groups, m, queue, |vs|);
    FilesBounded(queue, slots, vs);
  }

  lemma PendingAfter(groups: seq<Group>, m: Memory, queue: seq<QueueItem>, slots: int, vs: seq<Verdict>, clock: Clock,
      when: int)
    requires DistinctGroupKeys(groups) && IsQueue(queue, groups, m, clock) && Accepts(queue, slots, vs)
    requires KeysQueued(queue, vs)
    ensures PendingSet(groups, After(m, queue, vs, clock, when)) ==
              PendingSet(groups, m) - TriagedSet(groups, queue, |vs|)
  {
    var after := After(m, queue, vs, clock, when);
    forall g | g in groups
      ensures Covers(after, g) <==> Covers(m, g) || Triaged(queue, |vs|, g.key)
    {
      CoveredAfter(groups, m, queue, slots, vs, clock, when, g);
    }
  }

  // ---- Whole runs ----

  datatype Round = Round(queue: seq<QueueItem>, verdicts: seq<Verdict>, when: int)

  ghost predicate ValidRound(groups: seq<Group>, m: Memory, clock: Clock, slots: int, r: Round) {
    IsQueue(r.queue, groups, m, clock) && r.queue != [] && Accepts(r.queue, slots, r.verdicts) &&
        KeysQueued(r.queue, r.verdicts)
  }

  /** Rounds of report and record with discovery fixed, each while a queue is left. */
  ghost predicate ValidRun(groups: seq<Group>, m: Memory, clock: Clock, slots: int, rounds: seq<Round>)
    decreases |rounds|
  {
    rounds == [] ||
    (ValidRound(groups, m, clock, slots, rounds[0]) &&
     ValidRun(groups, After(m, rounds[0].queue, rounds[0].verdicts, clock, rounds[0].when), clock, slots, rounds[1..]))
  }

  ghost function RunMemory(groups: seq<Group>, m: Memory, clock: Clock, slots: int, rounds: seq<Round>): Memory
    requires ValidRun(groups, m, clock, slots, rounds)
    decreases |rounds|
  {
    if rounds == [] then m
    else RunMemory(groups, After(m, rounds[0].queue, rounds[0].verdicts, clock, rounds[0].when), clock, slots,
        rounds[1..])
  }

  function VerdictCount(rounds: seq<Round>): nat {
    if rounds == [] then 0 else |rounds[0].verdicts| + VerdictCount(rounds[1..])
  }

  /** The queue is empty exactly when nothing is pending. */
  lemma EmptyQueue(queue: seq<QueueItem>, groups: seq<Group>, m: Memory, clock: Clock)
    requires DistinctGroupKeys(groups) && IsQueue(queue, groups, m, clock)
    ensures queue == [] <==> PendingSet(groups, m) == {}
  {
    QueueContents(queue, groups, m, clock);
    if queue == [] {
      assert PendingSet(groups, m) == {};
    } else {
      var g :| g in groups && !Covers(m, g);
      assert g in PendingSet(groups, m);
    }
  }

  /** Over any run, verdicts plus what is still pending equals what was pending: each group is
      triaged once.  So a run ends after at most as many rounds as groups were pending. */
  lemma {:induction false} RunsEnd(groups: seq<Group>, m: Memory, clock: Clock, slots: int, rounds: seq<Round>)
    requires DistinctGroupKeys(groups) && slots > 0 && ValidRun(groups, m, clock, slots, rounds)
    ensures VerdictCount(rounds) + |PendingSet(groups, RunMemory(groups, m, clock, slots, rounds))| ==
              |PendingSet(groups, m)|
    ensures |rounds| <= VerdictCount(rounds)
    decreases |rounds|
  {
    if rounds != [] {
      var r := rounds[0];
      RoundShrinks(groups, m, r.queue, slots, r.verdicts, clock, r.when);
      RunsEnd(groups, After(m, r.queue, r.verdicts, clock, r.when), clock, slots, rounds[1..]);
    }
  }

  lemma FirstRound(groups: seq<Group>, m: Memory, clock: Clock, slots: int, rounds: seq<Round>)
    requires ValidRun(groups, m, clock, slots, rounds) && rounds != []
    ensures ValidRound(groups, m, clock, slots, rounds[0])
    ensures ValidRun(groups, After(m, rounds[0].queue, rounds[0].verdicts, clock, rounds[0].when), clock, slots,
              rounds[1..])
  {
  }

  /** No round of a run files more than the slots. */
  lemma {:induction false} FilingBounded(groups: seq<Group>, m: Memory, clock: Clock, slots: int, rounds: seq<Round>,
      i: nat)
    requires slots > 0 && ValidRun(groups, m, clock, slots, rounds) && i < |rounds|
    ensures Files(rounds[i].verdicts) <= slots
    decreases i
  {
    var r, later := rounds[0], rounds[1..];
    FirstRound(groups, m, clock, slots, rounds);
    if i == 0 {
      FilesBounded(r.queue, slots, r.verdicts);
    } else {
      FilingBounded(groups, After(m, r.queue, r.verdicts, clock, r.when), clock, slots, later, i - 1);
    }
  }
}

/** What a round of triage leaves in memory, and how the next queue follows from it. */
module TriageRounds {
  import opened Text
  import opened Sorting
  import opened Gaps
  import opened Triage

  /** The verdicts are for the first groups of the queue, in its order. */
  ghost predicate InOrder(queue: seq<QueueItem>, vs: seq<Verdict>) {
    DistinctQueue(queue) && |vs| <= |queue| && forall i :: 0 <= i < |vs| ==> vs[i].key == queue[i].key
  }

  lemma OrderQueued(queue: seq<QueueItem>, vs: seq<Verdict>)
    requires InOrder(queue, vs)
    ensures KeysQueued(queue, vs)
  {
    forall k | 0 <= k < |vs|
      ensures KeyQueued(queue, vs[k].key)
    {
      assert queue[k].key == vs[k].key;
    }
  }

  lemma ItemOf(queue: seq<QueueItem>, vs: seq<Verdict>, k: nat)
    requires InOrder(queue, vs) && k < |vs|
    ensures KeyQueued(queue, vs[k].key) && LastItem(queue, vs[k].key) == queue[k]
  {
    OrderQueued(queue, vs);
    var item := LastItem(queue, vs[k].key);
    assert item in queue && item.key == queue[k].key;
    var i :| 0 <= i < |queue| && queue[i] == item;
    assert i == k;
  }

  /** One of the first `n` groups of the queue is of the resource. */
  ghost predicate Judged(queue: seq<QueueItem>, n: nat, resource: string) {
    exists k :: 0 <= k < n && k < |queue| && queue[k].resource == resource
  }

  lemma JudgedStep(queue: seq<QueueItem>, n: nat, resource: string)
    requires n < |queue|
    ensures Judged(queue, n + 1, resource) <==> Judged(queue, n, resource) || queue[n].resource == resource
  {
  }

  /** The last verdict: the others, then its record and stamp. */
  lemma AfterLast(m: Memory, queue: seq<QueueItem>, vs: seq<Verdict>, clock: Clock, when: int)
    requires InOrder(queue, vs) && KeysQueued(queue, vs) && vs != []
    ensures var n := |vs| - 1;
            && InOrder(queue, vs[..n]) && KeysQueued(queue, vs[..n])
            && var before, after := After(m, queue, vs[..n], clock, when), After(m, queue, vs, clock, when);
            && after.resources == before.resources[queue[n].resource := clock.stamp(when)]
            && after.groups == before.groups[queue[n].key := RecordFor(queue[n], vs[n], clock, when)]
  {
    var n := |vs| - 1;
    assert InOrder(queue, vs[..n]);
    OrderQueued(queue, vs[..n]);
    ItemOf(queue, vs, n);
  }

  /** The resource has this stamp if it is judged, and is unchanged otherwise. */
  ghost predicate StampHolds(before: map<string, string>, after: map<string, string>, resource: string, judged: bool,
      stamp: string)
  {
    if judged then resource in after && after[resource] == stamp
    else (resource in after <==> resource in before) && (resource in after ==> after[resource] == before[resource])
  }

  lemma StampStep(a: map<string, string>, b: map<string, string>, resource: string, judged: bool, stamp: string,
      next: string)
    requires StampHolds(a, b, resource, judged, stamp)
    ensures StampHolds(a, b[next := stamp], resource, judged || next == resource, stamp)
  {
  }

  /** After a round a resource has its stamp if and only if one of its groups got a verdict; the others are as
      before. */
  lemma {:induction false} StampsAfter(m: Memory, queue: seq<QueueItem>, vs: seq<Verdict>, clock: Clock, when: int,
      resource: string)
    requires InOrder(queue, vs) && KeysQueued(queue, vs)
    ensures StampHolds(m.resources, After(m, queue, vs, clock, when).resources, resource,
                       Judged(queue, |vs|, resource), clock.stamp(when))
    decreases |vs|
  {
    if vs != [] {
      var n := |vs| - 1;
      AfterLast(m, queue, vs, clock, when);
      StampsAfter(m, queue, vs[..n], clock, when, resource);
      JudgedStep(queue, n, resource);
      StampStep(m.resources, After(m, queue, vs[..n], clock, when).resources, resource, Judged(queue, n, resource),
                clock.stamp(when), queue[n].resource);
    }
  }

  /** The record of a group says what the verdict said, with the queued fingerprint, the date of the round, and the key
      as issue exactly for `file`. */
  ghost predicate Recorded(r: Record, item: QueueItem, v: Verdict, date: string) {
    && r.fingerprint == item.fingerprint && r.verdict == v.verdict && r.reason == v.reason && r.date == date
    && r.issue == (if v.verdict == "file" then item.key else "")
  }

  lemma RecordedIs(item: QueueItem, v: Verdict, clock: Clock, when: int)
    requires v.key == item.key
    ensures Recorded(RecordFor(item, v, clock, when), item, v, clock.date(when))
  {
  }

  lemma {:induction false} RecordAt(m: Memory, queue: seq<QueueItem>, vs: seq<Verdict>, clock: Clock, when: int,
      k: nat)
    requires InOrder(queue, vs) && KeysQueued(queue, vs) && k < |vs|
    ensures var after := After(m, queue, vs, clock, when).groups;
            queue[k].key in after && after[queue[k].key] == RecordFor(queue[k], vs[k], clock, when)
    decreases |vs|
  {
    var n := |vs| - 1;
    AfterLast(m, queue, vs, clock, when);
    if k < n {
      RecordAt(m, queue, vs[..n], clock, when, k);
      assert queue[k].key != queue[n].key;
    }
  }

  lemma RecordsAfter(m: Memory, queue: seq<QueueItem>, vs: seq<Verdict>, clock: Clock, when: int, k: nat)
    requires InOrder(queue, vs) && KeysQueued(queue, vs) && k < |vs|
    ensures var after := After(m, queue, vs, clock, when).groups;
            queue[k].key in after && Recorded(after[queue[k].key], queue[k], vs[k], clock.date(when))
  {
    RecordAt(m, queue, vs, clock, when, k);
    RecordedIs(queue[k], vs[k], clock, when);
  }

  /** Other groups keep their records. */
  lemma OthersKept(m: Memory, queue: seq<QueueItem>, vs: seq<Verdict>, clock: Clock, when: int, key: string)
    requires InOrder(queue, vs) && KeysQueued(queue, vs) && forall k :: 0 <= k < |vs| ==> queue[k].key != key
    ensures var after := After(m, queue, vs, clock, when).groups;
            (key in after <==> key in m.groups) && (key in after ==> after[key] == m.groups[key])
  {
    AfterRecords(m, queue, vs, clock, when, key);
  }

  lemma AcceptedInOrder(groups: seq<Group>, m: Memory, clock: Clock, queue: seq<QueueItem>, slots: int,
      vs: seq<Verdict>)
    requires DistinctGroupKeys(groups) && IsQueue(queue, groups, m, clock) && Accepts(queue, slots, vs)
    ensures InOrder(queue, vs) && KeysQueued(queue, vs)
  {
    QueueDistinct(queue, groups, m, clock);
    OrderQueued(queue, vs);
  }

  // ---- The order of a queue ----

  /** Never triaged before triaged, then the longest untouched, then by name. */
  ghost predicate ResourceFirst(m: Memory, clock: Clock, a: string, b: string) {
    if a in m.resources && b in m.resources then
      var ta, tb := clock.parse(m.resources[a]), clock.parse(m.resources[b]);
      ta < tb || (ta == tb && StringLeq(a, b))
    else if a !in m.resources && b !in m.resources then StringLeq(a, b)
    else a !in m.resources
  }

  /** Within a resource the largest first, then by key. */
  ghost predicate ItemFirst(m: Memory, clock: Clock, a: QueueItem, b: QueueItem) {
    if a.resource != b.resource then ResourceFirst(m, clock, a.resource, b.resource)
    else a.size > b.size || (a.size == b.size && StringLeq(a.key, b.key))
  }

  lemma OrderIs(m: Memory, clock: Clock, a: Group, b: Group)
    requires Order(m, clock)(a, b)
    ensures ItemFirst(m, clock, Item(a), Item(b))
  {
    LeqTotal(a.key, a.key);
    LeqTotal(a.resource, a.resource);
  }

  /** The item stands for the group: its key, resource, fingerprint and number of members. */
  ghost predicate StandsFor(q: QueueItem, g: Group) {
    q.key == g.key && q.resource == g.resource && q.fingerprint == g.fingerprint && q.size == |g.members|
  }

  /** The item stands for one of the groups. */
  ghost predicate Represents(q: QueueItem, pending: set<Group>) {
    exists g :: g in pending && StandsFor(q, g)
  }

  /** The items of the first groups of `order`. */
  ghost predicate HeadOf(queue: seq<QueueItem>, order: seq<Group>) {
    |queue| <= |order| && forall k :: 0 <= k < |queue| ==> queue[k] == Item(order[k])
  }

  lemma QueueHead(queue: seq<QueueItem>, order: seq<Group>)
    requires queue == ItemsOf(Cut(order))
    ensures HeadOf(queue, order) && |queue| == if |order| <= 15 then |order| else 15
  {
  }

  lemma HeadInOrder(m: Memory, clock: Clock, queue: seq<QueueItem>, order: seq<Group>, i: nat, j: nat)
    requires HeadOf(queue, order) && Sorted(order, Order(m, clock)) && i < j < |order| && i < |queue|
    ensures ItemFirst(m, clock, queue[i], Item(order[j]))
  {
    OrderIs(m, clock, order[i], order[j]);
  }

  lemma LeftOut(queue: seq<QueueItem>, order: seq<Group>, g: Group) returns (j: nat)
    requires HeadOf(queue, order) && g in order && Item(g) !in queue
    ensures |queue| <= j < |order| && order[j] == g
  {
    j :| 0 <= j < |order| && order[j] == g;
    assert forall k :: 0 <= k < |queue| ==> queue[k] in queue;
  }

  /** A queue holds the first fifteen pending groups (or all, if there are fewer), in this order: nothing it holds comes
      after another in it, nor after a pending group left out. */
  lemma QueueIsFirst(groups: seq<Group>, m: Memory, clock: Clock, queue: seq<QueueItem>)
    requires DistinctGroupKeys(groups) && IsQueue(queue, groups, m, clock)
    ensures |queue| == (if |PendingSet(groups, m)| <= 15 then |PendingSet(groups, m)| else 15)
    ensures forall i :: 0 <= i < |queue| ==> Represents(queue[i], PendingSet(groups, m))
    ensures forall i, j :: 0 <= i < j < |queue| ==> ItemFirst(m, clock, queue[i], queue[j])
    ensures forall i, g :: 0 <= i < |queue| && g in PendingSet(groups, m) && Item(g) !in queue ==>
                             ItemFirst(m, clock, queue[i], Item(g))
  {
    var order :| IsQueueFrom(queue, groups, m, clock, order);
    PermutedDistinctKeys(order, groups, m);
    PendingSize(groups, m, order);
    QueueHead(queue, order);
    QueueStands(queue, order, PendingSet(groups, m));
    forall i, j | 0 <= i < j < |queue|
      ensures ItemFirst(m, clock, queue[i], queue[j])
    {
      HeadInOrder(m, clock, queue, order, i, j);
    }
    forall i, g | 0 <= i < |queue| && g in PendingSet(groups, m) && Item(g) !in queue
      ensures ItemFirst(m, clock, queue[i], Item(g))
    {
      var j := LeftOut(queue, order, g);
      HeadInOrder(m, clock, queue, order, i, j);
    }
  }

  lemma QueueStands(queue: seq<QueueItem>, order: seq<Group>, pending: set<Group>)
    requires HeadOf(queue, order) && forall g :: g in order ==> g in pending
    ensures forall i :: 0 <= i < |queue| ==> Represents(queue[i], pending)
  {
    forall i | 0 <= i < |queue|
      ensures Represents(queue[i], pending)
    {
      var g := order[i];
      assert g in order;
      assert g in pending && StandsFor(queue[i], g);
    }
  }

  lemma PendingSize(groups: seq<Group>, m: Memory, order: seq<Group>)
    requires DistinctGroupKeys(order) && forall g :: g in order <==> g in groups && !Covers(m, g)
    ensures |order| == |PendingSet(groups, m)|
  {
    assert Distinct(order);
    DistinctMultiset(order);
    assert Elements(order) == PendingSet(groups, m);
  }

  // ---- Two rounds ----

  /** The stamp of the round is read as later than every stamp in memory. */
  ghost predicate LaterThanAll(m: Memory, clock: Clock, when: int) {
    forall r :: r in m.resources ==> clock.parse(m.resources[r]) < clock.parse(clock.stamp(when))
  }

  lemma UnjudgedFirst(m: Memory, queue: seq<QueueItem>, vs: seq<Verdict>, clock: Clock, when: int, a: string,
      b: string)
    requires InOrder(queue, vs) && KeysQueued(queue, vs) && LaterThanAll(m, clock, when)
    requires Judged(queue, |vs|, a) && !Judged(queue, |vs|, b)
    ensures !ResourceFirst(After(m, queue, vs, clock, when), clock, a, b)
  {
    StampsAfter(m, queue, vs, clock, when, a);
    StampsAfter(m, queue, vs, clock, when, b);
  }

  /** A pending group that does not come after an item of the queue is in the queue before it. */
  lemma EarlierHeld(groups: seq<Group>, m: Memory, clock: Clock, queue: seq<QueueItem>, i: nat, g: Group)
    requires DistinctGroupKeys(groups) && IsQueue(queue, groups, m, clock) && i < |queue| && g in PendingSet(groups, m)
    requires queue[i].resource != g.resource && !ResourceFirst(m, clock, queue[i].resource, g.resource)
    ensures exists j :: 0 <= j < i && StandsFor(queue[j], g)
  {
    QueueIsFirst(groups, m, clock, queue);
    NotFirst(m, clock, queue[i], g);
    var j := PlaceIn(queue, Item(g));
    ItemStands(g);
  }

  lemma NotFirst(m: Memory, clock: Clock, q: QueueItem, g: Group)
    requires q.resource != g.resource && !ResourceFirst(m, clock, q.resource, g.resource)
    ensures !ItemFirst(m, clock, q, Item(g))
  {
  }

  lemma PlaceIn(queue: seq<QueueItem>, q: QueueItem) returns (j: nat)
    requires q in queue
    ensures j < |queue| && queue[j] == q
  {
    j :| 0 <= j < |queue| && queue[j] == q;
  }

  lemma ItemStands(g: Group)
    ensures StandsFor(Item(g), g)
  {
  }

  /** After a round, as long as its stamp is read as later than the earlier ones, the next queue puts every resource
      that got no verdict before every one that did: of a resource that did, it holds a group only after all pending
      groups of those that did not. */
  lemma TurnsTaken(groups: seq<Group>, m: Memory, clock: Clock, queue: seq<QueueItem>, slots: int, vs: seq<Verdict>,
      when: int, next: seq<QueueItem>, i: nat, g: Group)
    requires DistinctGroupKeys(groups) && IsQueue(queue, groups, m, clock) && Accepts(queue, slots, vs)
    requires KeysQueued(queue, vs) && LaterThanAll(m, clock, when)
    requires IsQueue(next, groups, After(m, queue, vs, clock, when), clock)
    requires i < |next| && Judged(queue, |vs|, next[i].resource)
    requires g in PendingSet(groups, After(m, queue, vs, clock, when)) && !Judged(queue, |vs|, g.resource)
    ensures exists j :: 0 <= j < i && StandsFor(next[j], g)
  {
    AcceptedInOrder(groups, m, clock, queue, slots, vs);
    UnjudgedFirst(m, queue, vs, clock, when, next[i].resource, g.resource);
    EarlierHeld(groups, After(m, queue, vs, clock, when), clock, next, i, g);
  }

  // ---- Which verdicts are accepted ----

  /** The places of the `file` verdicts among the first `n`. */
  function FilePlaces(vs: seq<Verdict>, n: nat): set<nat> {
    set i: nat | i < n && i < |vs| && vs[i].verdict == "file"
  }

  lemma {:induction false} FilesCount(vs: seq<Verdict>, n: nat)
    requires n <= |vs|
    ensures Files(vs[..n]) == |FilePlaces(vs, n)|
  {
    if n == 0 {
      assert FilePlaces(vs, 0) == {};
    } else {
      FilesCount(vs, n - 1);
      FilesStep(vs, n - 1);
      if vs[n - 1].verdict == "file" {
        assert FilePlaces(vs, n) == FilePlaces(vs, n - 1) + {n - 1};
      } else {
        assert FilePlaces(vs, n) == FilePlaces(vs, n - 1);
      }
    }
  }

  /** Accepted are exactly the lists that follow the queue with `file` or `suppress` and a reason, take none once the
      slots are filled, and end there or with the queue. */
  lemma AcceptsIff(queue: seq<QueueItem>, slots: int, vs: seq<Verdict>)
    requires DistinctQueue(queue)
    ensures Accepts(queue, slots, vs) <==>
            && |vs| <= |queue|
            && (forall i :: 0 <= i < |vs| ==>
                 vs[i].key == queue[i].key && vs[i].verdict in {"file", "suppress"} && vs[i].reason != "")
            && (forall i :: 0 <= i < |vs| ==> |FilePlaces(vs, i)| < slots)
            && (|FilePlaces(vs, |vs|)| == slots || |vs| == |queue|)
  {
    forall i | 0 <= i <= |vs|
      ensures Files(vs[..i]) == |FilePlaces(vs, i)|
    {
      FilesCount(vs, i);
    }
    assert vs[..|vs|] == vs;
  }

  /** What is accepted and recorded is what was given, without surrounding blanks; so no accepted reason is blank. */
  lemma NormaliseIs(queue: seq<QueueItem>, slots: int, vs: seq<Verdict>, i: nat)
    requires Accepts(queue, slots, Normalise(vs)) && i < |vs|
    ensures Normalise(vs)[i] == Verdict(TrimSpace(vs[i].key), TrimSpace(vs[i].verdict), TrimSpace(vs[i].reason))
    ensures !Blank(vs[i].reason)
  {
    var normal := Normalise(vs);
    assert ValidVerdict(normal[i]);
    var reason := vs[i].reason;
    TrimIs(reason);
    var t := TrimSpace(reason);
    var before, after :| Blank(before) && Blank(after) && reason == before + t + after;
    assert reason[|before|] == t[0];
    assert t[0] in reason;
  }
}

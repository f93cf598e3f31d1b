/** Triage can always go on: which queues have an acceptable list of verdicts, and that a run to the end exists. */
module TriageProgress {
  import opened Text
  import opened Sorting
  import opened Gaps
  import opened Triage

  predicate IsTrimmed(s: string) {
    TrimSpace(s) == s
  }

  function Least(a: int, b: nat): nat
    requires a >= 0
  {
    if a < b then a else b
  }

  /** A `file` verdict for each of the first `n` groups. */
  function FileFirst(queue: seq<QueueItem>, n: nat): (vs: seq<Verdict>)
    requires n <= |queue|
    ensures |vs| == n && forall i :: 0 <= i < n ==> vs[i] == Verdict(queue[i].key, VERDICT_FILE, "x")
  {
    seq(n, i requires 0 <= i < n => Verdict(queue[i].key, VERDICT_FILE, "x"))
  }

  lemma {:induction false} AllFiles(vs: seq<Verdict>)
    requires forall i :: 0 <= i < |vs| ==> vs[i].verdict == VERDICT_FILE
    ensures Files(vs) == |vs|
  {
    if vs != [] {
      AllFiles(vs[..|vs| - 1]);
    }
  }

  lemma {:induction false} FilesAtMost(vs: seq<Verdict>)
    ensures Files(vs) <= |vs|
  {
    if vs != [] {
      FilesAtMost(vs[..|vs| - 1]);
    }
  }

  lemma FileFirstAccepted(queue: seq<QueueItem>, slots: int)
    requires slots > 0 && DistinctQueue(queue)
    ensures Accepts(queue, slots, FileFirst(queue, Least(slots, |queue|)))
  {
    var vs := FileFirst(queue, Least(slots, |queue|));
    AllFiles(vs);
    forall i | 0 <= i < |vs|
      ensures Files(vs[..i]) < slots
    {
      AllFiles(vs[..i]);
    }
  }

  lemma FileFirstTrimmed(queue: seq<QueueItem>, n: nat)
    requires n <= |queue| && forall i :: 0 <= i < n ==> IsTrimmed(queue[i].key)
    ensures Normalise(FileFirst(queue, n)) == FileFirst(queue, n)
  {
    NotBlank(VERDICT_FILE);
    NotBlank("x");
    var vs := FileFirst(queue, n);
    forall i | 0 <= i < n
      ensures Normalise(vs)[i] == vs[i]
    {
      assert IsTrimmed(queue[i].key);
    }
  }

  ghost predicate SomeAccepted(queue: seq<QueueItem>, slots: int) {
    exists vs :: Accepts(queue, slots, Normalise(vs))
  }

  /** Some list of verdicts is accepted if and only if the keys of the groups that must get one (as many as there are
      slots, or all of them) have no surrounding blanks. */
  lemma AcceptedIff(queue: seq<QueueItem>, slots: int)
    requires slots > 0 && DistinctQueue(queue)
    ensures SomeAccepted(queue, slots) <==> forall i :: 0 <= i < Least(slots, |queue|) ==> IsTrimmed(queue[i].key)
  {
    var n := Least(slots, |queue|);
    if forall i :: 0 <= i < n ==> IsTrimmed(queue[i].key) {
      FileFirstAccepted(queue, slots);
      FileFirstTrimmed(queue, n);
      assert Accepts(queue, slots, Normalise(FileFirst(queue, n)));
    }
    if vs: seq<Verdict> :| Accepts(queue, slots, Normalise(vs)) {
      var normal := Normalise(vs);
      FilesAtMost(normal);
      forall i | 0 <= i < n
        ensures IsTrimmed(queue[i].key)
      {
        assert normal[i].key == queue[i].key;
        TrimTwice(vs[i].key);
      }
    }
  }

  // ---- A run to the end ----

  lemma QueueExists(groups: seq<Group>, m: Memory, clock: Clock) returns (queue: seq<QueueItem>)
    ensures IsQueue(queue, groups, m, clock)
  {
    OrderIsTotal(m, clock);
    var order := SortBy(Pending(groups, m), Order(m, clock));
    SortBySorted(Pending(groups, m), Order(m, clock));
    queue := ItemsOf(Cut(order));
    assert IsQueueFrom(queue, groups, m, clock, order);
  }

  /** Keys as discovery hands them on: without blanks. */
  ghost predicate TrimmedKeys(groups: seq<Group>) {
    forall g :: g in groups ==> IsTrimmed(g.key)
  }

  lemma QueueTrimmed(groups: seq<Group>, m: Memory, clock: Clock, queue: seq<QueueItem>)
    requires DistinctGroupKeys(groups) && TrimmedKeys(groups) && IsQueue(queue, groups, m, clock)
    ensures DistinctQueue(queue) && forall i :: 0 <= i < |queue| ==> IsTrimmed(queue[i].key)
  {
    QueueContents(queue, groups, m, clock);
    forall i | 0 <= i < |queue|
      ensures IsTrimmed(queue[i].key)
    {
      assert Queued(queue[i], groups, m);
      var g :| g in groups && !Covers(m, g) && Item(g) == queue[i];
    }
  }

  /** With slots and keys without blanks, there is a next round while anything is pending. */
  lemma NextRound(groups: seq<Group>, m: Memory, clock: Clock, slots: int, when: int) returns (r: Round)
    requires DistinctGroupKeys(groups) && TrimmedKeys(groups) && slots > 0 && PendingSet(groups, m) != {}
    ensures ValidRound(groups, m, clock, slots, r) && Normalise(r.verdicts) == r.verdicts && r.when == when
  {
    var queue := QueueExists(groups, m, clock);
    QueueTrimmed(groups, m, clock, queue);
    EmptyQueue(queue, groups, m, clock);
    var vs := FileFirst(queue, Least(slots, |queue|));
    FileFirstAccepted(queue, slots);
    FileFirstTrimmed(queue, Least(slots, |queue|));
    AcceptedAreQueued(queue, slots, vs);
    r := Round(queue, vs, when);
  }

  /** So a run exists after which nothing is pending and the queue is empty. */
  lemma {:induction false} RunToTheEnd(groups: seq<Group>, m: Memory, clock: Clock, slots: int, when: int)
    returns (rounds: seq<Round>)
    requires DistinctGroupKeys(groups) && TrimmedKeys(groups) && slots > 0
    ensures ValidRun(groups, m, clock, slots, rounds)
    ensures PendingSet(groups, RunMemory(groups, m, clock, slots, rounds)) == {}
    decreases |PendingSet(groups, m)|
  {
    if PendingSet(groups, m) == {} {
      rounds := [];
    } else {
      var r := NextRound(groups, m, clock, slots, when);
      RoundShrinks(groups, m, r.queue, slots, r.verdicts, clock, r.when);
      var later := RunToTheEnd(groups, After(m, r.queue, r.verdicts, clock, r.when), clock, slots, when);
      rounds := [r] + later;
      assert rounds[1..] == later;
    }
  }
}

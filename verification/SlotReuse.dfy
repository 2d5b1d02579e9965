/**
 When the driver stores over the available slot of a request that `processed` still counts as
 pending: the exact condition, and a run that comes to it.
 */
module SlotReuse {
  import opened Words
  import opened VirtQueue
  import opened Engine

  /** Of the requests counted as pending, only the oldest can lose its slot, and only one whole ring later. */
  lemma StagedSlot(q: Queue, pc: Pc, c: seq<nat>, j: nat)
    requires QueueInv(q, pc) && DriverMay(q, Stage(c)) && q.served <= j < |q.posted|
    ensures Slot(j) == Slot(q.availIdx) <==> j == q.served && |q.posted| == q.served + 16384
    ensures Slot(j) == Slot(q.availIdx) ==> pc.IdxWritten? && |q.collected| == |q.published| == j + 1
  {
    StageBound(q, pc, c);
    hide Owned, Booked, AvailHolds, UsedHolds, Reported, PrefixOf;
    if j + 16384 > |q.posted| {
      DistinctSlots(j, |q.posted|);
    } else {
      SlotShift(j, 1);
    }
  }

  /**
   In every run, staging a chain stores into the slot of a request from `processed` on if and
   only if that is the oldest and the ring has gone once round since; and then the device has
   published the request's used entry, the driver has collected it, and the slot is never read again.
   */
  lemma PendingSlotStoredIff(trace: seq<Sys>, acts: seq<Action>, k: nat, qi: nat, j: nat)
    requires IsRun(trace, acts) && k < |acts| && acts[k].Driver? && acts[k].move.Stage? && acts[k].qi == qi
    requires qi < |trace[k].queues| && trace[k].queues[qi].served <= j < |trace[k].queues[qi].posted|
    ensures var q := trace[k].queues[qi];
      && (Slot(j) == Slot(q.availIdx) <==> j == q.served && |q.posted| == q.served + 16384)
      && (Slot(j) == Slot(q.availIdx) ==>
            qi == trace[k].cur && trace[k].pc.IdxWritten? && |q.collected| == |q.published| == j + 1)
  {
    RunQueueInv(trace, acts, k, qi);
    assert Move(trace, acts, k);
    hide IsRun, QueueInv;
    StagedSlot(trace[k].queues[qi], PcOf(trace[k], qi), acts[k].move.chain, j);
  }

  // ---------------------------------------------------------------- a run that comes to it

  lemma Extend(trace: seq<Sys>, acts: seq<Action>, a: Action) returns (trace': seq<Sys>, acts': seq<Action>)
    requires IsRun(trace, acts) && |trace| == |acts| + 1 && Enabled(trace[|acts|], a)
    ensures IsRun(trace', acts') && |trace'| == |acts'| + 1
    ensures |acts'| == |acts| + 1 && trace'[..|trace|] == trace && trace'[|acts'|] == Step(trace[|acts|], a)
  {
    hide IsRun, Step, Enabled;
    trace', acts' := trace + [Step(trace[|acts|], a)], acts + [a];
    RunExtends(trace, acts, a);
  }

  /** A driver move appended to a run of a one-queue loop that is about to finish a pass. */
  lemma ExtendDriver(trace: seq<Sys>, acts: seq<Action>, q: Queue, m: DriverMove)
    returns (trace': seq<Sys>, acts': seq<Action>)
    requires IsRun(trace, acts) && |trace| == |acts| + 1
    requires trace[|acts|] == Sys([q], 0, IdxWritten) && DriverReady(q, m)
    ensures IsRun(trace', acts') && |trace'| == |acts'| + 1 && |acts'| == |acts| + 1 && trace'[..|trace|] == trace
    ensures trace'[|acts'|] == Sys([DriverStep(q, m)], 0, IdxWritten)
  {
    hide IsRun, DriverReady, DriverStep;
    trace', acts' := Extend(trace, acts, Driver(0, m));
    assert [q][0 := DriverStep(q, m)] == [DriverStep(q, m)];
  }

  const EMPTY_DESC: Desc := Desc(0, 0, 0, 0)

  /** A queue whose descriptors are all single and empty. */
  function PlainQueue(): (q: Queue)
    ensures Fresh(q)
  {
    Queue(seq<Desc>(16384, _ => EMPTY_DESC), seq<u16>(16384, _ => 0), 0, seq<UsedElem>(16384, _ => UsedElem(0, 0)), 0,
          0, [], map[], 0, 0, [], [], [], 0, 0, 0)
  }

  /** The driver has posted the one-descriptor chains `[0]` to `[n - 1]`, and the device has done nothing. */
  ghost predicate PostedSingles(q: Queue, n: nat) {
    && Sized(q) && (forall i | 0 <= i < 16384 :: q.table[i] == EMPTY_DESC)
    && q.availIdx == Wrap16(n) && |q.posted| == n && (n > 0 ==> q.availRing[0] == 0)
    && q.staged == [] && q.published == q.collected == []
    && q.usedIdx == q.processed == q.lastUsed == q.seenUsed == 0 && q.served == q.seen == 0
    && (forall h | h in q.inflight :: h < n && q.inflight[h] == [h])
  }

  lemma SingleChain(table: seq<Desc>, d: nat)
    requires |table| == 16384 && d < 16384 && table[d] == EMPTY_DESC
    ensures IsChain(table, [d]) && Slot(d) == d
  {
  }

  lemma SinglesSized(q: Queue, n: nat)
    requires PostedSingles(q, n)
    ensures Sized(q)
  {
  }

  /** The queue after one more single chain is staged and published. */
  lemma PostOne(q: Queue, n: nat)
    requires PostedSingles(q, n) && n < 16384
    ensures DriverReady(q, Stage([n]))
    ensures var q1 := DriverStep(q, Stage([n]));
      DriverReady(q1, Publish) && PostedSingles(DriverStep(q1, Publish), n + 1)
  {
    SingleChain(q.table, n);
    forall h | h in q.inflight
      ensures Apart(q.inflight[h], [n])
    {
      assert q.inflight[h] == [h];
    }
    WrapNext(n);
    assert n > 0 ==> Slot(n) != 0;
  }

  lemma StartPlain() returns (trace: seq<Sys>, acts: seq<Action>)
    ensures IsRun(trace, acts) && |trace| == |acts| + 1
    ensures exists q: Queue :: trace[|acts|] == Sys([q], 0, Idle) && PostedSingles(q, 0)
  {
    var q := PlainQueue();
    trace, acts := [Sys([q], 0, Idle)], [];
    assert PostedSingles(q, 0);
  }

  lemma PostSingles(n: nat) returns (trace: seq<Sys>, acts: seq<Action>)
    requires n <= 16384
    ensures IsRun(trace, acts) && |trace| == |acts| + 1
    ensures exists q: Queue :: trace[|acts|] == Sys([q], 0, Idle) && PostedSingles(q, n)
  {
    hide IsRun, PostedSingles, DriverStep, DriverReady;
    if n == 0 {
      trace, acts := StartPlain();
    } else {
      trace, acts := PostSingles(n - 1);
      var q: Queue :| trace[|acts|] == Sys([q], 0, Idle) && PostedSingles(q, n - 1);
      PostOne(q, n - 1);
      var q1 := DriverStep(q, Stage([n - 1]));
      trace, acts := Extend(trace, acts, Driver(0, Stage([n - 1])));
      assert trace[|acts|] == Sys([q1], 0, Idle);
      trace, acts := Extend(trace, acts, Driver(0, Publish));
      assert trace[|acts|] == Sys([DriverStep(q1, Publish)], 0, Idle);
    }
  }

  /** `n` device steps appended to a run of a one-queue loop. */
  lemma ExtendAlone(trace: seq<Sys>, acts: seq<Action>, q: Queue, pc: Pc, n: nat)
    returns (trace': seq<Sys>, acts': seq<Action>)
    requires IsRun(trace, acts) && |trace| == |acts| + 1 && trace[|acts|] == Sys([q], 0, pc) && Sized(q)
    ensures IsRun(trace', acts') && |trace'| == |acts'| + 1
    ensures var (q', pc') := Alone(q, pc, n); trace'[|acts'|] == Sys([q'], 0, pc')
    decreases n
  {
    hide IsRun, DeviceStep;
    if n == 0 {
      trace', acts' := trace, acts;
    } else {
      var (q1, pc1) := DeviceStep(q, pc, true);
      trace', acts' := Extend(trace, acts, Device(true));
      assert trace'[|acts'|] == Sys([q1], 0, pc1);
      trace', acts' := ExtendAlone(trace', acts', q1, pc1, n - 1);
    }
  }

  /** The device has served request 0 up to the store of the used index. */
  ghost predicate FirstAnswered(q: Queue, n: nat) {
    && Sized(q) && (forall i | 0 <= i < 16384 :: q.table[i] == EMPTY_DESC)
    && q.availIdx == Wrap16(n) && |q.posted| == n && q.availRing[0] == 0
    && q.staged == [] && |q.published| == 1 && q.collected == [] && q.usedRing[0].id == 0
    && q.usedIdx == 1 && q.processed == q.lastUsed == q.seenUsed == 0 && q.served == 0
    && (forall h | h in q.inflight :: h < n && q.inflight[h] == [h])
  }

  lemma AnswerFirst(q: Queue, n: nat)
    requires PostedSingles(q, n) && 0 < n < 16384
    ensures var (q', pc') := Alone(q, Idle, 7); pc' == IdxWritten && FirstAnswered(q', n)
  {
    hide Alone;
    AloneStep(q, Idle, 6);
    AloneStep(q, Polled(q.availIdx), 5);
    AloneStep(q, Walking(0, 0, 0, 0), 4);
    AloneStep(q, Walked(0, 0), 3);
    AloneStep(q, HaveUsed(0, 0, 0), 2);
    var (q5, pc5) := DeviceStep(q, HaveUsed(0, 0, 0), true);
    AloneStep(q5, pc5, 1);
    var (q6, pc6) := DeviceStep(q5, pc5, true);
    AloneStep(q6, pc6, 0);
    var (q7, pc7) := DeviceStep(q6, pc6, true);
    AloneStep(q7, pc7, 0);
    assert q7.usedRing[0].id == 0;
  }

  /** The driver collects request 0, posts its descriptor again, and stages the one descriptor it never used. */
  lemma ReuseMoves(q: Queue)
    requires FirstAnswered(q, 16383)
    ensures DriverReady(q, Observe)
    ensures var q1 := DriverStep(q, Observe); DriverReady(q1, Collect)
    ensures var q2 := DriverStep(DriverStep(q, Observe), Collect); DriverReady(q2, Stage([0]))
    ensures var q3 := DriverStep(DriverStep(DriverStep(q, Observe), Collect), Stage([0])); DriverReady(q3, Publish)
    ensures var q4 := DriverStep(DriverStep(DriverStep(DriverStep(q, Observe), Collect), Stage([0])), Publish);
      DriverReady(q4, Stage([16383])) && q4.availRing[0] == 0 && q4.served == 0 && |q4.posted| == 16384
      && q4.processed == 0 && q4.availIdx == 16384 && Sized(q4) && Sized(DriverStep(q4, Stage([16383])))
      && DriverStep(q4, Stage([16383])).availRing[0] == 16383
  {
    SingleChain(q.table, 0);
    SingleChain(q.table, 16383);
    var q2 := DriverStep(DriverStep(q, Observe), Collect);
    forall h | h in q2.inflight
      ensures Apart(q2.inflight[h], [0])
    {
      assert q2.inflight[h] == [h] && h != 0;
    }
    var q4 := DriverStep(DriverStep(q2, Stage([0])), Publish);
    forall h | h in q4.inflight
      ensures Apart(q4.inflight[h], [16383])
    {
      assert q4.inflight[h] == [h] && h < 16383;
    }
  }

  /**
   A run whose last step stores head 16383 over head 0 in available slot 0, while `processed` is
   still 0 and so counts the request of that slot as pending.
   */
  lemma PendingSlotStored() returns (trace: seq<Sys>, acts: seq<Action>, k: nat)
    ensures IsRun(trace, acts) && k + 1 < |trace| && |trace[k].queues| == |trace[k + 1].queues| == 1
    ensures Sized(trace[k].queues[0]) && Sized(trace[k + 1].queues[0])
    ensures var q, q' := trace[k].queues[0], trace[k + 1].queues[0];
      && q.processed == q.served == 0 && q.processed != q.availIdx && |q.posted| == 16384
      && q.availRing[Slot(0)] == 0 && q'.availRing[Slot(0)] == 16383
  {
    hide IsRun, PostedSingles, FirstAnswered, Alone, DriverReady, DriverStep;
    trace, acts := PostSingles(16383);
    var q: Queue :| trace[|acts|] == Sys([q], 0, Idle) && PostedSingles(q, 16383);
    assert Sized(q) by { SinglesSized(q, 16383); }
    AnswerFirst(q, 16383);
    trace, acts := ExtendAlone(trace, acts, q, Idle, 7);
    var q0 := Alone(q, Idle, 7).0;
    ReuseMoves(q0);
    trace, acts := ExtendDriver(trace, acts, q0, Observe);
    var q1 := DriverStep(q0, Observe);
    trace, acts := ExtendDriver(trace, acts, q1, Collect);
    var q2 := DriverStep(q1, Collect);
    trace, acts := ExtendDriver(trace, acts, q2, Stage([0]));
    var q3 := DriverStep(q2, Stage([0]));
    trace, acts := ExtendDriver(trace, acts, q3, Publish);
    k := |acts|;
    var q4 := DriverStep(q3, Publish);
    var before := trace;
    trace, acts := ExtendDriver(trace, acts, q4, Stage([16383]));
    assert trace[k] == before[k];
  }
}

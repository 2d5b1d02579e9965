/**
 The whole device loop: several virtqueues served round-robin by one device thread, each
 shared with its driver. The theorems are about every state of every run, that is, every
 interleaving of device and driver steps of any length.
 */
module Engine {
  import opened Words
  import opened VirtQueue

  datatype Sys = Sys(queues: seq<Queue>, cur: nat, pc: Pc)

  datatype Action =
    | Device(hasData: bool)
    | Driver(qi: nat, move: DriverMove)

  function PcOf(s: Sys, i: nat): Pc { if i == s.cur then s.pc else Idle }

  function NextQueue(s: Sys): nat { if s.cur + 1 < |s.queues| then s.cur + 1 else 0 }

  ghost predicate Enabled(s: Sys, a: Action) {
    match a
    case Device(_) => s.cur < |s.queues| && Sized(s.queues[s.cur])
    case Driver(qi, m) => qi < |s.queues| && DriverReady(s.queues[qi], m)
  }

  ghost function Step(s: Sys, a: Action): Sys
    requires Enabled(s, a)
  {
    match a
    case Device(hasData) =>
      var (q, pc) := DeviceStep(s.queues[s.cur], s.pc, hasData);
      Sys(s.queues[s.cur := q], if pc.Idle? then NextQueue(s) else s.cur, pc)
    case Driver(qi, m) => s.(queues := s.queues[qi := DriverStep(s.queues[qi], m)])
  }

  /** Rings start at index 0 with nothing outstanding; their contents are arbitrary. */
  ghost predicate Fresh(q: Queue) {
    && Sized(q)
    && q.availIdx == q.usedIdx == q.processed == q.lastUsed == q.seenUsed == 0
    && q.staged == [] && q.inflight == map[]
    && q.posted == [] && q.published == [] && q.collected == []
    && q.seen == q.served == q.visits == 0
  }

  ghost predicate Initial(s: Sys) {
    && s.queues != [] && s.cur == 0 && s.pc.Idle?
    && forall i | 0 <= i < |s.queues| :: Fresh(s.queues[i])
  }

  ghost predicate Move(trace: seq<Sys>, acts: seq<Action>, i: nat)
    requires i < |acts| && |trace| == |acts| + 1
  {
    Enabled(trace[i], acts[i]) && trace[i + 1] == Step(trace[i], acts[i])
  }

  ghost predicate IsRun(trace: seq<Sys>, acts: seq<Action>) {
    && |trace| == |acts| + 1
    && Initial(trace[0])
    && forall i | 0 <= i < |acts| :: Move(trace, acts, i)
  }

  /** A run goes on with any enabled action. */
  lemma RunExtends(trace: seq<Sys>, acts: seq<Action>, a: Action)
    requires IsRun(trace, acts) && Enabled(trace[|acts|], a)
    ensures IsRun(trace + [Step(trace[|acts|], a)], acts + [a])
  {
    hide Step, Enabled, Initial;
    var trace', acts' := trace + [Step(trace[|acts|], a)], acts + [a];
    forall i | 0 <= i < |acts'|
      ensures Move(trace', acts', i)
    {
      assert i < |acts| ==> Move(trace, acts, i);
    }
  }

  // ---------------------------------------------------------------- invariant of every run

  ghost predicate Inv(s: Sys) {
    s.cur < |s.queues| && forall i | 0 <= i < |s.queues| :: QueueInv(s.queues[i], PcOf(s, i))
  }

  lemma StepInv(s: Sys, a: Action)
    requires Inv(s) && Enabled(s, a)
    ensures Inv(Step(s, a))
  {
    var s' := Step(s, a);
    var qi := if a.Device? then s.cur else a.qi;
    assert QueueInv(s'.queues[qi], PcOf(s', qi)) && |s'.queues| == |s.queues| by {
      assert QueueInv(s.queues[qi], PcOf(s, qi));
      if a.Device? {
        DeviceStepInv(s.queues[qi], s.pc, a.hasData);
      } else {
        DriverStepInv(s.queues[qi], PcOf(s, qi), a.move);
      }
    }
    forall i | 0 <= i < |s'.queues|
      ensures QueueInv(s'.queues[i], PcOf(s', i))
    {
      assert i != qi ==> QueueInv(s.queues[i], PcOf(s, i)) && s'.queues[i] == s.queues[i];
    }
  }

  lemma {:induction false} RunInv(trace: seq<Sys>, acts: seq<Action>, k: nat)
    requires IsRun(trace, acts) && k < |trace|
    ensures Inv(trace[k]) && |trace[k].queues| == |trace[0].queues|
  {
    if k == 0 {
      assert forall i | 0 <= i < |trace[0].queues| :: Fresh(trace[0].queues[i]);
    } else {
      RunInv(trace, acts, k - 1);
      assert Move(trace, acts, k - 1);
      StepInv(trace[k - 1], acts[k - 1]);
    }
  }

  lemma RunQueueInv(trace: seq<Sys>, acts: seq<Action>, k: nat, qi: nat)
    requires IsRun(trace, acts) && k < |trace| && qi < |trace[k].queues|
    ensures QueueInv(trace[k].queues[qi], PcOf(trace[k], qi))
  {
    RunInv(trace, acts, k);
  }

  // ---------------------------------------------------------------- safety of every run

  /**
   What the driver reads out of the used ring answers its requests in order, each once: entry
   `j` that it collects names the head of request `j` and carries the sum of its lengths
   modulo 2^32. The counters stay within one ring of each other however often they wrap.
   */
  lemma CollectedInOrder(trace: seq<Sys>, acts: seq<Action>, k: nat, qi: nat)
    requires IsRun(trace, acts) && k < |trace| && qi < |trace[k].queues|
    ensures var q := trace[k].queues[qi];
      && |q.collected| <= |q.published| <= |q.posted| <= |q.collected| + 16384
      && (forall j | 0 <= j < |q.published| ::
            && q.posted[j].chain != []
            && q.published[j].id == q.posted[j].chain[0]
            && q.published[j].len == Wrap32(Total(q.posted[j].descs, |q.posted[j].descs|)))
      && q.collected == q.published[..|q.collected|]
  {
    RunQueueInv(trace, acts, k, qi);
    var q := trace[k].queues[qi];
    OutstandingBound(q.table, q.posted, |q.collected|, q.staged);
  }

  /** The wrapped comparison `processed != avail_idx` is exact. */
  lemma PendingTestExact(trace: seq<Sys>, acts: seq<Action>, k: nat, qi: nat)
    requires IsRun(trace, acts) && k < |trace| && qi < |trace[k].queues|
    ensures var q := trace[k].queues[qi];
      q.processed != q.availIdx <==> q.served < |q.posted|
  {
    RunQueueInv(trace, acts, k, qi);
    var q := trace[k].queues[qi];
    OutstandingBound(q.table, q.posted, |q.collected|, q.staged);
    WrappedEqual(q.served, |q.posted|);
  }

  /** A head is never stored over one that the device has yet to read. */
  lemma UnreadAvailSlotKept(trace: seq<Sys>, acts: seq<Action>, k: nat, qi: nat, j: nat)
    requires IsRun(trace, acts) && k < |acts| && acts[k].Driver? && qi < |trace[k].queues|
    requires |trace[k].queues[qi].published| <= j < |trace[k].queues[qi].posted|
    ensures Inv(trace[k]) && Inv(trace[k + 1]) && qi < |trace[k + 1].queues|
    ensures QueueInv(trace[k].queues[qi], PcOf(trace[k], qi))
    ensures QueueInv(trace[k + 1].queues[qi], PcOf(trace[k + 1], qi))
    ensures var q, q' := trace[k].queues[qi], trace[k + 1].queues[qi];
      q'.availRing[Slot(j)] == q.availRing[Slot(j)] == q.posted[j].chain[0]
  {
    hide Owned, Booked, UsedHolds, Reported, Local;
    var s, a := trace[k], acts[k];
    RunInv(trace, acts, k);
    RunInv(trace, acts, k + 1);
    assert Move(trace, acts, k);
    if qi == a.qi && a.move.Stage? {
      StageBound(s.queues[qi], PcOf(s, qi), a.move.chain);
    }
  }

  /**
   A used entry is never stored over one that the driver has yet to collect, and every entry
   below the used index it has read, however stale, is complete and right.
   */
  lemma UncollectedUsedSlotKept(trace: seq<Sys>, acts: seq<Action>, k: nat, qi: nat, j: nat)
    requires IsRun(trace, acts) && k < |acts| && acts[k].Device? && qi < |trace[k].queues|
    requires |trace[k].queues[qi].collected| <= j < |trace[k].queues[qi].published|
    ensures Inv(trace[k]) && Inv(trace[k + 1]) && qi < |trace[k + 1].queues|
    ensures QueueInv(trace[k].queues[qi], PcOf(trace[k], qi))
    ensures QueueInv(trace[k + 1].queues[qi], PcOf(trace[k + 1], qi))
    ensures var q, q' := trace[k].queues[qi], trace[k + 1].queues[qi];
      q.seen <= |q.published| && q'.usedRing[Slot(j)] == q.usedRing[Slot(j)] == Report(q.posted[j])
  {
    var s := trace[k];
    RunInv(trace, acts, k);
    RunInv(trace, acts, k + 1);
    assert Move(trace, acts, k);
    if qi == s.cur && (s.pc.HaveUsed? || s.pc.IdWritten?) {
      UsedSlotFree(s.queues[qi], s.pc);
    }
  }

  /**
   In every state of every run the used index is exactly as far as `processed`, or one ahead: the
   latter between the last two stores of a pass and at no other time.
   */
  lemma ProcessedLags(trace: seq<Sys>, acts: seq<Action>, k: nat, qi: nat)
    requires IsRun(trace, acts) && k < |trace| && qi < |trace[k].queues|
    ensures var q, ahead := trace[k].queues[qi], trace[k].cur == qi && trace[k].pc.IdxWritten?;
      && |q.published| == q.served + (if ahead then 1 else 0)
      && q.usedIdx == Wrap16(q.processed as int + if ahead then 1 else 0)
  {
    RunQueueInv(trace, acts, k, qi);
    WrapNext(trace[k].queues[qi].served);
  }

  /**
   A queue's used ring, its index and the device's progress on it change only when the device is
   on that queue; and a device step elsewhere changes nothing of it at all.
   */
  lemma ProgressOnlyWhenServed(trace: seq<Sys>, acts: seq<Action>, k: nat, qi: nat)
    requires IsRun(trace, acts) && k < |acts| && qi < |trace[k].queues|
    ensures |trace[k + 1].queues| == |trace[k].queues|
    ensures var q, q' := trace[k].queues[qi], trace[k + 1].queues[qi];
      && (!(acts[k].Device? && trace[k].cur == qi) ==>
            && q'.usedRing == q.usedRing && q'.usedIdx == q.usedIdx
            && q'.processed == q.processed && q'.published == q.published)
      && (acts[k].Device? && trace[k].cur != qi ==> q' == q)
  {
    assert Move(trace, acts, k);
  }

  /** After `p` whole passes of the loop and a part of the next, the queues before the current one have had `p + 1`. */
  ghost predicate RoundRobin(s: Sys, p: nat) {
    forall i | 0 <= i < |s.queues| :: s.queues[i].visits == if i < s.cur then p + 1 else p
  }

  /** The loop visits its queues in turn, so a queue's passes are the loop's. */
  lemma {:induction false} QueuesTakeTurns(trace: seq<Sys>, acts: seq<Action>, k: nat)
    requires IsRun(trace, acts) && k < |trace|
    ensures trace[k].cur < |trace[k].queues| && exists p: nat :: RoundRobin(trace[k], p)
  {
    if k == 0 {
      assert forall i | 0 <= i < |trace[0].queues| :: Fresh(trace[0].queues[i]);
      assert RoundRobin(trace[0], 0);
    } else {
      QueuesTakeTurns(trace, acts, k - 1);
      assert Move(trace, acts, k - 1);
      var s, s' := trace[k - 1], trace[k];
      var p: nat :| RoundRobin(s, p);
      var wraps := acts[k - 1].Device? && s'.pc.Idle? && s.cur + 1 == |s.queues|;
      assert RoundRobin(s', if wraps then p + 1 else p);
    }
  }

  // ---------------------------------------------------------------- refinement to a FIFO

  /** The specification: requests wait in order and are answered one at a time. */
  datatype Fifo = Fifo(waiting: seq<Posted>, answered: seq<UsedElem>)

  ghost predicate FifoStep(f: Fifo, f': Fifo) {
    || f' == f
    || (exists p :: f' == f.(waiting := f.waiting + [p]))
    || (&& f.waiting != [] && Headed(f.waiting)
        && f' == Fifo(f.waiting[1..], f.answered + [Report(f.waiting[0])]))
  }

  ghost function Abstract(q: Queue): Fifo
    requires |q.published| <= |q.posted|
  {
    Fifo(q.posted[|q.published|..], q.published)
  }

  lemma DeviceRefinesFifo(q: Queue, pc: Pc, hasData: bool)
    requires QueueInv(q, pc)
    ensures var q' := DeviceStep(q, pc, hasData).0;
      |q'.published| <= |q'.posted| && FifoStep(Abstract(q), Abstract(q'))
  {
    hide Owned, Booked, AvailHolds, UsedHolds;
    DeviceStepInv(q, pc, hasData);
    var q' := DeviceStep(q, pc, hasData).0;
    if pc.LenWritten? {
      var f := Abstract(q);
      assert f.waiting[0] == q.posted[q.served];
      assert Abstract(q').waiting == f.waiting[1..];
      assert Headed(f.waiting);
    }
  }

  lemma DriverRefinesFifo(q: Queue, pc: Pc, m: DriverMove)
    requires QueueInv(q, pc) && DriverReady(q, m)
    ensures var q' := DriverStep(q, m);
      |q'.published| <= |q'.posted| && FifoStep(Abstract(q), Abstract(q'))
  {
    var q' := DriverStep(q, m);
    if m.Publish? {
      var p := Posted(q.staged, Descs(q.table, q.staged));
      assert Abstract(q').waiting == Abstract(q).waiting + [p];
      assert Abstract(q') == Abstract(q).(waiting := Abstract(q).waiting + [p]);
    }
  }

  /** Every step of every run is a step of each queue's FIFO. */
  lemma RunRefinesFifo(trace: seq<Sys>, acts: seq<Action>, k: nat, qi: nat)
    requires IsRun(trace, acts) && k < |acts| && qi < |trace[k].queues|
    ensures qi < |trace[k + 1].queues|
    ensures var q, q' := trace[k].queues[qi], trace[k + 1].queues[qi];
      && |q.published| <= |q.posted| && |q'.published| <= |q'.posted|
      && FifoStep(Abstract(q), Abstract(q'))
  {
    var s, a := trace[k], acts[k];
    RunQueueInv(trace, acts, k, qi);
    assert Move(trace, acts, k);
    if a.Device? && qi == s.cur {
      DeviceRefinesFifo(s.queues[qi], s.pc, a.hasData);
    } else if a.Driver? && qi == a.qi {
      DriverRefinesFifo(s.queues[qi], PcOf(s, qi), a.move);
    }
  }

  // ---------------------------------------------------------------- bounded service

  ghost predicate Serves(s: Sys, a: Action, qi: nat) {
    a.Device? && s.cur == qi ==> a.hasData
  }

  /** Queue `qi` always reports data while the device is on it, as a block device does. */
  ghost predicate AlwaysServes(trace: seq<Sys>, acts: seq<Action>, qi: nat) {
    forall i | 0 <= i < |acts| && i < |trace| :: Serves(trace[i], acts[i], qi)
  }

  /** The device is in a pass over queue `qi` in which it has seen nothing to serve. */
  predicate Missed(s: Sys, qi: nat)
    requires qi < |s.queues|
  {
    s.cur == qi && s.pc.Polled? && s.pc.availSeen == s.queues[qi].processed
  }

  /** Passes over queue `qi` within which a request with `ahead` requests ahead of it is answered. */
  function PassesNeeded(s: Sys, qi: nat, ahead: nat): nat
    requires qi < |s.queues|
  {
    ahead + if Missed(s, qi) then 2 else 1
  }

  /**
   Progress since a state with `served0` and `visits0`, towards request `r`: every pass since
   serves a request, but for `slack` of them and the one under way if it has missed the request.
   */
  ghost predicate Progress(s: Sys, qi: nat, r: nat, served0: nat, visits0: nat, slack: nat)
    requires qi < |s.queues|
  {
    var q := s.queues[qi];
    && r < |q.posted| && visits0 <= q.visits
    && (q.served > r ||
        q.served + slack >= served0 + (q.visits - visits0) + if Missed(s, qi) then 1 else 0)
  }

  lemma ProgressStep(s: Sys, a: Action, qi: nat, r: nat, served0: nat, visits0: nat, slack: nat)
    requires Inv(s) && Enabled(s, a) && Serves(s, a, qi)
    requires qi < |s.queues| && Progress(s, qi, r, served0, visits0, slack)
    ensures Progress(Step(s, a), qi, r, served0, visits0, slack)
  {
    hide Owned, Booked, AvailHolds, UsedHolds, Reported, PrefixOf;
    var q := s.queues[qi];
    assert QueueInv(q, PcOf(s, qi));
    OutstandingBound(q.table, q.posted, |q.collected|, q.staged);
    WrappedEqual(q.served, |q.posted|);
  }

  lemma {:induction false} ProgressRun(trace: seq<Sys>, acts: seq<Action>, qi: nat, r: nat, i: nat, k: nat)
    requires IsRun(trace, acts) && AlwaysServes(trace, acts, qi) && i <= k < |trace|
    requires qi < |trace[i].queues| && r < |trace[i].queues[qi].posted|
    ensures qi < |trace[k].queues|
    ensures var q := trace[i].queues[qi];
      Progress(trace[k], qi, r, q.served, q.visits, if Missed(trace[i], qi) then 1 else 0)
    decreases k
  {
    hide Owned, Booked, AvailHolds, UsedHolds, Reported, PrefixOf;
    if i == k {
    } else {
      ProgressRun(trace, acts, qi, r, i, k - 1);
      RunInv(trace, acts, k - 1);
      assert Move(trace, acts, k - 1) && Serves(trace[k - 1], acts[k - 1], qi);
      var q := trace[i].queues[qi];
      hide IsRun, AlwaysServes, Inv, Step, Progress, Missed;
      ProgressStep(trace[k - 1], acts[k - 1], qi, r, q.served, q.visits, if Missed(trace[i], qi) then 1 else 0);
    }
  }

  /**
   A request with `n` requests ahead of it is answered by the end of the device's (n+1)-th pass
   over its queue that ends from any moment on, wherever the device is; or of the (n+2)-th, if at
   that moment it is in a pass in which it has already looked and seen nothing.
   */
  lemma BoundedService(trace: seq<Sys>, acts: seq<Action>, qi: nat, r: nat, i: nat, k: nat)
    requires IsRun(trace, acts) && AlwaysServes(trace, acts, qi) && i <= k < |trace|
    requires qi < |trace[i].queues| && qi < |trace[k].queues|
    requires trace[i].queues[qi].served <= r < |trace[i].queues[qi].posted|
    requires var q := trace[i].queues[qi];
      trace[k].queues[qi].visits >= q.visits + PassesNeeded(trace[i], qi, r - q.served)
    ensures var q := trace[k].queues[qi];
      && r < q.served && r < |q.published| <= |q.posted| && q.posted[r].chain != []
      && q.published[r].id == q.posted[r].chain[0]
  {
    ProgressRun(trace, acts, qi, r, i, k);
    RunQueueInv(trace, acts, k, qi);
  }

  // ---------------------------------------------------------------- service counted in steps

  /** Device steps among the actions from `i` to `k`. */
  function DeviceSteps(acts: seq<Action>, i: nat, k: nat): (n: nat)
    requires i <= k <= |acts|
    ensures n <= k - i
    decreases k - i
  {
    if i == k then 0 else DeviceSteps(acts, i, k - 1) + if acts[k - 1].Device? then 1 else 0
  }

  /** Steps to the end of the current turn, at most: 16384 descriptors, and seven more. */
  function StepsLeft(pc: Pc): int {
    match pc
    case Idle => 16391
    case Polled(_) => 16390
    case Walking(_, _, _, pos) => 16389 - pos
    case Walked(_, _) => 5
    case HaveUsed(_, _, _) => 4
    case IdWritten(_, _, _) => 3
    case LenWritten(_) => 2
    case IdxWritten => 1
  }

  lemma StepsRemain(q: Queue, pc: Pc)
    requires QueueInv(q, pc)
    ensures 1 <= StepsLeft(pc) <= 16391 && (pc.Walking? ==> StepsLeft(pc) >= 6)
  {
    hide Booked, AvailHolds, UsedHolds, Reported, PrefixOf;
    if pc.Walking? {
      assert OwnedChain(q.table, q.posted[q.served]);
      Pigeonhole(q.posted[q.served].chain, 16384);
    }
  }

  /** A step of the device ends its turn, or leaves it with one step less to make. */
  lemma StepShortens(q: Queue, pc: Pc, hasData: bool)
    requires QueueInv(q, pc)
    ensures var (q', pc') := DeviceStep(q, pc, hasData);
      && q'.visits == q.visits + (if pc'.Idle? then 1 else 0)
      && (pc'.Idle? || StepsLeft(pc') <= StepsLeft(pc) - 1)
  {
    StepsRemain(q, pc);
  }

  /** Turns that the loop has ended, over all its queues. */
  function Turns(s: Sys): int
    requires s.queues != []
  {
    |s.queues| * s.queues[|s.queues| - 1].visits + s.cur
  }

  lemma CurrentInv(s: Sys)
    requires Inv(s)
    ensures s.cur < |s.queues| && QueueInv(s.queues[s.cur], s.pc) && Sized(s.queues[s.cur])
  {
    assert QueueInv(s.queues[s.cur], PcOf(s, s.cur));
  }

  /** One more visit to the current queue is one more turn of the loop. */
  lemma TurnsVisit(s: Sys, s': Sys, ended: bool)
    requires s.cur < |s.queues| == |s'.queues| && s'.cur == (if ended then NextQueue(s) else s.cur)
    requires forall i | 0 <= i < |s.queues| ::
      s'.queues[i].visits == s.queues[i].visits + if ended && i == s.cur then 1 else 0
    ensures Turns(s') == Turns(s) + if ended then 1 else 0
  {
    var n := |s.queues|;
    var v := s.queues[n - 1].visits;
    assert n * (v + 1) == n * v + n;
  }

  lemma TurnsStep(s: Sys, a: Action)
    requires Inv(s) && Enabled(s, a)
    ensures var s' := Step(s, a);
      && |s'.queues| == |s.queues| > 0
      && (a.Driver? ==> Turns(s') == Turns(s) && s'.pc == s.pc)
      && (a.Device? && s'.pc.Idle? ==> Turns(s') == Turns(s) + 1)
      && (a.Device? && !s'.pc.Idle? ==> Turns(s') == Turns(s) && StepsLeft(s'.pc) <= StepsLeft(s.pc) - 1)
  {
    hide Inv, QueueInv, DeviceStep, StepsLeft, Turns;
    CurrentInv(s);
    if a.Device? {
      StepShortens(s.queues[s.cur], s.pc, a.hasData);
    }
    TurnsVisit(s, Step(s, a), a.Device? && Step(s, a).pc.Idle?);
  }

  lemma RunStepsRemain(trace: seq<Sys>, acts: seq<Action>, k: nat)
    requires IsRun(trace, acts) && k < |trace|
    ensures trace[k].queues != [] && 1 <= StepsLeft(trace[k].pc) <= 16391
  {
    RunInv(trace, acts, k);
    CurrentInv(trace[k]);
    StepsRemain(trace[k].queues[trace[k].cur], trace[k].pc);
  }

  /** Whatever the driver does, each turn of the loop is over after at most 16391 steps of the device. */
  lemma {:induction false} TurnsEnd(trace: seq<Sys>, acts: seq<Action>, i: nat, k: nat)
    requires IsRun(trace, acts) && i <= k < |trace|
    ensures |trace[k].queues| == |trace[i].queues| > 0
    ensures DeviceSteps(acts, i, k) + StepsLeft(trace[k].pc) <= 16391 * (Turns(trace[k]) - Turns(trace[i]) + 1)
    decreases k
  {
    RunStepsRemain(trace, acts, k);
    if i == k {
    } else {
      TurnsEnd(trace, acts, i, k - 1);
      RunStepsRemain(trace, acts, k - 1);
      RunInv(trace, acts, k - 1);
      assert Move(trace, acts, k - 1);
      hide IsRun, Inv, Step, Turns;
      TurnsStep(trace[k - 1], acts[k - 1]);
    }
  }

  /** A pass under way is over after at most 16390 steps of the device. */
  lemma {:induction false} PassEnds(trace: seq<Sys>, acts: seq<Action>, i: nat, k: nat)
    requires IsRun(trace, acts) && i <= k < |trace|
    requires forall j | i <= j <= k :: !trace[j].pc.Idle?
    ensures DeviceSteps(acts, i, k) + StepsLeft(trace[k].pc) <= StepsLeft(trace[i].pc) <= 16390
    ensures DeviceSteps(acts, i, k) < 16390
    decreases k
  {
    RunStepsRemain(trace, acts, k);
    if i == k {
    } else {
      PassEnds(trace, acts, i, k - 1);
      RunInv(trace, acts, k - 1);
      assert Move(trace, acts, k - 1);
      hide IsRun, Inv, Step;
      TurnsStep(trace[k - 1], acts[k - 1]);
    }
  }

  lemma RoundsBound(n: int, p0: int, p: int, c0: int, c: int, qi: int)
    requires 0 <= c0 < n && 0 <= c < n && 0 <= qi < n
    ensures var v0, v := p0 + (if qi < c0 then 1 else 0), p + if qi < c then 1 else 0;
      (n * p + c) - (n * p0 + c0) <= n * (v - v0 + 1) - 1
  {
    var d := p - p0;
    assert n * p - n * p0 == n * d;
    assert n * (d + 1) == n * d + n && n * (d + 2) == n * d + n + n;
  }

  /** Turns of the whole loop, from the passes over one queue. */
  lemma TurnsOfPasses(trace: seq<Sys>, acts: seq<Action>, qi: nat, i: nat, k: nat)
    requires IsRun(trace, acts) && i <= k < |trace| && qi < |trace[i].queues| && |trace[i].queues| == |trace[k].queues|
    ensures Turns(trace[k]) - Turns(trace[i])
            <= |trace[i].queues| * (trace[k].queues[qi].visits - trace[i].queues[qi].visits + 1) - 1
  {
    QueuesTakeTurns(trace, acts, i);
    QueuesTakeTurns(trace, acts, k);
    var p0: nat :| RoundRobin(trace[i], p0);
    var p: nat :| RoundRobin(trace[k], p);
    var n := |trace[i].queues|;
    assert trace[i].queues[n - 1].visits == p0 && trace[k].queues[n - 1].visits == p;
    RoundsBound(n, p0, p, trace[i].cur, trace[k].cur, qi);
  }

  lemma ProductOrder(n: int, a: int, b: int)
    requires n > 0
    ensures n * a < n * b ==> a < b
  {
    if a >= b {
      assert n * a >= n * b;
    }
  }

  /** The loop comes round: `16391 * n` steps of the device are a pass over each of `n` queues. */
  lemma PassesHappen(trace: seq<Sys>, acts: seq<Action>, qi: nat, i: nat, k: nat, passes: nat)
    requires IsRun(trace, acts) && i <= k < |trace| && qi < |trace[i].queues| && qi < |trace[k].queues|
    requires DeviceSteps(acts, i, k) >= 16391 * (|trace[i].queues| * passes)
    ensures trace[k].queues[qi].visits >= trace[i].queues[qi].visits + passes
  {
    hide IsRun, Turns, StepsLeft, DeviceSteps;
    TurnsEnd(trace, acts, i, k);
    RunStepsRemain(trace, acts, k);
    TurnsOfPasses(trace, acts, qi, i, k);
    var made := trace[k].queues[qi].visits - trace[i].queues[qi].visits;
    ProductOrder(|trace[i].queues|, passes, made + 1);
  }

  /**
   Service counted in steps of the device, in a loop over any number of queues: wherever the device
   is and whatever the drivers do, a request is answered once the device has made 16391 steps for
   each queue and each pass needed.
   */
  lemma ServedWithinSteps(trace: seq<Sys>, acts: seq<Action>, qi: nat, r: nat, i: nat, k: nat)
    requires IsRun(trace, acts) && AlwaysServes(trace, acts, qi) && i <= k < |trace|
    requires qi < |trace[i].queues| && qi < |trace[k].queues|
    requires trace[i].queues[qi].served <= r < |trace[i].queues[qi].posted|
    requires var needed := PassesNeeded(trace[i], qi, r - trace[i].queues[qi].served);
      DeviceSteps(acts, i, k) >= 16391 * (|trace[i].queues| * needed)
    ensures var q := trace[k].queues[qi];
      && r < q.served && r < |q.published| <= |q.posted| && q.posted[r].chain != []
      && q.published[r].id == q.posted[r].chain[0]
  {
    hide IsRun, AlwaysServes, PassesNeeded, DeviceSteps;
    PassesHappen(trace, acts, qi, i, k, PassesNeeded(trace[i], qi, r - trace[i].queues[qi].served));
    BoundedService(trace, acts, qi, r, i, k);
  }

  // ---------------------------------------------------------------- callbacks

  /** The callback due for descriptor `k` of a request. */
  function Due(cfg: Config, descs: seq<Desc>, k: nat): (r: Callback)
    requires k < |descs|
  {
    var a := descs[k].addr - cfg.base;
    if k == |descs| - 1 then Complete(a, descs[k].len)
    else if Total(descs, k) < cfg.headerSize then Start(a, descs[k].len)
    else Data(a, descs[k].len)
  }

  /** The callbacks due for a request, one for each descriptor in order. */
  function DueAll(cfg: Config, descs: seq<Desc>): (r: seq<Callback>)
    ensures |r| == |descs| && forall k | 0 <= k < |r| :: r[k] == Due(cfg, descs, k)
  {
    seq(|descs|, k requires 0 <= k < |descs| => Due(cfg, descs, k))
  }

  lemma {:induction false} TotalMonotone(descs: seq<Desc>, i: nat, j: nat)
    requires i <= j <= |descs|
    ensures Total(descs, i) <= Total(descs, j)
    decreases j
  {
    if i == j {
    } else {
      TotalMonotone(descs, i, j - 1);
    }
  }

  /** The descriptors given to `process_queue_start` are a prefix; only the last one completes. */
  lemma StartsArePrefix(cfg: Config, descs: seq<Desc>, i: nat, j: nat)
    requires i < j < |descs|
    ensures DueAll(cfg, descs)[j].Start? ==> DueAll(cfg, descs)[i].Start?
    ensures DueAll(cfg, descs)[i].Data? ==> !DueAll(cfg, descs)[j].Start?
    ensures !DueAll(cfg, descs)[i].Complete?
    ensures DueAll(cfg, descs)[|descs| - 1].Complete?
  {
    TotalMonotone(descs, i, j);
  }

  ghost function AllDue(cfg: Config, posted: seq<Posted>, n: nat): seq<Callback>
    requires n <= |posted|
  {
    if n == 0 then [] else AllDue(cfg, posted, n - 1) + DueAll(cfg, posted[n - 1].descs)
  }

  /** Requests of queue `q` whose chain has been walked to its end. */
  function WalkedCount(q: Queue, pc: Pc): nat {
    if pc.Idle? || pc.Polled? || pc.Walking? then q.served else q.served + 1
  }

  ghost function CallsBy(cfg: Config, s: Sys, a: Action, qi: nat): seq<Callback>
    requires Enabled(s, a)
  {
    if a.Device? && s.cur == qi then Callbacks(cfg, s.queues[qi], s.pc) else []
  }

  /** All callbacks that queue `qi` has received in the first `k` steps. */
  ghost function CallsMade(cfg: Config, trace: seq<Sys>, acts: seq<Action>, qi: nat, k: nat): seq<Callback>
    requires IsRun(trace, acts) && k < |trace|
  {
    if k == 0 then []
    else
      assert Move(trace, acts, k - 1);
      CallsMade(cfg, trace, acts, qi, k - 1) + CallsBy(cfg, trace[k - 1], acts[k - 1], qi)
  }

  ghost function CallsExpected(cfg: Config, q: Queue, pc: Pc): seq<Callback>
    requires WalkedCount(q, pc) <= |q.posted|
    requires pc.Walking? ==> q.served < |q.posted| && pc.pos <= |q.posted[q.served].descs|
  {
    AllDue(cfg, q.posted, WalkedCount(q, pc)) +
    if pc.Walking? then DueAll(cfg, q.posted[q.served].descs)[..pc.pos] else []
  }

  lemma {:induction false} AllDueSnoc(cfg: Config, posted: seq<Posted>, more: seq<Posted>, n: nat)
    requires n <= |posted|
    ensures AllDue(cfg, posted + more, n) == AllDue(cfg, posted, n)
  {
    if n == 0 {
    } else {
      AllDueSnoc(cfg, posted, more, n - 1);
      assert (posted + more)[n - 1] == posted[n - 1];
    }
  }

  lemma WalkCall(cfg: Config, q: Queue, pc: Pc)
    requires QueueInv(q, pc) && pc.Walking?
    ensures var p := q.posted[q.served];
      && pc.pos < |p.descs|
      && Callbacks(cfg, q, pc) == [Due(cfg, p.descs, pc.pos)]
      && (HasNext(q.table[Slot(pc.cur)]) <==> pc.pos < |p.descs| - 1)
  {
    assert OwnedChain(q.table, q.posted[q.served]);
  }

  lemma WalkCalls(cfg: Config, q: Queue, pc: Pc, pc': Pc)
    requires QueueInv(q, pc) && QueueInv(q, pc') && pc.Walking? && pc' == DeviceStep(q, pc, true).1
    ensures CallsExpected(cfg, q, pc') == CallsExpected(cfg, q, pc) + Callbacks(cfg, q, pc)
  {
    hide Owned, Booked, AvailHolds, UsedHolds, Reported, PrefixOf;
    WalkCall(cfg, q, pc);
    var due := DueAll(cfg, q.posted[q.served].descs);
    assert due[..pc.pos + 1] == due[..pc.pos] + [due[pc.pos]];
    assert due[..|due|] == due;
  }

  lemma DeviceCalls(cfg: Config, q: Queue, pc: Pc, hasData: bool)
    requires QueueInv(q, pc)
    ensures var (q', pc') := DeviceStep(q, pc, hasData);
      QueueInv(q', pc') && CallsExpected(cfg, q', pc') == CallsExpected(cfg, q, pc) + Callbacks(cfg, q, pc)
  {
    hide Owned, Booked, AvailHolds, UsedHolds, Reported, PrefixOf;
    DeviceStepInv(q, pc, hasData);
    var (q', pc') := DeviceStep(q, pc, hasData);
    if pc.Walking? {
      WalkCalls(cfg, q, pc, pc');
    } else {
      assert q'.posted == q.posted && WalkedCount(q', pc') == WalkedCount(q, pc);
      assert pc'.Walking? ==> pc'.pos == 0;
    }
  }

  /** The callbacks expected of a queue are defined in every state that keeps its invariant. */
  lemma ExpectedDefined(q: Queue, pc: Pc)
    requires QueueInv(q, pc)
    ensures WalkedCount(q, pc) <= |q.posted|
    ensures pc.Walking? ==> q.served < |q.posted| && pc.pos < |q.posted[q.served].descs|
  {
  }

  /** Posting more requests does not change the callbacks expected so far. */
  lemma ExpectedSnoc(cfg: Config, q: Queue, q': Queue, pc: Pc, more: seq<Posted>)
    requires q'.served == q.served && q'.posted == q.posted + more && WalkedCount(q, pc) <= |q.posted|
    requires pc.Walking? ==> q.served < |q.posted| && pc.pos < |q.posted[q.served].descs|
    ensures CallsExpected(cfg, q', pc) == CallsExpected(cfg, q, pc)
  {
    AllDueSnoc(cfg, q.posted, more, WalkedCount(q, pc));
    assert pc.Walking? ==> q'.posted[q.served] == q.posted[q.served];
  }

  lemma DriverCalls(cfg: Config, q: Queue, pc: Pc, m: DriverMove)
    requires QueueInv(q, pc) && DriverReady(q, m)
    ensures QueueInv(DriverStep(q, m), pc) && CallsExpected(cfg, DriverStep(q, m), pc) == CallsExpected(cfg, q, pc)
  {
    hide QueueInv, CallsExpected;
    DriverStepInv(q, pc, m);
    ExpectedDefined(q, pc);
    var more := if m.Publish? then [Posted(q.staged, Descs(q.table, q.staged))] else [];
    assert DriverStep(q, m).posted == q.posted + more;
    ExpectedSnoc(cfg, q, DriverStep(q, m), pc, more);
  }

  /**
   In every run, the callbacks of a queue are exactly those due for its requests, request
   after request and descriptor after descriptor, with nothing skipped or repeated. With
   `DueAll` this fixes which descriptors get start, data and complete.
   */
  lemma {:induction false} CallbacksFollowChains(cfg: Config, trace: seq<Sys>, acts: seq<Action>, qi: nat, k: nat)
    requires IsRun(trace, acts) && k < |trace| && qi < |trace[k].queues|
    ensures var q, pc := trace[k].queues[qi], PcOf(trace[k], qi);
      QueueInv(q, pc) && CallsMade(cfg, trace, acts, qi, k) == CallsExpected(cfg, q, pc)
  {
    hide Owned, Booked, AvailHolds, UsedHolds, Reported, PrefixOf;
    RunQueueInv(trace, acts, k, qi);
    if k == 0 {
    } else {
      var s, a := trace[k - 1], acts[k - 1];
      assert Move(trace, acts, k - 1);
      CallbacksFollowChains(cfg, trace, acts, qi, k - 1);
      if a.Device? && s.cur == qi {
        DeviceCalls(cfg, s.queues[qi], s.pc, a.hasData);
      } else if a.Driver? && a.qi == qi {
        DriverCalls(cfg, s.queues[qi], PcOf(s, qi), a.move);
      }
    }
  }

  // ---------------------------------------------------------------- what is served, and when

  /** The device, having found a request pending on queue `qi`, is told that the queue has data. */
  predicate Takes(s: Sys, a: Action, qi: nat)
    requires qi < |s.queues|
  {
    && s.cur == qi && s.pc.Polled? && s.pc.availSeen != s.queues[qi].processed
    && a.Device? && a.hasData
  }

  /** How often that happened in the first `k` steps. */
  ghost function Taken(trace: seq<Sys>, acts: seq<Action>, qi: nat, k: nat): nat
    requires k < |trace| && k <= |acts| && forall j | 0 <= j < |trace| :: qi < |trace[j].queues|
  {
    if k == 0 then 0 else Taken(trace, acts, qi, k - 1) + if Takes(trace[k - 1], acts[k - 1], qi) then 1 else 0
  }

  /** Requests of queue `qi` that the device has begun. */
  function Begun(s: Sys, qi: nat): nat
    requires qi < |s.queues|
  {
    s.queues[qi].served + if s.cur == qi && !s.pc.Idle? && !s.pc.Polled? then 1 else 0
  }

  lemma BegunStep(s: Sys, a: Action, qi: nat)
    requires Inv(s) && Enabled(s, a) && qi < |s.queues|
    ensures qi < |Step(s, a).queues|
    ensures Begun(Step(s, a), qi) == Begun(s, qi) + if Takes(s, a, qi) then 1 else 0
  {
    hide QueueInv;
    CurrentInv(s);
  }

  lemma SameQueues(trace: seq<Sys>, acts: seq<Action>)
    requires IsRun(trace, acts)
    ensures forall j | 0 <= j < |trace| :: |trace[j].queues| == |trace[0].queues|
  {
    forall j | 0 <= j < |trace|
      ensures |trace[j].queues| == |trace[0].queues|
    {
      RunInv(trace, acts, j);
    }
  }

  /**
   In every run over any number of queues, the device begins a request exactly when it has found one
   pending and the queue has data: so often, and no more often.
   */
  lemma {:induction false} RequestsTaken(trace: seq<Sys>, acts: seq<Action>, qi: nat, k: nat)
    requires IsRun(trace, acts) && k < |trace| && qi < |trace[0].queues|
    ensures forall j | 0 <= j < |trace| :: |trace[j].queues| == |trace[0].queues|
    ensures Begun(trace[k], qi) == Taken(trace, acts, qi, k)
    ensures |trace[k].queues[qi].published| <= Taken(trace, acts, qi, k)
  {
    SameQueues(trace, acts);
    RunQueueInv(trace, acts, k, qi);
    if k == 0 {
      assert Fresh(trace[0].queues[qi]);
    } else {
      RequestsTaken(trace, acts, qi, k - 1);
      RunInv(trace, acts, k - 1);
      assert Move(trace, acts, k - 1);
      hide IsRun, Inv, Step, Takes, Begun;
      BegunStep(trace[k - 1], acts[k - 1], qi);
    }
  }

  lemma {:induction false} NothingTaken(trace: seq<Sys>, acts: seq<Action>, qi: nat, k: nat)
    requires IsRun(trace, acts) && k < |trace| && forall j | 0 <= j < |trace| :: qi < |trace[j].queues|
    requires forall j | 0 <= j < k && acts[j].Device? && trace[j].cur == qi :: !acts[j].hasData
    ensures Taken(trace, acts, qi, k) == 0
  {
    if k == 0 {
    } else {
      NothingTaken(trace, acts, qi, k - 1);
    }
  }

  /**
   While a queue reports no data, its requests wait: nothing is published, no callback is made, and
   the device does no more on it than look at the available index.
   */
  lemma NoDataNoService(cfg: Config, trace: seq<Sys>, acts: seq<Action>, qi: nat, k: nat)
    requires IsRun(trace, acts) && k < |trace| && qi < |trace[0].queues|
    requires forall j | 0 <= j < k && acts[j].Device? && trace[j].cur == qi :: !acts[j].hasData
    ensures |trace[k].queues| == |trace[0].queues|
    ensures trace[k].queues[qi].published == [] && CallsMade(cfg, trace, acts, qi, k) == []
    ensures trace[k].cur == qi ==> trace[k].pc.Idle? || trace[k].pc.Polled?
  {
    RequestsTaken(trace, acts, qi, k);
    NothingTaken(trace, acts, qi, k);
    CallbacksFollowChains(cfg, trace, acts, qi, k);
  }

  // ---------------------------------------------------------------- the device on its own

  /** `n` device steps in a row, with the driver at rest. */
  function Alone(q: Queue, pc: Pc, n: nat): (r: (Queue, Pc))
    requires |q.table| == |q.availRing| == |q.usedRing| == 16384
    decreases n
  {
    if n == 0 then (q, pc)
    else var (q', pc') := DeviceStep(q, pc, true); Alone(q', pc', n - 1)
  }

  lemma AloneStep(q: Queue, pc: Pc, n: nat)
    requires Sized(q)
    ensures var (q', pc') := DeviceStep(q, pc, true); Sized(q') && Alone(q, pc, n + 1) == Alone(q', pc', n)
    ensures Alone(q, pc, 0) == (q, pc)
  {
  }

  lemma ServedTotal(q: Queue, pc: Pc)
    requires QueueInv(q, pc) && q.served < |q.posted| && !pc.IdxWritten?
    ensures var p := q.posted[q.served];
      p.chain != [] && p.chain[0] < 16384 && |p.descs| == |p.chain| && Total(p.descs, |p.descs|) < 0x1_0000_0000_0000
  {
    assert OwnedChain(q.table, q.posted[q.served]);
    ChainBytes(q.table, q.posted[q.served].chain, |q.posted[q.served].chain|);
  }

  /** From descriptor `pos` on, the walk takes one step a descriptor. */
  lemma {:induction false} WalkAlone(q: Queue, pc: Pc, n: nat)
    requires QueueInv(q, pc) && pc.Walking?
    ensures var p := q.posted[q.served];
      && pc.pos < |p.descs| && p.chain != [] && p.chain[0] < 16384 && Total(p.descs, |p.descs|) < 0x1_0000_0000_0000
      && Alone(q, pc, |p.descs| - pc.pos + n) == Alone(q, Walked(p.chain[0], Total(p.descs, |p.descs|)), n)
    decreases |q.posted[q.served].descs| - pc.pos
  {
    hide Owned, Booked, AvailHolds, UsedHolds, Reported, PrefixOf;
    var pc' := DeviceStep(q, pc, true).1;
    WalkStepInv(q, pc);
    WalkCall(Config(0, 0), q, pc);
    ServedTotal(q, pc);
    AloneStep(q, pc, |q.posted[q.served].descs| - pc.pos + n - 1);
    if !pc'.Walking? {
    } else {
      WalkAlone(q, pc', n);
    }
  }

  /** The five steps that publish a walked chain and finish the pass. */
  lemma PublishAlone(q: Queue, first: u16, bytes: u64)
    requires Sized(q)
    ensures var (q', pc') := Alone(q, Walked(first, bytes), 5);
      && pc' == Idle
      && q'.usedRing == q.usedRing[Slot(q.usedIdx) := UsedElem(first, Wrap32(bytes))]
      && q'.usedIdx == Wrap16(q.usedIdx as int + 1) && q'.processed == Wrap16(q.processed as int + 1)
  {
    hide Alone;
    var (q1, pc1) := DeviceStep(q, Walked(first, bytes), true);
    AloneStep(q, Walked(first, bytes), 4);
    var (q2, pc2) := DeviceStep(q1, pc1, true);
    AloneStep(q1, pc1, 3);
    var (q3, pc3) := DeviceStep(q2, pc2, true);
    AloneStep(q2, pc2, 2);
    var (q4, pc4) := DeviceStep(q3, pc3, true);
    AloneStep(q3, pc3, 1);
    AloneStep(q4, pc4, 0);
    var (q5, pc5) := DeviceStep(q4, pc4, true);
    AloneStep(q5, pc5, 0);
    assert q2.usedRing == q.usedRing[Slot(q.usedIdx) := q.usedRing[Slot(q.usedIdx)].(id := first)];
    assert q3.usedRing == q.usedRing[Slot(q.usedIdx) := UsedElem(first, Wrap32(bytes))];
  }

  /** The two steps that find a pending request and fetch its head. */
  lemma FetchAlone(q: Queue, n: nat) returns (pc: Pc)
    requires QueueInv(q, Idle) && q.served < |q.posted|
    ensures pc.Walking? && pc.pos == 0 && QueueInv(q, pc) && Sized(q) && Alone(q, Idle, n + 2) == Alone(q, pc, n)
  {
    var pc1 := DeviceStep(q, Idle, true).1;
    FetchInv(q, Idle, true);
    pc := DeviceStep(q, pc1, true).1;
    FetchInv(q, pc1, true);
    assert q.processed != q.availIdx by {
      OutstandingBound(q.table, q.posted, |q.collected|, q.staged);
      WrappedEqual(q.served, |q.posted|);
    }
    hide QueueInv;
    AloneStep(q, Idle, n + 1);
    AloneStep(q, pc1, n);
  }

  /**
   Left alone with a pending request, the device loop's steps amount to one pass as sequential
   code: the used entry, both indices and nothing else of the ring changed. They are two to look
   and fetch, one for each descriptor, and five to publish.
   */
  lemma PassAlone(q: Queue)
    requires QueueInv(q, Idle) && q.served < |q.posted|
    ensures var p := q.posted[q.served];
      && p.chain != [] && p.chain[0] < 16384
      && var (q', pc') := Alone(q, Idle, |p.descs| + 7);
      && pc' == Idle
      && q'.usedRing == q.usedRing[Slot(q.usedIdx) := Report(p)]
      && q'.usedIdx == Wrap16(q.usedIdx as int + 1) && q'.processed == Wrap16(q.processed as int + 1)
  {
    hide QueueInv, Alone, Total, DeviceStep;
    var p := q.posted[q.served];
    ServedTotal(q, Idle);
    var pc := FetchAlone(q, |p.descs| + 5);
    WalkAlone(q, pc, 5);
    PublishAlone(q, p.chain[0], Total(p.descs, |p.descs|));
  }
}

/**
 The generation handshake of `device_setup`: the driver sets registers, bumps `sel_generation`
 and waits for it to move; the device, polling, answers and bumps it again. One step is one
 poll, or one group of registers that only one side touches at that point.
 */
module Setup {
  import opened Words

  /** A queue's three 64-bit addresses, which the driver writes as high and low halves. */
  datatype Addresses = Addresses(desc: u64, avail: u64, used: u64)

  datatype Request =
    | Features(deviceSel: nat, driverSel: nat)
    | QueueAt(queue: nat, addresses: Addresses)

  /** The registers of the virtio-mmio block that the handshake uses. */
  datatype Registers = Registers(
    generation: u32,
    deviceSel: nat, driverSel: nat, deviceFeatures: u32, driverFeatures: u32,
    featuresOk: bool,
    queueSelect: nat, high: seq<u32>, low: seq<u32>)   // halves of desc, avail, used

  /** Where the device is: in the feature loop, in the queue loop, or past both. */
  datatype Device =
    | FeaturePoll
    | FeatureAnswer(cur: u32)
    | FeatureReply(cur: u32)
    | FeatureCheck
    | QueuePoll
    | QueueAnswer(cur: u32)
    | QueueReply(cur: u32, sel: nat)
    | Done

  datatype Driver =
    | Choosing
    | Selected(r: Request)
    | Loaded(r: Request, seenGen: u32)
    | Waiting(r: Request, bumped: u32)

  /**
   `prev` is the device's `prev_sel_generation`; `tables` its address vectors. `asked` and
   `answered` count bumps and answers, `words` is what the driver read back for its feature
   requests, `lost` counts queue requests that the feature loop answered.
   */
  datatype Sys = Sys(
    reg: Registers, device: Device, prev: u32, tables: seq<Addresses>,
    driver: Driver, nextQueue: nat, posted: seq<Addresses>,
    asked: nat, answered: nat, lost: nat,
    wanted: seq<(u32, u32)>, words: seq<(u32, u32)>)

  /** The device's feature words, two of each. */
  datatype Offer = Offer(device: seq<u32>, driver: seq<u32>)

  datatype Action =
    | DeviceStep
    | SelectFeatures(deviceSel: nat, driverSel: nat)
    | SelectQueue(addresses: Addresses)
    | LoadGeneration
    | Bump
    | PollGeneration
    | SetFeaturesOk

  function High(a: u64): u32 { a / 0x1_0000_0000 }

  function Low(a: u64): u32 { a % 0x1_0000_0000 }

  /** `((uint64_t)(high) << 32) | (low)` */
  function Join(high: u32, low: u32): u64 {
    var h: int, l: int := high, low;
    h * 0x1_0000_0000 + l
  }

  /** The high half is the upper 32 bits of an address, the low half the others. */
  lemma JoinHalves(high: u32, low: u32)
    ensures Join(high, low) as int / 0x1_0000_0000 == high && Join(high, low) as int % 0x1_0000_0000 == low
  {
  }

  predicate Enabled(o: Offer, s: Sys, a: Action) {
    && |o.device| == |o.driver| == 2 && |s.reg.high| == |s.reg.low| == 3
    && match a
       case DeviceStep =>
         && (s.device.FeatureAnswer? ==> s.reg.deviceSel < 2 && s.reg.driverSel < 2)
         && (s.device.QueueAnswer? ==> s.reg.queueSelect < |s.tables|)
         && (s.device.QueueReply? ==> s.device.sel < |s.tables|)
       case SelectFeatures(d, r) => s.driver.Choosing? && !s.reg.featuresOk && d < 2 && r < 2
       case SelectQueue(_) => s.driver.Choosing? && s.reg.featuresOk && s.nextQueue < |s.tables|
       case LoadGeneration => s.driver.Selected?
       case Bump => s.driver.Loaded?
       case PollGeneration => s.driver.Waiting?
       case SetFeaturesOk => s.driver.Choosing?
  }

  function DeviceMove(o: Offer, s: Sys): Sys
    requires Enabled(o, s, DeviceStep)
  {
    match s.device
    case FeaturePoll =>
      s.(device := if s.reg.generation != s.prev then FeatureAnswer(s.reg.generation) else FeatureCheck)
    case FeatureAnswer(cur) =>
      s.(reg := s.reg.(deviceFeatures := o.device[s.reg.deviceSel], driverFeatures := o.driver[s.reg.driverSel]),
         device := FeatureReply(cur))
    case FeatureReply(cur) =>
      s.(reg := s.reg.(generation := Wrap32(cur + 1)), prev := Wrap32(cur + 1), device := FeatureCheck,
         answered := s.answered + 1,
         lost := if s.driver.Waiting? && s.driver.r.QueueAt? then s.lost + 1 else s.lost)
    case FeatureCheck => s.(device := if s.reg.featuresOk then QueuePoll else FeaturePoll)
    case QueuePoll => s.(device := if s.reg.generation != s.prev then QueueAnswer(s.reg.generation) else QueuePoll)
    case QueueAnswer(cur) =>
      var high, low := s.reg.high, s.reg.low;
      var a := Addresses(Join(high[0], low[0]), Join(high[1], low[1]), Join(high[2], low[2]));
      s.(tables := s.tables[s.reg.queueSelect := a], device := QueueReply(cur, s.reg.queueSelect))
    case QueueReply(cur, sel) =>
      s.(reg := s.reg.(generation := Wrap32(cur + 1)), prev := Wrap32(cur + 1), answered := s.answered + 1,
         device := if sel == |s.tables| - 1 then Done else QueuePoll)
    case Done => s
  }

  function Step(o: Offer, s: Sys, a: Action): Sys
    requires Enabled(o, s, a)
  {
    match a
    case DeviceStep => DeviceMove(o, s)
    case SelectFeatures(d, r) =>
      s.(reg := s.reg.(deviceSel := d, driverSel := r), driver := Selected(Features(d, r)))
    case SelectQueue(a) =>
      s.(reg := s.reg.(queueSelect := s.nextQueue, high := [High(a.desc), High(a.avail), High(a.used)],
                       low := [Low(a.desc), Low(a.avail), Low(a.used)]),
         driver := Selected(QueueAt(s.nextQueue, a)), posted := s.posted + [a])
    case LoadGeneration => s.(driver := Loaded(s.driver.r, s.reg.generation))
    case Bump =>
      var g := Wrap32(s.driver.seenGen + 1);
      var w := if s.driver.r.Features? && s.driver.r.deviceSel < 2 && s.driver.r.driverSel < 2
               then s.wanted + [(o.device[s.driver.r.deviceSel], o.driver[s.driver.r.driverSel])] else s.wanted;
      s.(reg := s.reg.(generation := g), driver := Waiting(s.driver.r, g), asked := s.asked + 1, wanted := w)
    case PollGeneration =>
      if s.reg.generation == s.driver.bumped then s
      else if s.driver.r.Features? then
        s.(driver := Choosing, words := s.words + [(s.reg.deviceFeatures, s.reg.driverFeatures)])
      else s.(driver := Choosing, nextQueue := s.nextQueue + 1)
    case SetFeaturesOk => s.(reg := s.reg.(featuresOk := true))
  }

  const ZERO: Addresses := Addresses(0, 0, 0)

  predicate Initial(s: Sys) {
    && s.reg.generation == s.prev == 0 && !s.reg.featuresOk && |s.reg.high| == |s.reg.low| == 3
    && s.reg.deviceSel < 2 && s.reg.driverSel < 2
    && s.device.FeaturePoll? && s.driver.Choosing?
    && |s.tables| > 0 && (forall q | 0 <= q < |s.tables| :: s.tables[q] == ZERO)
    && s.nextQueue == s.asked == s.answered == s.lost == 0 && s.posted == [] && s.wanted == s.words == []
  }

  predicate Move(o: Offer, trace: seq<Sys>, acts: seq<Action>, k: nat)
    requires k < |acts| && |trace| == |acts| + 1
  {
    Enabled(o, trace[k], acts[k]) && trace[k + 1] == Step(o, trace[k], acts[k])
  }

  predicate IsRun(o: Offer, trace: seq<Sys>, acts: seq<Action>) {
    && |o.device| == |o.driver| == 2 && |trace| == |acts| + 1 && Initial(trace[0])
    && forall k | 0 <= k < |acts| :: Move(o, trace, acts, k)
  }

  // ---------------------------------------------------------------- invariant

  /** The device is part way through an answer. */
  predicate Busy(d: Device) {
    d.FeatureAnswer? || d.FeatureReply? || d.QueueAnswer? || d.QueueReply?
  }

  predicate InQueueLoop(d: Device) { d.QueuePoll? || d.QueueAnswer? || d.QueueReply? || d.Done? }

  /** Bumps and answers alternate, and the generation counts both. */
  ghost predicate Turns(s: Sys) {
    && s.answered <= s.asked <= s.answered + 1
    && s.reg.generation == Wrap32(s.asked + s.answered)
    && s.prev == Wrap32(2 * s.answered)
    && (s.asked > s.answered ==> s.driver.Waiting?)
    && (Busy(s.device) ==> s.asked > s.answered && s.device.cur == s.reg.generation)
    && (s.driver.Loaded? ==> s.driver.seenGen == s.reg.generation)
    && (s.driver.Waiting? ==> s.driver.bumped == Wrap32(2 * s.asked - 1) && s.asked > 0)
    && (s.device.Done? ==> s.asked == s.answered)
  }

  /** The registers hold the request that the driver is making. */
  ghost predicate Made(o: Offer, s: Sys) {
    && |o.device| == |o.driver| == 2 && |s.reg.high| == |s.reg.low| == 3
    && s.reg.deviceSel < 2 && s.reg.driverSel < 2
    && (!s.driver.Choosing? ==>
          match s.driver.r
          case Features(d, r) => d == s.reg.deviceSel && r == s.reg.driverSel
          case QueueAt(q, a) =>
            && q == s.reg.queueSelect == s.nextQueue < |s.tables| && s.reg.featuresOk
            && |s.posted| == s.nextQueue + 1 && s.posted[s.nextQueue] == a
            && s.reg.high == [High(a.desc), High(a.avail), High(a.used)]
            && s.reg.low == [Low(a.desc), Low(a.avail), Low(a.used)])
    && (s.driver.Choosing? || s.driver.r.Features? ==> |s.posted| == s.nextQueue)
    && (InQueueLoop(s.device) ==> s.reg.featuresOk)
    && (s.reg.featuresOk && !s.driver.Choosing? ==> s.driver.r.QueueAt?)
  }

  /** Queue requests answered so far, in whichever loop. */
  function QueuesAnswered(s: Sys): nat {
    s.nextQueue + if s.driver.Waiting? && s.driver.r.QueueAt? && s.asked == s.answered then 1 else 0
  }

  /** Queue requests that the feature loop answered left no trace; the others are stored. */
  ghost predicate Stored(s: Sys) {
    var m := QueuesAnswered(s);
    && s.lost <= m <= |s.tables| && m <= |s.posted|
    && (!InQueueLoop(s.device) ==> s.lost == m)
    && (s.device.QueueReply? ==> s.device.sel == m < |s.posted| && m < |s.tables|)
    && (s.device.Done? ==> s.lost < m == |s.tables|)
    && (forall q | 0 <= q < |s.tables| ::
          s.tables[q] == if s.lost <= q < m || (s.device.QueueReply? && q == m) then s.posted[q] else ZERO)
  }

  /** Feature requests read back the words they selected. */
  ghost predicate Worded(o: Offer, s: Sys)
    requires |o.device| == |o.driver| == 2
  {
    && |s.wanted| == |s.words| + (if s.driver.Waiting? && s.driver.r.Features? then 1 else 0)
    && (forall i | 0 <= i < |s.words| :: s.words[i] == s.wanted[i])
    && (s.driver.Waiting? && s.driver.r.Features? ==>
          && s.driver.r.deviceSel < 2 && s.driver.r.driverSel < 2
          && var w := (o.device[s.driver.r.deviceSel], o.driver[s.driver.r.driverSel]);
          && s.wanted[|s.words|] == w
          && (s.asked == s.answered || s.device.FeatureReply? ==> w == (s.reg.deviceFeatures, s.reg.driverFeatures)))
  }

  ghost predicate Inv(o: Offer, s: Sys) {
    Turns(s) && Made(o, s) && Stored(s) && Worded(o, s)
  }

  lemma WrapSuccessor(n: nat)
    ensures Wrap32(n + 1) == if Wrap32(n) == 0xFFFF_FFFF then 0 else Wrap32(n) + 1 as int
  {
  }

  lemma WrapTwice(n: nat)
    ensures Wrap32(Wrap32(n) as int + 1) == Wrap32(n + 1)
  {
  }

  /** The generations that can meet in a comparison differ whenever their counts do. */
  lemma WrapApart(n: nat)
    ensures Wrap32(2 * n) != Wrap32(2 * n + 1) && Wrap32(2 * n + 1) != Wrap32(2 * n + 2)
    ensures Wrap32(Wrap32(n) as int + 1) == Wrap32(n + 1)
  {
    WrapSuccessor(n);
    WrapSuccessor(2 * n);
    WrapSuccessor(2 * n + 1);
    hide Wrap32;
    assert Wrap32(Wrap32(n) as int + 1) == Wrap32(n + 1) by { WrapTwice(n); }
  }

  lemma TurnsStep(o: Offer, s: Sys, a: Action)
    requires Inv(o, s) && Enabled(o, s, a)
    ensures Turns(Step(o, s, a))
  {
    hide Wrap32, Worded;
    var n := s.answered;
    WrapApart(n);
    WrapTwice(2 * n);
    WrapTwice(2 * n + 1);
    assert s.asked + s.answered == (if s.asked == n then 2 * n else 2 * n + 1);
    assert s.asked == n ==> 2 * (s.asked + 1) - 1 == 2 * n + 1;
    assert s.asked == n + 1 ==> 2 * s.asked - 1 == 2 * n + 1;
    assert 2 * (n + 1) == 2 * n + 2;
  }

  lemma MadeStep(o: Offer, s: Sys, a: Action)
    requires Inv(o, s) && Enabled(o, s, a)
    ensures Made(o, Step(o, s, a))
  {
    hide Wrap32, Worded, Stored;
  }

  lemma JoinSplit(a: u64)
    ensures Join(High(a), Low(a)) == a
  {
  }

  lemma StoredStep(o: Offer, s: Sys, a: Action)
    requires Inv(o, s) && Enabled(o, s, a)
    ensures Stored(Step(o, s, a))
  {
    WrapApart(s.answered);
    WrapApart(s.asked);
    hide Wrap32, Join, High, Low, Worded;
    if s.device.QueueAnswer? {
      var a := s.posted[s.nextQueue];
      JoinSplit(a.desc);
      JoinSplit(a.avail);
      JoinSplit(a.used);
    }
  }

  lemma WordedStep(o: Offer, s: Sys, a: Action)
    requires Inv(o, s) && Enabled(o, s, a)
    ensures Worded(o, Step(o, s, a))
  {
    WrapApart(s.answered);
    WrapApart(s.asked);
    hide Wrap32, Stored;
  }

  lemma TablesKept(o: Offer, s: Sys, a: Action)
    requires Enabled(o, s, a)
    ensures |Step(o, s, a).tables| == |s.tables|
  {
  }

  lemma InitialInv(o: Offer, s: Sys)
    requires Initial(s) && |o.device| == |o.driver| == 2
    ensures Inv(o, s)
  {
  }

  lemma {:induction false} RunInv(o: Offer, trace: seq<Sys>, acts: seq<Action>, k: nat)
    requires IsRun(o, trace, acts) && k < |trace|
    ensures Inv(o, trace[k]) && |trace[k].tables| == |trace[0].tables|
  {
    InitialInv(o, trace[0]);
    if k == 0 {
    } else {
      RunInv(o, trace, acts, k - 1);
      assert Move(o, trace, acts, k - 1);
      hide IsRun, Turns, Made, Stored, Worded;
      TablesKept(o, trace[k - 1], acts[k - 1]);
      TurnsStep(o, trace[k - 1], acts[k - 1]);
      MadeStep(o, trace[k - 1], acts[k - 1]);
      StoredStep(o, trace[k - 1], acts[k - 1]);
      WordedStep(o, trace[k - 1], acts[k - 1]);
    }
  }

  // ---------------------------------------------------------------- theorems

  /**
   Every request is answered once, in turn: answers never run ahead of bumps, the device works on
   an answer only while a bump is unanswered, so never on its own; and the feature words that
   the driver reads back are those its selectors asked for, request by request.
   */
  lemma FeaturesAnsweredOnce(o: Offer, trace: seq<Sys>, acts: seq<Action>, k: nat)
    requires IsRun(o, trace, acts) && k < |trace|
    ensures var s := trace[k];
      && s.answered <= s.asked <= s.answered + 1
      && (Busy(s.device) ==> s.asked == s.answered + 1)
      && s.words <= s.wanted && |s.wanted| <= |s.words| + 1
  {
    RunInv(o, trace, acts, k);
  }

  // ---------------------------------------------------------------- every request is answered, and soon

  /** Device steps among the actions from `i` to `k`. */
  function DeviceSteps(acts: seq<Action>, i: nat, k: nat): nat
    requires i <= k <= |acts|
    decreases k - i
  {
    if i == k then 0 else DeviceSteps(acts, i, k - 1) + if acts[k - 1].DeviceStep? then 1 else 0
  }

  /** Device steps until a request that is waiting has been answered, in either loop. */
  function ToAnswer(d: Device): nat {
    match d
    case FeatureCheck => 4
    case FeaturePoll => 3
    case FeatureAnswer(_) => 2
    case FeatureReply(_) => 1
    case QueuePoll => 3
    case QueueAnswer(_) => 2
    case QueueReply(_, _) => 1
    case Done => 0
  }

  lemma AnswerNearer(o: Offer, s: Sys, a: Action)
    requires Inv(o, s) && Enabled(o, s, a) && s.asked > s.answered && s.driver.Waiting?
    ensures var s' := Step(o, s, a);
      && s'.asked == s.asked && ToAnswer(s.device) >= 1
      && (a.DeviceStep? ==> s'.asked == s'.answered || ToAnswer(s'.device) + 1 <= ToAnswer(s.device))
      && (!a.DeviceStep? ==> s'.device == s.device)
  {
    WrapApart(s.answered);
    hide Wrap32, Worded, Stored, Made;
  }

  lemma AnswerStands(o: Offer, s: Sys, a: Action)
    requires Inv(o, s) && Enabled(o, s, a) && s.asked <= s.answered && s.driver.Waiting?
    ensures Step(o, s, a).asked == Step(o, s, a).answered == s.asked
  {
    WrapApart(s.answered);
    hide Wrap32, Worded, Stored, Made;
  }

  /** While the driver waits, its request is answered, or the device has come nearer to that with every step. */
  lemma {:induction false} Nearing(o: Offer, trace: seq<Sys>, acts: seq<Action>, i: nat, k: nat)
    requires IsRun(o, trace, acts) && i <= k < |trace|
    requires forall j | i <= j <= k :: trace[j].driver.Waiting?
    ensures trace[k].asked == trace[i].asked
    ensures trace[k].asked == trace[k].answered
            || DeviceSteps(acts, i, k) + ToAnswer(trace[k].device) <= ToAnswer(trace[i].device)
    decreases k
  {
    if i == k {
    } else {
      Nearing(o, trace, acts, i, k - 1);
      RunInv(o, trace, acts, k - 1);
      RunInv(o, trace, acts, k);
      assert Move(o, trace, acts, k - 1);
      hide IsRun, Inv, ToAnswer;
      if trace[k - 1].asked > trace[k - 1].answered {
        AnswerNearer(o, trace[k - 1], acts[k - 1]);
      } else {
        AnswerStands(o, trace[k - 1], acts[k - 1]);
      }
    }
  }

  lemma WaitOver(o: Offer, s: Sys)
    requires Inv(o, s) && s.driver.Waiting? && s.answered == s.asked
    ensures s.reg.generation != s.driver.bumped
    ensures s.driver.r.Features? ==>
      && s.driver.r.deviceSel < 2 && s.driver.r.driverSel < 2
      && s.reg.deviceFeatures == o.device[s.driver.r.deviceSel]
      && s.reg.driverFeatures == o.driver[s.driver.r.driverSel]
  {
    var n := s.asked;
    WrapApart(n - 1);
    assert 2 * (n - 1) + 1 == 2 * n - 1 && 2 * (n - 1) + 2 == n + n;
    hide Wrap32, Stored, Made;
  }

  /**
   A driver that has bumped the generation and waits is answered within four steps of the device,
   in either loop, before FEATURES_OK and after. Its next look at the generation then ends the
   wait, and if it asked for feature words it has read the ones its selectors named.
   */
  lemma AnsweredWithinFour(o: Offer, trace: seq<Sys>, acts: seq<Action>, i: nat, k: nat)
    requires IsRun(o, trace, acts) && i <= k < |trace|
    requires forall j | i <= j <= k :: trace[j].driver.Waiting?
    requires DeviceSteps(acts, i, k) >= 4
    ensures trace[k].answered == trace[k].asked && trace[k].reg.generation != trace[k].driver.bumped
    ensures k < |acts| && acts[k].PollGeneration? ==>
      && trace[k + 1].driver.Choosing?
      && var r := trace[k].driver.r;
      if r.Features? then
        && r.deviceSel < 2 && r.driverSel < 2
        && trace[k + 1].words == trace[k].words + [(o.device[r.deviceSel], o.driver[r.driverSel])]
      else trace[k + 1].nextQueue == trace[k].nextQueue + 1
  {
    Nearing(o, trace, acts, i, k);
    RunInv(o, trace, acts, i);
    RunInv(o, trace, acts, k);
    assert ToAnswer(trace[i].device) <= 4;
    if k < |acts| {
      assert Move(o, trace, acts, k);
    }
    hide IsRun;
    WaitOver(o, trace[k]);
  }

  /** Device steps until it has left the feature loop. */
  function ToLeave(d: Device): nat {
    match d
    case FeaturePoll => 4
    case FeatureAnswer(_) => 3
    case FeatureReply(_) => 2
    case FeatureCheck => 1
    case _ => 0
  }

  lemma LeavingNearer(o: Offer, s: Sys, a: Action)
    requires Enabled(o, s, a) && s.reg.featuresOk
    ensures var s' := Step(o, s, a);
      && s'.reg.featuresOk
      && (ToLeave(s.device) == 0 <==> InQueueLoop(s.device))
      && (InQueueLoop(s.device) ==> InQueueLoop(s'.device))
      && (a.DeviceStep? && !InQueueLoop(s.device) ==> ToLeave(s'.device) + 1 <= ToLeave(s.device))
      && (!a.DeviceStep? ==> s'.device == s.device)
  {
  }

  /** Once FEATURES_OK is set, the device is in the queue loop, or past it, within four of its steps. */
  lemma {:induction false} FeatureLoopEnds(o: Offer, trace: seq<Sys>, acts: seq<Action>, i: nat, k: nat)
    requires IsRun(o, trace, acts) && i <= k < |trace| && trace[i].reg.featuresOk
    ensures trace[k].reg.featuresOk
    ensures InQueueLoop(trace[k].device)
            || DeviceSteps(acts, i, k) + ToLeave(trace[k].device) <= ToLeave(trace[i].device)
    ensures DeviceSteps(acts, i, k) >= 4 ==> InQueueLoop(trace[k].device)
    decreases k
  {
    if i == k {
    } else {
      FeatureLoopEnds(o, trace, acts, i, k - 1);
      assert Move(o, trace, acts, k - 1);
      LeavingNearer(o, trace[k - 1], acts[k - 1]);
    }
  }

  lemma EndStep(o: Offer, s: Sys, a: Action)
    requires Inv(o, s) && Enabled(o, s, a) && Inv(o, Step(o, s, a))
    requires s.device.Done? <==> s.lost < QueuesAnswered(s) == |s.tables|
    ensures var s' := Step(o, s, a); s'.device.Done? <==> s'.lost < QueuesAnswered(s') == |s'.tables|
  {
    WrapApart(s.answered);
    WrapApart(s.asked);
    hide Wrap32, Worded, Join, High, Low;
  }

  /**
   The device is past the queue loop exactly when all queues have been answered and the last of them
   in that loop.
   */
  lemma {:induction false} QueueLoopEnds(o: Offer, trace: seq<Sys>, acts: seq<Action>, k: nat)
    requires IsRun(o, trace, acts) && k < |trace|
    ensures var s := trace[k]; s.device.Done? <==> s.lost < QueuesAnswered(s) == |s.tables|
  {
    if k == 0 {
    } else {
      QueueLoopEnds(o, trace, acts, k - 1);
      RunInv(o, trace, acts, k - 1);
      RunInv(o, trace, acts, k);
      assert Move(o, trace, acts, k - 1);
      hide IsRun;
      EndStep(o, trace[k - 1], acts[k - 1]);
    }
  }

  // ---------------------------------------------------------------- queues that are lost

  /** The driver bumps the generation for a queue while the device is about to poll in the feature loop. */
  ghost predicate EarlyAt(s: Sys, a: Action) {
    a.Bump? && s.driver.Loaded? && s.driver.r.QueueAt? && s.device.FeaturePoll?
  }

  /** Some bump among the first `k` steps was early. */
  ghost predicate EarlyBump(trace: seq<Sys>, acts: seq<Action>, k: nat)
    requires k <= |acts| && k <= |trace|
  {
    exists i :: 0 <= i < k && EarlyAt(trace[i], acts[i])
  }

  /** A queue request is in the feature loop's hands: lost already, or about to be. */
  ghost predicate Doomed(s: Sys) {
    || s.lost > 0
    || (&& s.driver.Waiting? && s.driver.r.QueueAt? && s.asked > s.answered
        && (s.device.FeaturePoll? || s.device.FeatureAnswer? || s.device.FeatureReply?))
  }

  lemma DoomedStep(o: Offer, s: Sys, a: Action)
    requires Inv(o, s) && Enabled(o, s, a)
    ensures Doomed(Step(o, s, a)) <==> Doomed(s) || EarlyAt(s, a)
  {
    WrapApart(s.answered);
    hide Wrap32, Worded;
  }

  lemma {:induction false} DoomedIffEarly(o: Offer, trace: seq<Sys>, acts: seq<Action>, k: nat)
    requires IsRun(o, trace, acts) && k < |trace|
    ensures Doomed(trace[k]) <==> EarlyBump(trace, acts, k)
  {
    if k == 0 {
    } else {
      DoomedIffEarly(o, trace, acts, k - 1);
      RunInv(o, trace, acts, k - 1);
      assert Move(o, trace, acts, k - 1);
      hide IsRun, Inv, Doomed, EarlyAt;
      DoomedStep(o, trace[k - 1], acts[k - 1]);
      if EarlyBump(trace, acts, k) {
        var i :| 0 <= i < k && EarlyAt(trace[i], acts[i]);
        assert i == k - 1 || EarlyBump(trace, acts, k - 1);
      }
    }
  }

  /**
   When the device leaves the queue loop by itself, every queue whose request the queue loop
   answered has the addresses posted for it, and the queues whose requests the feature loop
   answered, the first `lost` of them and never all, have none.
   */
  lemma AddressesStored(o: Offer, trace: seq<Sys>, acts: seq<Action>, k: nat)
    requires IsRun(o, trace, acts) && k < |trace| && trace[k].device.Done?
    ensures var s := trace[k];
      && s.lost < |s.tables| == |s.posted| == |trace[0].tables|
      && forall q | 0 <= q < |s.tables| :: s.tables[q] == if q < s.lost then ZERO else s.posted[q]
  {
    RunInv(o, trace, acts, k);
  }

  /**
   All queues are set up right exactly when the driver made no queue bump while the device was
   about to poll in the feature loop.
   */
  lemma SetupRightIff(o: Offer, trace: seq<Sys>, acts: seq<Action>, k: nat)
    requires IsRun(o, trace, acts) && k < |trace| && trace[k].device.Done?
    requires forall q | 0 <= q < |trace[k].posted| :: trace[k].posted[q] != ZERO
    ensures trace[k].tables == trace[k].posted <==> !EarlyBump(trace, acts, k)
  {
    AddressesStored(o, trace, acts, k);
    DoomedIffEarly(o, trace, acts, k);
    var s := trace[k];
    if s.lost > 0 {
      assert s.tables[0] == ZERO && s.posted[0] != ZERO;
    }
  }

  /** A device with one queue whose request comes early never leaves the queue loop. */
  lemma OnlyQueueLost(o: Offer, trace: seq<Sys>, acts: seq<Action>, k: nat)
    requires IsRun(o, trace, acts) && k < |trace| && |trace[0].tables| == 1 && EarlyBump(trace, acts, k)
    ensures !trace[k].device.Done?
  {
    DoomedIffEarly(o, trace, acts, k);
    if trace[k].device.Done? {
      AddressesStored(o, trace, acts, k);
    }
  }

  ghost predicate PatientAt(s: Sys, a: Action) {
    a.Bump? && s.driver.Loaded? && s.driver.r.QueueAt? ==> InQueueLoop(s.device)
  }

  /** A driver that posts a queue only once the device is out of the feature loop. */
  ghost predicate Patient(trace: seq<Sys>, acts: seq<Action>) {
    forall k | 0 <= k < |acts| && k < |trace| :: PatientAt(trace[k], acts[k])
  }

  /** With such a driver no queue request is lost. */
  lemma {:induction false} PatientLosesNothing(o: Offer, trace: seq<Sys>, acts: seq<Action>, k: nat)
    requires IsRun(o, trace, acts) && Patient(trace, acts) && k < |trace|
    ensures var s := trace[k];
      s.lost == 0 && (s.driver.Waiting? && s.driver.r.QueueAt? ==> InQueueLoop(s.device))
  {
    if k == 0 {
    } else {
      PatientLosesNothing(o, trace, acts, k - 1);
      assert Move(o, trace, acts, k - 1) && PatientAt(trace[k - 1], acts[k - 1]);
    }
  }

  /** Such a driver is never early, so leaving the queue loop means every queue has its addresses. */
  lemma PatientDriverSetsUpAll(o: Offer, trace: seq<Sys>, acts: seq<Action>, k: nat)
    requires IsRun(o, trace, acts) && Patient(trace, acts) && k < |trace| && trace[k].device.Done?
    ensures trace[k].tables == trace[k].posted && |trace[k].posted| == |trace[0].tables|
  {
    PatientLosesNothing(o, trace, acts, k);
    AddressesStored(o, trace, acts, k);
  }

  lemma Extend(o: Offer, trace: seq<Sys>, acts: seq<Action>, a: Action) returns (trace': seq<Sys>, acts': seq<Action>)
    requires IsRun(o, trace, acts) && |trace| == |acts| + 1 && Enabled(o, trace[|acts|], a)
    ensures IsRun(o, trace', acts') && |trace'| == |acts'| + 1
    ensures trace'[0] == trace[0] && trace'[|acts'|] == Step(o, trace[|acts|], a)
  {
    trace', acts' := trace + [Step(o, trace[|acts|], a)], acts + [a];
    forall k | 0 <= k < |acts'|
      ensures Move(o, trace', acts', k)
    {
      assert k < |acts| ==> Move(o, trace, acts, k);
    }
  }

  lemma OneState(o: Offer, s0: Sys) returns (trace: seq<Sys>, acts: seq<Action>)
    requires |o.device| == |o.driver| == 2 && Initial(s0)
    ensures IsRun(o, trace, acts) && |trace| == |acts| + 1 && trace[0] == trace[|acts|] == s0
  {
    trace, acts := [s0], [];
  }

  /** The first queue's request, posted right after FEATURES_OK, is taken for a feature request. */
  lemma FirstLost(o: Offer, s0: Sys, first: Addresses) returns (trace: seq<Sys>, acts: seq<Action>)
    requires |o.device| == |o.driver| == 2 && Initial(s0) && |s0.tables| == 2
    ensures IsRun(o, trace, acts) && |trace| == |acts| + 1 && trace[0] == s0
    ensures var s := trace[|acts|];
      && s.device == FeatureCheck && s.driver == Choosing && s.reg.featuresOk && s.reg.generation == s.prev == 2
      && s.nextQueue == 1 && s.posted == [first] && s.tables == [ZERO, ZERO] && s.lost == 1
      && |s.reg.high| == |s.reg.low| == 3
  {
    hide IsRun;
    trace, acts := OneState(o, s0);
    trace, acts := Extend(o, trace, acts, SetFeaturesOk);
    trace, acts := Extend(o, trace, acts, SelectQueue(first));
    trace, acts := Extend(o, trace, acts, LoadGeneration);
    trace, acts := Extend(o, trace, acts, Bump);
    trace, acts := Extend(o, trace, acts, DeviceStep);
    trace, acts := Extend(o, trace, acts, DeviceStep);
    trace, acts := Extend(o, trace, acts, DeviceStep);
    trace, acts := Extend(o, trace, acts, PollGeneration);
  }

  /**
   A run that leaves the queue loop with the first of two queues missing: it was posted before the
   device had looked at FEATURES_OK.
   */
  lemma QueueLost(o: Offer, s0: Sys, first: Addresses, second: Addresses) returns (trace: seq<Sys>, acts: seq<Action>)
    requires |o.device| == |o.driver| == 2 && Initial(s0) && |s0.tables| == 2 && first != ZERO
    ensures IsRun(o, trace, acts) && |trace| == |acts| + 1 && trace[0] == s0
    ensures var s := trace[|acts|];
      s.device.Done? && s.posted == [first, second] && s.tables == [ZERO, second] && s.lost == 1
  {
    hide IsRun;
    trace, acts := FirstLost(o, s0, first);
    JoinSplit(second.desc);
    JoinSplit(second.avail);
    JoinSplit(second.used);
    hide High, Low, Join;
    trace, acts := Extend(o, trace, acts, DeviceStep);
    trace, acts := Extend(o, trace, acts, SelectQueue(second));
    trace, acts := Extend(o, trace, acts, LoadGeneration);
    trace, acts := Extend(o, trace, acts, Bump);
    trace, acts := Extend(o, trace, acts, DeviceStep);
    trace, acts := Extend(o, trace, acts, DeviceStep);
    trace, acts := Extend(o, trace, acts, DeviceStep);
  }
}

/**
 The one interrupt register that all device threads of an L2CPU pulse under a lock. One step is
 one register store, one lock operation, or one used-ring publication by one thread.
 */
module Interrupts {

  function Pow2(n: nat): (r: nat)
    ensures r > 0
  {
    if n == 0 then 1 else 2 * Pow2(n - 1)
  }

  /** `1 << (interrupt_number - 5)` */
  function Bit(irq: nat): nat
    requires irq >= 5
  {
    Pow2(irq - 5)
  }

  lemma {:induction false} BitDoubles(irq: nat)
    requires irq >= 5
    ensures Bit(5) == 1 && Bit(irq + 1) == 2 * Bit(irq) > 0
  {
  }

  lemma {:induction false} BitGrows(irq: nat, other: nat)
    requires 5 <= irq < other
    ensures Bit(irq) < Bit(other)
    decreases other
  {
    hide Bit;
    BitDoubles(other - 1);
    if irq == other - 1 {
    } else {
      BitGrows(irq, other - 1);
    }
  }

  /** So a bit says whose it is. */
  lemma BitNames(irq: nat, other: nat)
    requires irq >= 5 && other >= 5
    ensures Bit(irq) == Bit(other) <==> irq == other
  {
    hide Bit;
    if irq < other {
      BitGrows(irq, other);
    } else if other < irq {
      BitGrows(other, irq);
    }
  }

  lemma BitFrom(irq: nat)
    requires irq >= 5
    ensures Bit(irq + 5) == 32 * Bit(irq)
  {
    hide Bit;
    BitDoubles(irq);
    BitDoubles(irq + 1);
    BitDoubles(irq + 2);
    BitDoubles(irq + 3);
    BitDoubles(irq + 4);
  }

  /** The bits of the program's three device threads: disk, network and cloud-init disk. */
  lemma ProgramBits()
    ensures Bit(33) == 0x1000_0000 && Bit(32) == 0x800_0000 && Bit(31) == 0x400_0000
  {
    BitFrom(26);
    BitFrom(21);
    BitFrom(16);
    BitFrom(11);
    BitFrom(6);
    BitDoubles(5);
    assert Bit(6) == 2 && Bit(11) == 0x40 && Bit(16) == 0x800 && Bit(21) == 0x1_0000 && Bit(26) == 0x20_0000;
    BitDoubles(31);
    BitDoubles(32);
  }

  /** Where a device thread is in `set_interrupt`. */
  datatype Pc = Working | Wanting | Locked | Raised | Lowered

  /** One device thread: what it has published and how many of its pulses are over. */
  datatype Thread = Thread(pc: Pc, irq: nat, publications: nat, pulses: nat)

  datatype Lock = Free | HeldBy(i: nat)

  /** `stores` is every value stored into the register, in order. */
  datatype Sys = Sys(threads: seq<Thread>, lock: Lock, register: nat, stores: seq<nat>)

  predicate Enabled(s: Sys, i: nat) {
    && i < |s.threads| && s.threads[i].irq >= 5
    && (s.threads[i].pc.Wanting? ==> s.lock.Free?)
  }

  function Step(s: Sys, i: nat): Sys
    requires Enabled(s, i)
  {
    var t := s.threads[i];
    match t.pc
    case Working => s.(threads := s.threads[i := t.(pc := Wanting, publications := t.publications + 1)])
    case Wanting => s.(threads := s.threads[i := t.(pc := Locked)], lock := HeldBy(i))
    case Locked =>
      s.(threads := s.threads[i := t.(pc := Raised)], register := Bit(t.irq), stores := s.stores + [Bit(t.irq)])
    case Raised =>
      s.(threads := s.threads[i := t.(pc := Lowered, pulses := t.pulses + 1)], register := 0, stores := s.stores + [0])
    case Lowered => s.(threads := s.threads[i := t.(pc := Working)], lock := Free)
  }

  ghost predicate Initial(s: Sys) {
    && s.lock.Free? && s.register == 0 && s.stores == []
    && forall i | 0 <= i < |s.threads| ::
         s.threads[i].pc.Working? && s.threads[i].irq >= 5 && s.threads[i].publications == s.threads[i].pulses == 0
  }

  ghost predicate Move(trace: seq<Sys>, who: seq<nat>, k: nat)
    requires k < |who| && |trace| == |who| + 1
  {
    Enabled(trace[k], who[k]) && trace[k + 1] == Step(trace[k], who[k])
  }

  ghost predicate IsRun(trace: seq<Sys>, who: seq<nat>) {
    |trace| == |who| + 1 && Initial(trace[0]) && forall k | 0 <= k < |who| :: Move(trace, who, k)
  }

  // ---------------------------------------------------------------- invariant

  predicate Inside(pc: Pc) { pc.Locked? || pc.Raised? || pc.Lowered? }

  ghost predicate IsBit(s: Sys, v: nat) {
    exists i :: 0 <= i < |s.threads| && s.threads[i].irq >= 5 && v == Bit(s.threads[i].irq)
  }

  /** The register was pulsed one device at a time: some device's bit, then 0, then the next. */
  ghost predicate Pulses(s: Sys) {
    && (forall k | 0 <= k < |s.stores| && k % 2 == 1 :: s.stores[k] == 0)
    && (forall k | 0 <= k < |s.stores| && k % 2 == 0 :: IsBit(s, s.stores[k]))
  }

  ghost predicate Consistent(s: Sys, i: nat)
    requires i < |s.threads|
  {
    var t := s.threads[i];
    && t.irq >= 5
    && (Inside(t.pc) <==> s.lock == HeldBy(i))
    && t.publications == t.pulses + (if t.pc.Wanting? || t.pc.Locked? || t.pc.Raised? then 1 else 0)
    && (t.pc.Raised? ==> s.register == Bit(t.irq))
  }

  ghost predicate Inv(s: Sys) {
    && (forall i | 0 <= i < |s.threads| :: Consistent(s, i))
    && (s.lock.HeldBy? ==> s.lock.i < |s.threads|)
    && (s.register != 0 ==> s.lock.HeldBy? && s.threads[s.lock.i].pc.Raised?)
    && (|s.stores| % 2 == 1 <==> s.register != 0)
    && Pulses(s)
  }

  lemma StoreKeepsPulses(s: Sys, s': Sys)
    requires Inv(s) && |s'.threads| == |s.threads|
    requires forall i | 0 <= i < |s.threads| :: s'.threads[i].irq == s.threads[i].irq
    requires s'.stores == s.stores
      || (|s.stores| % 2 == 1 && s'.stores == s.stores + [0])
      || (|s.stores| % 2 == 0 && exists v :: s'.stores == s.stores + [v] && IsBit(s, v))
    ensures Pulses(s')
  {
    hide Bit;
    forall k | 0 <= k < |s'.stores| && k % 2 == 0
      ensures IsBit(s', s'.stores[k])
    {
      assert IsBit(s, s'.stores[k]);
      var i :| 0 <= i < |s.threads| && s.threads[i].irq >= 5 && s'.stores[k] == Bit(s.threads[i].irq);
      assert s'.threads[i].irq == s.threads[i].irq;
    }
  }

  lemma StepInv(s: Sys, i: nat)
    requires Inv(s) && Enabled(s, i)
    ensures Inv(Step(s, i))
  {
    hide Pulses;
    var s' := Step(s, i);
    assert Consistent(s, i);
    forall j | 0 <= j < |s.threads|
      ensures Consistent(s', j) && s'.threads[j].irq == s.threads[j].irq
    {
      assert Consistent(s, j);
    }
    if s.threads[i].pc.Locked? {
      assert s.register == 0;
      assert IsBit(s, Bit(s.threads[i].irq));
      assert s'.stores == s.stores + [Bit(s.threads[i].irq)];
    }
    StoreKeepsPulses(s, s');
  }

  lemma {:induction false} RunInv(trace: seq<Sys>, who: seq<nat>, k: nat)
    requires IsRun(trace, who) && k < |trace|
    ensures Inv(trace[k])
  {
    if k == 0 {
    } else {
      RunInv(trace, who, k - 1);
      assert Move(trace, who, k - 1);
      StepInv(trace[k - 1], who[k - 1]);
    }
  }

  /**
   In every interleaving of any number of device threads, the register is 0 or the bit of the
   thread that holds the lock; its stores alternate between a device's bit and 0, so each
   pulse is cleared before the next begins; and every device has finished one pulse for each
   of its publications, but for at most one still in progress. A register that is not 0 names the
   one interrupt that is being raised.
   */
  lemma PulsesFollowPublications(trace: seq<Sys>, who: seq<nat>, k: nat)
    requires IsRun(trace, who) && k < |trace|
    ensures var s := trace[k];
      && (s.register != 0 ==>
            s.lock.HeldBy? && s.lock.i < |s.threads| && s.threads[s.lock.i].irq >= 5
            && forall irq | irq >= 5 :: s.register == Bit(irq) <==> irq == s.threads[s.lock.i].irq)
      && (forall i | 0 <= i < |s.threads| ::
            0 <= s.threads[i].publications - s.threads[i].pulses <= 1
            && (s.threads[i].pc.Working? ==> s.threads[i].publications == s.threads[i].pulses))
      && (forall n | 0 <= n < |s.stores| :: if n % 2 == 1 then s.stores[n] == 0 else IsBit(s, s.stores[n]))
  {
    RunInv(trace, who, k);
    var s := trace[k];
    if s.register != 0 {
      assert Consistent(s, s.lock.i);
      forall irq | irq >= 5
        ensures s.register == Bit(irq) <==> irq == s.threads[s.lock.i].irq
      {
        BitNames(irq, s.threads[s.lock.i].irq);
      }
    }
    hide Bit;
    forall i | 0 <= i < |s.threads|
      ensures 0 <= s.threads[i].publications - s.threads[i].pulses <= 1
      ensures s.threads[i].pc.Working? ==> s.threads[i].publications == s.threads[i].pulses
    {
      assert Consistent(s, i);
    }
  }

  /** Steps of thread `i` among the first `k`. */
  function OwnSteps(who: seq<nat>, i: nat, k: nat): nat
    requires k <= |who|
  {
    if k == 0 then 0 else OwnSteps(who, i, k - 1) + if who[k - 1] == i then 1 else 0
  }

  function Phase(pc: Pc): nat {
    match pc case Working => 0 case Wanting => 1 case Locked => 2 case Raised => 3 case Lowered => 4
  }

  /**
   Five steps of a thread are one publication and one pulse, neither more nor less: publish, take the
   lock, raise, lower, release.
   */
  lemma {:induction false} FiveStepsAPulse(trace: seq<Sys>, who: seq<nat>, i: nat, k: nat)
    requires IsRun(trace, who) && k < |trace| && i < |trace[0].threads|
    ensures |trace[k].threads| == |trace[0].threads|
    ensures var t := trace[k].threads[i];
      && t.irq == trace[0].threads[i].irq
      && OwnSteps(who, i, k) + 5 == 5 * t.publications + (if t.pc.Working? then 5 else Phase(t.pc))
      && OwnSteps(who, i, k) == 5 * t.pulses + (if t.pc.Lowered? then -1 else Phase(t.pc))
  {
    if k == 0 {
    } else {
      FiveStepsAPulse(trace, who, i, k - 1);
      assert Move(trace, who, k - 1);
    }
  }

  /** Raising stores the thread's own bit, lowering stores 0, and no other step stores anything. */
  lemma RaisesOwnBit(trace: seq<Sys>, who: seq<nat>, k: nat)
    requires IsRun(trace, who) && k < |who|
    ensures who[k] < |trace[k].threads|
    ensures var s, s', t := trace[k], trace[k + 1], trace[k].threads[who[k]];
      if t.pc.Locked? then t.irq >= 5 && s'.register == Bit(t.irq) && s'.stores == s.stores + [Bit(t.irq)]
      else if t.pc.Raised? then s'.register == 0 && s'.stores == s.stores + [0]
      else s'.register == s.register && s'.stores == s.stores
  {
    assert Move(trace, who, k);
  }
}

/**
 One ring of the virtual UART, shared by a producer and a consumer that each take one load or
 store at a time. `push_char` is the producer of the receive ring and `pop_char` the consumer of
 the transmit ring; the peer in OpenSBI is the other half of each.
 */
module Uart {
  import opened Words

  datatype Ring = Ring(buf: seq<u8>, head: u32, tail: u32)

  /** `index % BUFFER_SIZE`. */
  function At(n: int): (r: nat)
    ensures r < 4096
  {
    n % 4096
  }

  /** A ring of 4096 characters: index and place agree on the first turn, and every turn is as long. */
  lemma RingOf4096(n: nat)
    ensures n < 4096 ==> At(n) == n
    ensures At(n + 4096) == At(n)
  {
  }

  /** Where the producer is in `push_char`; `head` is the value it has loaded, modulo the size. */
  datatype Producer =
    | Resting
    | LoadHead(c: u8)
    | LoadTail(c: u8, head: nat)
    | Fill(c: u8)
    | PublishHead(c: u8)

  /** Where the consumer is in `pop_char`; `head` is the value it has loaded and may be stale. */
  datatype Consumer =
    | Waiting
    | SeenHead(head: nat)
    | Take
    | PublishTail(c: u8)

  /** `pushed` and `popped` are the characters that went in and came out so far; `base` is where the ring started. */
  datatype Sys = Sys(ring: Ring, prod: Producer, cons: Consumer, pushed: seq<u8>, popped: seq<u8>, base: nat)

  /** `Recheck` is a consumer that saw a character and looks again, as `uart_loop` does before `pop_char`. */
  datatype Action = Push(c: u8) | ProducerStep | ConsumerStep | Recheck

  predicate Enabled(s: Sys, a: Action) {
    && |s.ring.buf| == 4096
    && match a
       case Push(_) => s.prod.Resting?
       case ProducerStep => !s.prod.Resting?
       case ConsumerStep => true
       case Recheck => s.cons.Take?
  }

  function ProducerMove(s: Sys): Sys
    requires |s.ring.buf| == 4096 && !s.prod.Resting?
  {
    var r := s.ring;
    match s.prod
    case LoadHead(c) => s.(prod := LoadTail(c, At(r.head)))
    case LoadTail(c, head) => s.(prod := if At(head + 1) != At(r.tail) then Fill(c) else LoadHead(c))
    case Fill(c) => s.(ring := r.(buf := r.buf[At(r.head) := c]), prod := PublishHead(c))
    case PublishHead(c) => s.(ring := r.(head := At(Wrap32(r.head + 1))), prod := Resting, pushed := s.pushed + [c])
  }

  function ConsumerMove(s: Sys): Sys
    requires |s.ring.buf| == 4096
  {
    var r := s.ring;
    match s.cons
    case Waiting => s.(cons := SeenHead(At(r.head)))
    case SeenHead(head) => s.(cons := if head != At(r.tail) then Take else Waiting)
    case Take => s.(cons := PublishTail(r.buf[At(r.tail)]))
    case PublishTail(c) => s.(ring := r.(tail := At(Wrap32(r.tail + 1))), cons := Waiting, popped := s.popped + [c])
  }

  function Step(s: Sys, a: Action): Sys
    requires Enabled(s, a)
  {
    match a
    case Push(c) => s.(prod := LoadHead(c))
    case ProducerStep => ProducerMove(s)
    case ConsumerStep => ConsumerMove(s)
    case Recheck => s.(cons := Waiting)
  }

  /** Any starting indices that denote an empty ring. */
  predicate Initial(s: Sys) {
    && |s.ring.buf| == 4096 && At(s.ring.head) == At(s.ring.tail) == At(s.base)
    && s.prod.Resting? && s.cons.Waiting? && s.pushed == s.popped == []
  }

  predicate Move(trace: seq<Sys>, acts: seq<Action>, i: nat)
    requires i < |acts| && |trace| == |acts| + 1
  {
    Enabled(trace[i], acts[i]) && trace[i + 1] == Step(trace[i], acts[i])
  }

  predicate IsRun(trace: seq<Sys>, acts: seq<Action>) {
    && |trace| == |acts| + 1 && Initial(trace[0])
    && forall i | 0 <= i < |acts| :: Move(trace, acts, i)
  }

  // ---------------------------------------------------------------- modular facts

  lemma AtShift(tail: u32, n: nat, i: nat)
    requires At(tail) == At(n)
    ensures At(tail + i) == At(n + i)
  {
    assert tail as int == 4096 * (tail / 4096) + At(tail);
    assert n == 4096 * (n / 4096) + At(n);
  }

  lemma AtNext(index: u32, n: nat)
    requires At(index) == At(n)
    ensures At(At(Wrap32(index + 1))) == At(n + 1)
  {
    assert At(index as int + 1) == At(n + 1) by { AtShift(index, n, 1); }
    if index == 0xFFFF_FFFF {
      assert Wrap32(index + 1) == 0 && At(0x1_0000_0000) == 0;
    }
  }

  lemma AtDistinct(i: nat, j: nat)
    requires i < j < i + 4096
    ensures At(i) != At(j)
  {
    assert i == 4096 * (i / 4096) + At(i);
    assert j == 4096 * (j / 4096) + At(j);
  }

  lemma AtSuccessor(h: nat, t: nat)
    requires t <= h < t + 4096
    ensures At(At(h) + 1) != At(t) <==> h < t + 4095
    ensures At(h) != At(t) <==> t < h
  {
    assert h == 4096 * (h / 4096) + At(h);
    assert t == 4096 * (t / 4096) + At(t);
  }

  // ---------------------------------------------------------------- invariant

  ghost predicate Inv(s: Sys) {
    var h, t := |s.pushed|, |s.popped|;
    && |s.ring.buf| == 4096
    && t <= h <= t + 4095
    && At(s.ring.head) == At(s.base + h) && At(s.ring.tail) == At(s.base + t)
    && (forall j | t <= j < h :: s.ring.buf[At(s.base + j)] == s.pushed[j])
    && s.popped == s.pushed[..t]
    && (match s.prod
        case Resting => true
        case LoadHead(_) => true
        case LoadTail(_, head) => head == At(s.ring.head)
        case Fill(_) => h < t + 4095
        case PublishHead(c) => h < t + 4095 && s.ring.buf[At(s.base + h)] == c)
    && (match s.cons
        case Waiting => true
        case SeenHead(head) => head != At(s.ring.tail) ==> t < h
        case Take => t < h
        case PublishTail(c) => t < h && c == s.pushed[t])
  }

  lemma ProducerInv(s: Sys)
    requires Inv(s) && !s.prod.Resting?
    ensures Inv(ProducerMove(s))
  {
    hide At;
    var h, t := |s.pushed|, |s.popped|;
    AtSuccessor(s.base + h, s.base + t);
    AtNext(s.ring.head, s.base + h);
    if s.prod.Fill? {
      forall j | t <= j < h
        ensures ProducerMove(s).ring.buf[At(s.base + j)] == s.pushed[j]
      {
        AtDistinct(s.base + j, s.base + h);
      }
    }
  }

  lemma ConsumerInv(s: Sys)
    requires Inv(s)
    ensures Inv(ConsumerMove(s))
  {
    var h, t := |s.pushed|, |s.popped|;
    AtSuccessor(s.base + h, s.base + t);
    AtNext(s.ring.tail, s.base + t);
    if s.cons.PublishTail? {
      assert s.pushed[..t + 1] == s.pushed[..t] + [s.pushed[t]];
    }
  }

  lemma StepInv(s: Sys, a: Action)
    requires Inv(s) && Enabled(s, a)
    ensures Inv(Step(s, a))
  {
    if a.ProducerStep? {
      ProducerInv(s);
    } else if a.ConsumerStep? {
      ConsumerInv(s);
    }
  }

  lemma {:induction false} RunInv(trace: seq<Sys>, acts: seq<Action>, k: nat)
    requires IsRun(trace, acts) && k < |trace|
    ensures Inv(trace[k])
  {
    if k == 0 {
    } else {
      RunInv(trace, acts, k - 1);
      assert Move(trace, acts, k - 1);
      StepInv(trace[k - 1], acts[k - 1]);
    }
  }

  // ---------------------------------------------------------------- theorems

  /** The characters in a ring, oldest first. */
  function Contents(r: Ring): (c: seq<u8>)
    requires |r.buf| == 4096
    ensures |c| == At(At(r.head) - At(r.tail))
    ensures forall i | 0 <= i < |c| :: c[i] == r.buf[At(r.tail + i)]
  {
    seq<u8>(At(At(r.head) - At(r.tail)), i requires 0 <= i < At(At(r.head) - At(r.tail)) => r.buf[At(r.tail + i)])
  }

  lemma AtSpan(head: u32, tail: u32, h: nat, t: nat)
    requires At(head) == At(h) && At(tail) == At(t) && t <= h < t + 4096
    ensures At(At(head) - At(tail)) == h - t
  {
    assert h == 4096 * (h / 4096) + At(h);
    assert t == 4096 * (t / 4096) + At(t);
  }

  lemma PushedIsPoppedAndHeld(s: Sys)
    requires Inv(s)
    ensures |s.ring.buf| == 4096 && s.pushed == s.popped + Contents(s.ring)
  {
    var h, t := |s.pushed|, |s.popped|;
    AtSpan(s.ring.head, s.ring.tail, s.base + h, s.base + t);
    forall i | 0 <= i < h - t
      ensures Contents(s.ring)[i] == s.pushed[t + i]
    {
      AtShift(s.ring.tail, s.base + t, i);
      assert s.ring.buf[At(s.base + (t + i))] == s.pushed[t + i];
    }
  }

  /**
   In every interleaving, what was pushed is what was popped followed by what is in the ring,
   and the ring never holds more than 4095 characters.
   */
  lemma NothingLostOrRepeated(trace: seq<Sys>, acts: seq<Action>, k: nat)
    requires IsRun(trace, acts) && k < |trace|
    ensures var s := trace[k];
      |s.ring.buf| == 4096 && s.pushed == s.popped + Contents(s.ring) && |Contents(s.ring)| <= 4095
  {
    RunInv(trace, acts, k);
    PushedIsPoppedAndHeld(trace[k]);
  }

  lemma UnreadStep(s: Sys, a: Action, i: nat)
    requires Inv(s) && Enabled(s, a) && i < |Contents(s.ring)|
    ensures |Step(s, a).ring.buf| == 4096
    ensures Step(s, a).ring.buf[At(s.ring.tail + i)] == Contents(s.ring)[i]
  {
    var h, t := |s.pushed|, |s.popped|;
    AtSpan(s.ring.head, s.ring.tail, s.base + h, s.base + t);
    AtShift(s.ring.tail, s.base + t, i);
    if a.ProducerStep? && s.prod.Fill? {
      AtDistinct(s.base + t + i, s.base + h);
    }
  }

  /** The producer never stores into a slot whose character the consumer has yet to take. */
  lemma UnreadSlotKept(trace: seq<Sys>, acts: seq<Action>, k: nat, i: nat)
    requires IsRun(trace, acts) && k < |acts| && |trace[k].ring.buf| == 4096 && i < |Contents(trace[k].ring)|
    ensures |trace[k + 1].ring.buf| == 4096
    ensures trace[k + 1].ring.buf[At(trace[k].ring.tail + i)] == Contents(trace[k].ring)[i]
  {
    RunInv(trace, acts, k);
    assert Move(trace, acts, k);
    hide Inv, At;
    UnreadStep(trace[k], acts[k], i);
  }

  // ---------------------------------------------------------------- progress

  /** How far the producer has come: four for each character pushed, and its steps on the next. */
  function PushWork(s: Sys): int {
    4 * |s.pushed| + match s.prod
                     case Resting => 0
                     case LoadHead(_) => 0
                     case LoadTail(_, _) => 1
                     case Fill(_) => 2
                     case PublishHead(_) => 3
  }

  /** How far the consumer has come; one that has seen an empty ring must look again. */
  function PopWork(s: Sys): int {
    4 * |s.popped| + match s.cons
                     case Waiting => 0
                     case SeenHead(head) => if head == At(s.ring.tail) then -1 else 1
                     case Take => 2
                     case PublishTail(_) => 3
  }

  lemma HeadNext(head: u32, h: nat)
    requires At(head) == At(h)
    ensures At(At(head) + 1) == At(At(h) + 1)
  {
  }

  lemma PushAdvances(s: Sys, a: Action)
    requires Inv(s) && Enabled(s, a) && |Contents(s.ring)| < 4095
    ensures PushWork(Step(s, a)) == PushWork(s) + if a.ProducerStep? then 1 else 0
  {
    PushedIsPoppedAndHeld(s);
    var h, t := |s.pushed|, |s.popped|;
    hide At, Contents;
    AtSuccessor(s.base + h, s.base + t);
    HeadNext(s.ring.head, s.base + h);
  }

  lemma AtTwice(n: nat)
    ensures At(At(n)) == At(n)
  {
  }

  lemma PopAdvances(s: Sys, a: Action)
    requires Inv(s) && Enabled(s, a) && Contents(s.ring) != []
    ensures PopWork(Step(s, a)) == PopWork(s) + (if a.ConsumerStep? then 1 else 0) - if a.Recheck? then 2 else 0
  {
    PushedIsPoppedAndHeld(s);
    var h, t := |s.pushed|, |s.popped|;
    hide Contents;
    AtSuccessor(s.base + h, s.base + t);
    AtTwice(s.ring.head);
  }

  /** Producer steps, consumer steps and rechecks among the actions from `i` to `k`. */
  function ProducerSteps(acts: seq<Action>, i: nat, k: nat): nat
    requires i <= k <= |acts|
    decreases k - i
  {
    if i == k then 0 else ProducerSteps(acts, i, k - 1) + if acts[k - 1].ProducerStep? then 1 else 0
  }

  function ConsumerSteps(acts: seq<Action>, i: nat, k: nat): nat
    requires i <= k <= |acts|
    decreases k - i
  {
    if i == k then 0 else ConsumerSteps(acts, i, k - 1) + if acts[k - 1].ConsumerStep? then 1 else 0
  }

  function Rechecks(acts: seq<Action>, i: nat, k: nat): nat
    requires i <= k <= |acts|
    decreases k - i
  {
    if i == k then 0 else Rechecks(acts, i, k - 1) + if acts[k - 1].Recheck? then 1 else 0
  }

  ghost predicate RoomIn(trace: seq<Sys>, i: nat, k: nat) {
    forall j | i <= j < k && j < |trace| :: |trace[j].ring.buf| == 4096 && |Contents(trace[j].ring)| < 4095
  }

  ghost predicate CharacterIn(trace: seq<Sys>, i: nat, k: nat) {
    forall j | i <= j < k && j < |trace| :: |trace[j].ring.buf| == 4096 && Contents(trace[j].ring) != []
  }

  /** While the ring has room, whatever the consumer does, every four steps of the producer push a character. */
  lemma {:induction false} FourStepsAPush(trace: seq<Sys>, acts: seq<Action>, i: nat, k: nat)
    requires IsRun(trace, acts) && i <= k < |trace| && RoomIn(trace, i, k)
    ensures PushWork(trace[k]) == PushWork(trace[i]) + ProducerSteps(acts, i, k)
    decreases k
  {
    if i == k {
    } else {
      FourStepsAPush(trace, acts, i, k - 1);
      RunInv(trace, acts, k - 1);
      assert Move(trace, acts, k - 1);
      hide Inv, Step, PushWork, Contents;
      PushAdvances(trace[k - 1], acts[k - 1]);
    }
  }

  /** The character being pushed is the next to be in the ring. */
  lemma {:induction false} PushedNext(trace: seq<Sys>, acts: seq<Action>, i: nat, k: nat, c: u8)
    requires IsRun(trace, acts) && i <= k < |trace| && !trace[i].prod.Resting? && trace[i].prod.c == c
    ensures trace[i].pushed + [c] <= trace[k].pushed
            || (trace[k].pushed == trace[i].pushed && !trace[k].prod.Resting? && trace[k].prod.c == c)
    decreases k
  {
    if i == k {
    } else {
      PushedNext(trace, acts, i, k - 1, c);
      assert Move(trace, acts, k - 1);
      hide At;
    }
  }

  /** A pushed character is in the ring after four steps of the producer, if the ring has room all the while. */
  lemma PushedWithinFour(trace: seq<Sys>, acts: seq<Action>, i: nat, k: nat, c: u8)
    requires IsRun(trace, acts) && i < k < |trace| && acts[i] == Push(c) && RoomIn(trace, i + 1, k)
    requires ProducerSteps(acts, i + 1, k) >= 4
    ensures trace[i].pushed + [c] <= trace[k].pushed
  {
    assert Move(trace, acts, i);
    assert trace[i + 1] == trace[i].(prod := LoadHead(c));
    FourStepsAPush(trace, acts, i + 1, k);
    PushedNext(trace, acts, i + 1, k, c);
  }

  /**
   While the ring holds a character, whatever the producer does, every four steps of the consumer
   take one, but that looking again costs it two.
   */
  lemma {:induction false} FourStepsAPop(trace: seq<Sys>, acts: seq<Action>, i: nat, k: nat)
    requires IsRun(trace, acts) && i <= k < |trace| && CharacterIn(trace, i, k)
    ensures PopWork(trace[k]) == PopWork(trace[i]) + ConsumerSteps(acts, i, k) - 2 * Rechecks(acts, i, k)
    decreases k
  {
    if i == k {
    } else {
      FourStepsAPop(trace, acts, i, k - 1);
      RunInv(trace, acts, k - 1);
      assert Move(trace, acts, k - 1);
      hide Inv, Step, PopWork, Contents;
      PopAdvances(trace[k - 1], acts[k - 1]);
    }
  }

  /** So five steps of the consumer, and two for each time it looked again, take a character. */
  lemma PoppedWithinFive(trace: seq<Sys>, acts: seq<Action>, i: nat, k: nat)
    requires IsRun(trace, acts) && i <= k < |trace| && CharacterIn(trace, i, k)
    requires ConsumerSteps(acts, i, k) >= 5 + 2 * Rechecks(acts, i, k)
    ensures |trace[k].popped| > |trace[i].popped|
  {
    FourStepsAPop(trace, acts, i, k);
  }

  // ---------------------------------------------------------------- the host's side as code

  /** The head stands one ring length of characters past the tail, and fixes how many there are. */
  lemma HeadIsEnd(r: Ring)
    requires |r.buf| == 4096
    ensures At(r.head) == At(r.tail + |Contents(r)|)
  {
    assert r.head as int == 4096 * (r.head / 4096) + At(r.head);
    assert r.tail as int == 4096 * (r.tail / 4096) + At(r.tail);
  }

  lemma CountIs(r: Ring, n: nat)
    requires |r.buf| == 4096 && n < 4096 && At(r.head) == At(r.tail + n)
    ensures |Contents(r)| == n
  {
    AtSpan(r.head, r.tail, r.tail + n, r.tail);
  }

  lemma ContentsPush(r: Ring, c: u8)
    requires |r.buf| == 4096 && |Contents(r)| < 4095
    ensures Contents(Ring(r.buf[At(r.head) := c], At(Wrap32(r.head as int + 1)), r.tail)) == Contents(r) + [c]
  {
    hide At;
    var r' := Ring(r.buf[At(r.head) := c], At(Wrap32(r.head as int + 1)), r.tail);
    var n := |Contents(r)|;
    HeadIsEnd(r);
    AtNext(r.head, r.tail + n);
    CountIs(r', n + 1);
    forall i | 0 <= i < n
      ensures Contents(r')[i] == Contents(r)[i]
    {
      AtDistinct(r.tail + i, r.tail + n);
    }
    assert Contents(r')[n] == c;
  }

  lemma ContentsPop(r: Ring)
    requires |r.buf| == 4096 && Contents(r) != []
    ensures Contents(r) == [r.buf[At(r.tail)]] + Contents(r.(tail := At(Wrap32(r.tail as int + 1))))
  {
    hide At;
    var r' := r.(tail := At(Wrap32(r.tail as int + 1)));
    var n := |Contents(r)|;
    HeadIsEnd(r);
    AtNext(r.tail, r.tail);
    AtShift(r'.tail, r.tail + 1, n - 1);
    CountIs(r', n - 1);
    forall i | 0 <= i < n - 1
      ensures Contents(r')[i] == Contents(r)[i + 1]
    {
      AtShift(r'.tail, r.tail + 1, i);
      assert r.tail + 1 + i == r.tail + (i + 1);
    }
    assert Contents(r)[0] == r.buf[At(r.tail + 0)];
  }

  /** The `queues` structure with the host's functions; `tx` and `rx` are from the guest's point of view. */
  class Queues {
    const txBuf: array<u8>
    const rxBuf: array<u8>
    var txHead: u32
    var txTail: u32
    var rxHead: u32
    var rxTail: u32

    ghost predicate Valid() {
      txBuf != rxBuf && txBuf.Length == rxBuf.Length == 4096
    }

    function Rx(): Ring
      reads this, rxBuf
    {
      Ring(rxBuf[..], rxHead, rxTail)
    }

    function Tx(): Ring
      reads this, txBuf
    {
      Ring(txBuf[..], txHead, txTail)
    }

    /** The structure as it is found in guest memory; the host initialises none of it. */
    constructor (txBuf: array<u8>, rxBuf: array<u8>, txHead: u32, txTail: u32, rxHead: u32, rxTail: u32)
      requires txBuf != rxBuf && txBuf.Length == rxBuf.Length == 4096
      ensures Valid() && this.txBuf == txBuf && this.rxBuf == rxBuf
      ensures Tx() == Ring(txBuf[..], txHead, txTail) && Rx() == Ring(rxBuf[..], rxHead, rxTail)
    {
      this.txBuf, this.rxBuf := txBuf, rxBuf;
      this.txHead, this.txTail, this.rxHead, this.rxTail := txHead, txTail, rxHead, rxTail;
    }

    method CanPush() returns (room: bool)
      requires Valid()
      ensures room <==> |Contents(Rx())| < 4095
    {
      var head := At(rxHead);
      var tail := At(rxTail);
      room := At(head + 1) != tail;
    }

    method CanPop() returns (some: bool)
      requires Valid()
      ensures some <==> Contents(Tx()) != []
    {
      var head := At(txHead);
      var tail := At(txTail);
      some := head != tail;
    }

    /**
     `push_char`, with `tails(k)` the value of `rx_tail` that its poll `k` finds: it waits as long as
     the ring is full and appends the character to what the ring holds once the guest has made
     room. Should the guest never make room, it would wait for ever.
     */
    method PushChar(c: u8, tails: nat -> u32) returns (polls: nat)
      requires Valid() && exists n: nat :: |Contents(Ring(rxBuf[..], rxHead, tails(n)))| < 4095
      modifies rxBuf, this`rxHead, this`rxTail
      ensures rxTail == tails(polls)
      ensures forall k: nat | k < polls :: |Contents(Ring(old(rxBuf[..]), old(rxHead), tails(k)))| == 4095
      ensures Contents(Rx()) == Contents(Ring(old(rxBuf[..]), old(rxHead), tails(polls))) + [c]
    {
      hide At, Contents;
      ghost var n: nat :| |Contents(Ring(rxBuf[..], rxHead, tails(n)))| < 4095;
      polls := 0;
      rxTail := tails(0);
      var room := CanPush();
      while !room
        invariant polls <= n && rxTail == tails(polls) && rxHead == old(rxHead) && rxBuf[..] == old(rxBuf[..])
        invariant room <==> |Contents(Rx())| < 4095
        invariant forall k: nat | k < polls :: |Contents(Ring(rxBuf[..], rxHead, tails(k)))| == 4095
        decreases n - polls
      {
        polls := polls + 1;
        rxTail := tails(polls);
        room := CanPush();
      }
      ghost var before := Rx();
      rxBuf[At(rxHead)] := c;
      rxHead := At(Wrap32(rxHead as int + 1));
      ContentsPush(before, c);
    }

    /**
     `pop_char`, with `heads(k)` the value of `tx_head` that its poll `k` finds: it waits as long as the
     ring is empty and takes the oldest character once the guest has sent one.
     */
    method PopChar(heads: nat -> u32) returns (c: u8, polls: nat)
      requires Valid() && exists n: nat :: Contents(Ring(txBuf[..], heads(n), txTail)) != []
      modifies this`txHead, this`txTail
      ensures txHead == heads(polls)
      ensures forall k: nat | k < polls :: Contents(Ring(txBuf[..], heads(k), old(txTail))) == []
      ensures Contents(Ring(txBuf[..], heads(polls), old(txTail))) == [c] + Contents(Tx())
    {
      hide At, Contents;
      ghost var n: nat :| Contents(Ring(txBuf[..], heads(n), txTail)) != [];
      polls := 0;
      txHead := heads(0);
      var some := CanPop();
      while !some
        invariant polls <= n && txHead == heads(polls) && txTail == old(txTail)
        invariant some <==> Contents(Tx()) != []
        invariant forall k: nat | k < polls :: Contents(Ring(txBuf[..], heads(k), txTail)) == []
        decreases n - polls
      {
        polls := polls + 1;
        txHead := heads(polls);
        some := CanPop();
      }
      ghost var before := Tx();
      c := txBuf[At(txTail)];
      txTail := At(Wrap32(txTail as int + 1));
      ContentsPop(before);
    }
  }
}

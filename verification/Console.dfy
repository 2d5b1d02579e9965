/** The Ctrl-A escape of `uart_loop`, and what of the typed input reaches the guest. */
module Console {
  import opened Words
  import opened Uart

  const CTRL_A: u8 := 1
  const KEY_X: u8 := 120

  // ---------------------------------------------------------------- the specification

  /** What a whole input stream forwards: Ctrl-A swallows the byte after it, Ctrl-A x ends the session. */
  function Filter(s: seq<u8>): seq<u8> {
    if s == [] then []
    else if s[0] != CTRL_A then [s[0]] + Filter(s[1..])
    else if |s| == 1 || s[1] == KEY_X then []
    else Filter(s[2..])
  }

  /** Whether an input stream ends the session. */
  predicate Quits(s: seq<u8>) {
    s != [] &&
    if s[0] != CTRL_A then Quits(s[1..])
    else |s| > 1 && (s[1] == KEY_X || Quits(s[2..]))
  }

  // ---------------------------------------------------------------- the machine

  /** `ctrl_a_pressed`, and having left the loop. */
  datatype Mode = Plain | Pressed | Ended

  /** One byte read from the terminal: the next mode and what is queued to the guest. */
  function Feed(m: Mode, b: u8): (Mode, seq<u8>) {
    match m
    case Ended => (Ended, [])
    case Pressed => if b == KEY_X then (Ended, []) else (Plain, [])
    case Plain => if b == CTRL_A then (Pressed, []) else (Plain, [b])
  }

  function FeedAll(m: Mode, s: seq<u8>): (Mode, seq<u8>)
    decreases |s|
  {
    if s == [] then (m, [])
    else
      var (m1, out1) := Feed(m, s[0]);
      var (m2, out2) := FeedAll(m1, s[1..]);
      (m2, out1 + out2)
  }

  lemma {:induction false} EndedForwardsNothing(s: seq<u8>)
    ensures FeedAll(Ended, s).0 == Ended && FeedAll(Ended, s).1 == []
  {
    if s == [] {
    } else {
      EndedForwardsNothing(s[1..]);
    }
  }

  /** The byte-by-byte machine computes the filter of the whole stream. */
  lemma {:induction false} MachineIsFilter(s: seq<u8>)
    ensures FeedAll(Plain, s).1 == Filter(s)
    ensures FeedAll(Plain, s).0 == Ended <==> Quits(s)
    decreases |s|
  {
    if s == [] {
    } else {
      if s[0] != CTRL_A {
        MachineIsFilter(s[1..]);
      } else if |s| > 1 {
        assert FeedAll(Plain, s).1 == FeedAll(Pressed, s[1..]).1;
        assert s[1..][1..] == s[2..];
        if s[1] == KEY_X {
          EndedForwardsNothing(s[2..]);
        } else {
          MachineIsFilter(s[2..]);
        }
      }
    }
  }

  lemma FeedOne(m: Mode, b: u8)
    ensures FeedAll(m, [b]).0 == Feed(m, b).0 && FeedAll(m, [b]).1 == Feed(m, b).1
  {
    assert [b][1..] == [];
    assert FeedAll(Feed(m, b).0, []) == (Feed(m, b).0, []);
  }

  lemma {:induction false} FeedAllConcat(m: Mode, s: seq<u8>, t: seq<u8>)
    ensures var (m1, out1) := FeedAll(m, s);
      var (m2, out2) := FeedAll(m1, t);
      FeedAll(m, s + t).0 == m2 && FeedAll(m, s + t).1 == out1 + out2
    decreases |s|
  {
    if s == [] {
      assert s + t == t;
    } else {
      assert (s + t)[1..] == s[1..] + t;
      var (m1, out1) := Feed(m, s[0]);
      FeedAllConcat(m1, s[1..], t);
      var out2, out3 := FeedAll(m1, s[1..]).1, FeedAll(FeedAll(m1, s[1..]).0, t).1;
      hide Feed;
      assert out1 + (out2 + out3) == (out1 + out2) + out3;
    }
  }

  /** Reading more never takes back what was forwarded. */
  lemma FilterMonotone(s: seq<u8>, t: seq<u8>)
    ensures Filter(s) <= Filter(s + t)
  {
    FeedAllConcat(Plain, s, t);
    MachineIsFilter(s);
    MachineIsFilter(s + t);
  }

  /** Ctrl-A itself is never forwarded. */
  lemma {:induction false} CtrlANeverForwarded(s: seq<u8>)
    ensures CTRL_A !in Filter(s)
    decreases |s|
  {
    if s == [] {
    } else {
      if s[0] != CTRL_A {
        CtrlANeverForwarded(s[1..]);
      } else if |s| > 1 && s[1] != KEY_X {
        CtrlANeverForwarded(s[2..]);
      }
    }
  }

  /** Between two complete stretches of input, Ctrl-A and any byte but x leave no trace. */
  lemma EscapePairVanishes(s: seq<u8>, b: u8, t: seq<u8>)
    requires FeedAll(Plain, s).0 == Plain && b != KEY_X
    ensures Filter(s + [CTRL_A, b] + t) == Filter(s + t)
  {
    assert s + [CTRL_A, b] + t == s + ([CTRL_A, b] + t);
    FeedAllConcat(Plain, s, [CTRL_A, b] + t);
    FeedAllConcat(Plain, s, t);
    MachineIsFilter(s + t);
    MachineIsFilter(s + ([CTRL_A, b] + t));
    MachineIsFilter([CTRL_A, b] + t);
    MachineIsFilter(t);
    assert ([CTRL_A, b] + t)[2..] == t;
  }

  /** After Ctrl-A x nothing more is forwarded, whatever follows. */
  lemma NothingAfterQuit(s: seq<u8>, t: seq<u8>)
    requires Quits(s)
    ensures Filter(s + t) == Filter(s) && Quits(s + t)
  {
    MachineIsFilter(s);
    MachineIsFilter(s + t);
    FeedAllConcat(Plain, s, t);
    EndedForwardsNothing(t);
  }

  /** Input without byte 1 is forwarded as it is. */
  lemma {:induction false} PlainForwarded(s: seq<u8>)
    requires 1 !in s
    ensures Filter(s) == s && !Quits(s)
  {
    if s == [] {
    } else {
      PlainForwarded(s[1..]);
    }
  }

  lemma {:induction false} PlainStays(s: seq<u8>)
    requires 1 !in s
    ensures FeedAll(Plain, s).0 == Plain
  {
    if s == [] {
    } else {
      PlainStays(s[1..]);
    }
  }

  /**
   Byte 1 is the escape: with 120 after it, the letter x, the session ends and nothing more is
   forwarded; any other byte after it is swallowed and the session goes on.
   */
  lemma EscapeByBytes(s: seq<u8>, b: u8, t: seq<u8>)
    requires 1 !in s
    ensures b == 120 ==> Filter(s + [1, b] + t) == s && Quits(s + [1, b] + t)
    ensures b != 120 ==> Filter(s + [1, b] + t) == s + Filter(t) && (Quits(s + [1, b] + t) <==> Quits(t))
  {
    PlainForwarded(s);
    PlainStays(s);
    assert s + [1, b] + t == s + ([1, b] + t) && ([1, b] + t)[2..] == t;
    FeedAllConcat(Plain, s, [1, b] + t);
    MachineIsFilter(s);
    MachineIsFilter(s + ([1, b] + t));
    MachineIsFilter([1, b] + t);
  }

  // ---------------------------------------------------------------- the loop as code

  /** The input half of `uart_loop` on a finite input; `read` counts the bytes it took. */
  method ForwardInput(input: seq<u8>) returns (out: seq<u8>, quit: bool, read: nat)
    ensures out == Filter(input) && quit == Quits(input)
    ensures read <= |input| && (!quit ==> read == |input|) && Quits(input[..read]) == quit
    ensures quit ==> read > 0 && !Quits(input[..read - 1])
  {
    var ctrlAPressed := false;
    out, quit, read := [], false, 0;
    while read < |input|
      invariant read <= |input| && !quit
      invariant FeedAll(Plain, input[..read]).0 == (if ctrlAPressed then Pressed else Plain)
      invariant FeedAll(Plain, input[..read]).1 == out
      decreases |input| - read
    {
      var byte := input[read];
      FeedAllConcat(Plain, input[..read], [byte]);
      assert input[..read + 1] == input[..read] + [byte];
      FeedOne(if ctrlAPressed then Pressed else Plain, byte);
      read := read + 1;
      if ctrlAPressed {
        if byte == KEY_X {
          MachineIsFilter(input[..read - 1]);
          quit := true;
          break;
        }
        ctrlAPressed := false;
      } else if byte == CTRL_A {
        ctrlAPressed := true;
      } else {
        out := out + [byte];
      }
    }
    MachineIsFilter(input[..read]);
    assert input == input[..read] + input[read..];
    if quit {
      NothingAfterQuit(input[..read], input[read..]);
    } else {
      assert input[..read] == input;
    }
  }

  // ---------------------------------------------------------------- composed with the ring

  /** The host feeds `input` through the escape machine into a ring that the guest drains. */
  datatype Link = Link(uart: Uart.Sys, mode: Mode, read: nat)

  datatype LinkAction = Key | Ring(a: Uart.Action)

  predicate LinkEnabled(input: seq<u8>, l: Link, a: LinkAction) {
    match a
    case Key => l.read < |input| && l.mode != Ended && l.uart.prod.Resting? && |l.uart.ring.buf| == 4096
    case Ring(b) => !b.Push? && Uart.Enabled(l.uart, b)
  }

  function LinkStep(input: seq<u8>, l: Link, a: LinkAction): Link
    requires LinkEnabled(input, l, a)
  {
    match a
    case Key =>
      var (m, out) := Feed(l.mode, input[l.read]);
      Link(if out == [] then l.uart else Uart.Step(l.uart, Push(out[0])), m, l.read + 1)
    case Ring(b) => l.(uart := Uart.Step(l.uart, b))
  }

  predicate LinkMove(input: seq<u8>, trace: seq<Link>, acts: seq<LinkAction>, i: nat)
    requires i < |acts| && |trace| == |acts| + 1
  {
    LinkEnabled(input, trace[i], acts[i]) && trace[i + 1] == LinkStep(input, trace[i], acts[i])
  }

  predicate IsLinkRun(input: seq<u8>, trace: seq<Link>, acts: seq<LinkAction>) {
    && |trace| == |acts| + 1
    && Uart.Initial(trace[0].uart) && trace[0].mode == Plain && trace[0].read == 0
    && forall i | 0 <= i < |acts| :: LinkMove(input, trace, acts, i)
  }

  /** The character that the host is in the middle of pushing. */
  function InHand(p: Producer): seq<u8> {
    if p.Resting? then [] else [p.c]
  }

  ghost predicate LinkInv(input: seq<u8>, l: Link) {
    && Uart.Inv(l.uart)
    && l.read <= |input|
    && FeedAll(Plain, input[..l.read]).0 == l.mode
    && FeedAll(Plain, input[..l.read]).1 == l.uart.pushed + InHand(l.uart.prod)
  }

  lemma LinkStepInv(input: seq<u8>, l: Link, a: LinkAction)
    requires LinkInv(input, l) && LinkEnabled(input, l, a)
    ensures LinkInv(input, LinkStep(input, l, a))
  {
    hide Inv;
    match a
    case Key =>
      var b := input[l.read];
      FeedAllConcat(Plain, input[..l.read], [b]);
      assert input[..l.read + 1] == input[..l.read] + [b];
      FeedOne(l.mode, b);
      if Feed(l.mode, b).1 != [] {
        Uart.StepInv(l.uart, Push(b));
        assert Uart.Step(l.uart, Push(b)).pushed + [b] == l.uart.pushed + [] + [b];
      } else {
        assert l.uart.pushed + [] + [] == l.uart.pushed + [];
      }
    case Ring(b) =>
      Uart.StepInv(l.uart, b);
      var u' := Uart.Step(l.uart, b);
      assert u'.pushed + InHand(u'.prod) == l.uart.pushed + InHand(l.uart.prod);
  }

  lemma {:induction false} LinkRunInv(input: seq<u8>, trace: seq<Link>, acts: seq<LinkAction>, k: nat)
    requires IsLinkRun(input, trace, acts) && k < |trace|
    ensures LinkInv(input, trace[k])
  {
    if k == 0 {
    } else {
      LinkRunInv(input, trace, acts, k - 1);
      assert LinkMove(input, trace, acts, k - 1);
      LinkStepInv(input, trace[k - 1], acts[k - 1]);
    }
  }

  /** What received, held and in hand amount to in one state. */
  lemma LinkHolds(input: seq<u8>, l: Link)
    requires LinkInv(input, l)
    ensures |l.uart.ring.buf| == 4096 && l.read <= |input|
    ensures l.uart.popped + Contents(l.uart.ring) + InHand(l.uart.prod) == Filter(input[..l.read])
    ensures l.uart.popped <= Filter(input[..l.read])
  {
    hide Inv, FeedAll, Filter, Contents;
    PushedIsPoppedAndHeld(l.uart);
    MachineIsFilter(input[..l.read]);
    var held, hand := Contents(l.uart.ring), InHand(l.uart.prod);
    assert l.uart.popped + held + hand == l.uart.popped + (held + hand);
  }

  /**
   In every interleaving of host and guest, what the guest has received is a prefix of the
   filtered input: what it received, what the ring holds and the character in hand make up the
   filter of the bytes typed so far.
   */
  lemma GuestReceivesFiltered(input: seq<u8>, trace: seq<Link>, acts: seq<LinkAction>, k: nat)
    requires IsLinkRun(input, trace, acts) && k < |trace|
    ensures var l := trace[k];
      && |l.uart.ring.buf| == 4096 && l.read <= |input|
      && l.uart.popped + Contents(l.uart.ring) + InHand(l.uart.prod) == Filter(input[..l.read])
      && l.uart.popped <= Filter(input)
  {
    hide IsLinkRun, LinkInv, Filter, Contents;
    LinkRunInv(input, trace, acts, k);
    var l := trace[k];
    LinkHolds(input, l);
    FilterMonotone(input[..l.read], input[l.read..]);
    assert input == input[..l.read] + input[l.read..];
  }

  /** The host reads no further than the byte that ends the session. */
  lemma {:induction false} StopsAtQuit(input: seq<u8>, trace: seq<Link>, acts: seq<LinkAction>, k: nat)
    requires IsLinkRun(input, trace, acts) && k < |trace|
    ensures trace[k].read <= |input|
    ensures trace[k].mode == Ended ==>
      trace[k].read > 0 && Quits(input[..trace[k].read]) && !Quits(input[..trace[k].read - 1])
  {
    LinkRunInv(input, trace, acts, k);
    if k == 0 {
    } else {
      StopsAtQuit(input, trace, acts, k - 1);
      LinkRunInv(input, trace, acts, k - 1);
      assert LinkMove(input, trace, acts, k - 1);
      MachineIsFilter(input[..trace[k].read]);
      MachineIsFilter(input[..trace[k - 1].read]);
      hide IsLinkRun, FeedAll, Filter, Inv;
    }
  }

  // ---------------------------------------------------------------- and all of it arrives

  /** The host has nothing left to read, or has left the loop, and nothing in hand. */
  predicate HostDone(input: seq<u8>, l: Link) {
    l.uart.prod.Resting? && (l.read == |input| || l.mode == Ended)
  }

  predicate Delivered(input: seq<u8>, l: Link) {
    HostDone(input, l) && |l.uart.popped| == |l.uart.pushed|
  }

  /** Bytes read, pushed and popped. */
  function Moved(l: Link): nat { l.read + |l.uart.pushed| + |l.uart.popped| }

  predicate ByHost(a: LinkAction) { a.Key? || a.a.ProducerStep? }

  predicate ByGuest(a: LinkAction) { a.Ring? && a.a.ConsumerStep? }

  function HostSteps(acts: seq<LinkAction>, i: nat, k: nat): nat
    requires i <= k <= |acts|
    decreases k - i
  {
    if i == k then 0 else HostSteps(acts, i, k - 1) + if ByHost(acts[k - 1]) then 1 else 0
  }

  function GuestSteps(acts: seq<LinkAction>, i: nat, k: nat): nat
    requires i <= k <= |acts|
    decreases k - i
  {
    if i == k then 0 else GuestSteps(acts, i, k - 1) + if ByGuest(acts[k - 1]) then 1 else 0
  }

  /**
   From `i` to `k` both sides have had a turn: five steps of the guest, none of them to look again,
   and four of the host unless it is done.
   */
  ghost predicate Round(input: seq<u8>, trace: seq<Link>, acts: seq<LinkAction>, i: nat, k: nat) {
    && i <= k < |trace| && k <= |acts|
    && (forall j | i <= j < k :: acts[j].Ring? ==> !acts[j].a.Recheck?)
    && GuestSteps(acts, i, k) >= 5
    && (HostSteps(acts, i, k) >= 4 || HostDone(input, trace[k]))
  }

  lemma MovesOn(input: seq<u8>, l: Link, a: LinkAction)
    requires LinkInv(input, l) && LinkEnabled(input, l, a)
    ensures var l' := LinkStep(input, l, a);
      && l.read <= l'.read && |l.uart.pushed| <= |l'.uart.pushed| && |l.uart.popped| <= |l'.uart.popped|
      && (a.Key? ==> Moved(l') > Moved(l))
      && (HostDone(input, l) ==> HostDone(input, l') && l'.uart.pushed == l.uart.pushed)
  {
    hide At, FeedAll;
  }

  /** A step that moves nothing on brings the producer nearer to a push, or the consumer nearer to a pop. */
  lemma StillWorks(input: seq<u8>, l: Link, a: LinkAction)
    requires LinkInv(input, l) && LinkEnabled(input, l, a) && Moved(LinkStep(input, l, a)) == Moved(l)
    requires a.Ring? ==> !a.a.Recheck?
    ensures var u, u' := l.uart, LinkStep(input, l, a).uart;
      && !a.Key?
      && (|u.pushed| == |u.popped| ==> PushWork(u') == PushWork(u) + if ByHost(a) then 1 else 0)
      && (|u.pushed| > |u.popped| ==> PopWork(u') == PopWork(u) + if ByGuest(a) then 1 else 0)
  {
    MovesOn(input, l, a);
    hide FeedAll, Inv, Uart.Step, PushWork, PopWork, Contents;
    PushedIsPoppedAndHeld(l.uart);
    if |l.uart.pushed| == |l.uart.popped| {
      PushAdvances(l.uart, a.a);
    } else if |l.uart.pushed| > |l.uart.popped| {
      PopAdvances(l.uart, a.a);
    }
  }

  /** A stretch in which nothing is read, pushed or popped is all preparation. */
  lemma {:induction false} Idling(input: seq<u8>, trace: seq<Link>, acts: seq<LinkAction>, i: nat, k: nat)
    requires IsLinkRun(input, trace, acts) && i <= k < |trace|
    requires forall j | i <= j < k :: acts[j].Ring? ==> !acts[j].a.Recheck?
    ensures Moved(trace[i]) <= Moved(trace[k])
    ensures Moved(trace[i]) == Moved(trace[k]) ==>
      var u, u' := trace[i].uart, trace[k].uart;
      && |u'.pushed| == |u.pushed| && |u'.popped| == |u.popped|
      && (|u.pushed| == |u.popped| ==> PushWork(u') == PushWork(u) + HostSteps(acts, i, k))
      && (|u.pushed| > |u.popped| ==> PopWork(u') == PopWork(u) + GuestSteps(acts, i, k))
    decreases k
  {
    if i == k {
    } else {
      Idling(input, trace, acts, i, k - 1);
      LinkRunInv(input, trace, acts, k - 1);
      assert LinkMove(input, trace, acts, k - 1);
      hide IsLinkRun, LinkInv, LinkEnabled, LinkStep, PushWork, PopWork, ByHost, ByGuest, HostDone;
      MovesOn(input, trace[k - 1], acts[k - 1]);
      if Moved(trace[i]) == Moved(trace[k]) {
        StillWorks(input, trace[k - 1], acts[k - 1]);
      }
    }
  }

  /** So after a round all is delivered, or something more has been read, pushed or popped. */
  lemma RoundMoves(input: seq<u8>, trace: seq<Link>, acts: seq<LinkAction>, i: nat, k: nat)
    requires IsLinkRun(input, trace, acts) && Round(input, trace, acts, i, k)
    ensures Delivered(input, trace[k]) || Moved(trace[k]) > Moved(trace[i])
  {
    Idling(input, trace, acts, i, k);
    LinkRunInv(input, trace, acts, i);
    hide IsLinkRun, At;
    assert |trace[i].uart.popped| <= |trace[i].uart.pushed|;
  }

  lemma {:induction false} DeliveredStays(input: seq<u8>, trace: seq<Link>, acts: seq<LinkAction>, i: nat, k: nat)
    requires IsLinkRun(input, trace, acts) && i <= k < |trace| && Delivered(input, trace[i])
    ensures Delivered(input, trace[k])
    decreases k
  {
    if i == k {
    } else {
      DeliveredStays(input, trace, acts, i, k - 1);
      LinkRunInv(input, trace, acts, k - 1);
      LinkRunInv(input, trace, acts, k);
      assert LinkMove(input, trace, acts, k - 1);
      MovesOn(input, trace[k - 1], acts[k - 1]);
      hide IsLinkRun, LinkEnabled, LinkStep, FeedAll, At;
      assert |trace[k].uart.popped| <= |trace[k].uart.pushed|;
    }
  }

  lemma {:induction false} FeedAllShrinks(m: Mode, s: seq<u8>)
    ensures |FeedAll(m, s).1| <= |s|
    decreases |s|
  {
    if s == [] {
    } else {
      FeedAllShrinks(Feed(m, s[0]).0, s[1..]);
    }
  }

  lemma MovedBound(input: seq<u8>, l: Link)
    requires LinkInv(input, l)
    ensures Moved(l) <= 3 * |input|
  {
    FeedAllShrinks(Plain, input[..l.read]);
    hide FeedAll, At;
  }

  /** When all is delivered, the guest has the filter of the whole input. */
  lemma DeliveredIsFilter(input: seq<u8>, l: Link)
    requires LinkInv(input, l) && Delivered(input, l)
    ensures l.uart.popped == Filter(input)
  {
    LinkHolds(input, l);
    MachineIsFilter(input[..l.read]);
    assert input == input[..l.read] + input[l.read..];
    if l.mode == Ended {
      NothingAfterQuit(input[..l.read], input[l.read..]);
    } else {
      assert input[..l.read] == input;
    }
    hide FeedAll, Filter, At;
    assert l.uart.popped == l.uart.pushed;
  }

  lemma {:induction false} RoundsMove(input: seq<u8>, trace: seq<Link>, acts: seq<LinkAction>, marks: seq<nat>, n: nat)
    requires IsLinkRun(input, trace, acts) && n < |marks| && forall m | 0 <= m < |marks| :: marks[m] < |trace|
    requires forall m | 0 <= m < |marks| - 1 :: Round(input, trace, acts, marks[m], marks[m + 1])
    ensures Delivered(input, trace[marks[n]]) || Moved(trace[marks[n]]) >= n
  {
    if n == 0 {
    } else {
      RoundsMove(input, trace, acts, marks, n - 1);
      assert Round(input, trace, acts, marks[n - 1], marks[n]);
      RoundMoves(input, trace, acts, marks[n - 1], marks[n]);
      if Delivered(input, trace[marks[n - 1]]) {
        DeliveredStays(input, trace, acts, marks[n - 1], marks[n]);
      }
    }
  }

  /**
   If both sides keep stepping, all of the filtered input arrives, and no later than after three
   rounds for each byte typed and one more.
   */
  lemma EverythingArrives(input: seq<u8>, trace: seq<Link>, acts: seq<LinkAction>, marks: seq<nat>)
    requires IsLinkRun(input, trace, acts) && |marks| > 3 * |input| + 1
    requires forall m | 0 <= m < |marks| :: marks[m] < |trace|
    requires forall m | 0 <= m < |marks| - 1 :: Round(input, trace, acts, marks[m], marks[m + 1])
    ensures trace[marks[|marks| - 1]].uart.popped == Filter(input)
  {
    var n := |marks| - 1;
    RoundsMove(input, trace, acts, marks, n);
    LinkRunInv(input, trace, acts, marks[n]);
    hide IsLinkRun, LinkInv, Round, Delivered, Moved, Filter;
    MovedBound(input, trace[marks[n]]);
    DeliveredIsFilter(input, trace[marks[n]]);
  }
}

/**
 Whether overlapping calls can drive an output faster than both where it started and where it is
 going: the exact condition on the dividers at the start and at the target.
 */
module PllOvershoot {
  import opened Words
  import opened Pll
  import opened PllRace
  import PllRamp

  /** What the two registers hold. */
  function Now(s: Race): (r: Regs)
    ensures |r.post| == 4
  {
    Decode(s.cntl5, s.cntl1)
  }

  ghost predicate Monotone(eff: u8 -> real) {
    (forall d: u8 :: eff(d) > 0.0) && forall a: u8, b: u8 :: a <= b ==> eff(a) <= eff(b)
  }

  /** Output `i` runs faster than at the start and faster than at the target. */
  ghost predicate Overshoots(eff: u8 -> real, r0: Regs, t: Target, r: Regs, i: nat)
    requires Sized(r0, t) && Sized(r, t) && i < 4 && Monotone(eff)
  {
    Ratio(eff, r, i) > Ratio(eff, r0, i) && Ratio(eff, r, i) > t.fbdiv as real / eff(t.post[i])
  }

  /** The feedback divider falls by one only, so that nobody has a stale value between to write. */
  predicate LastFall(r0: Regs, t: Target, i: nat)
    requires Sized(r0, t) && i < 4
  {
    t.post[i] < r0.post[i] && r0.fbdiv as int == t.fbdiv as int + 1
  }

  /** Post-divider `i` rises by one only and is the first to rise, so that every write has it risen. */
  predicate FirstRise(r0: Regs, t: Target, i: nat)
    requires Sized(r0, t) && i < 4
  {
    r0.fbdiv < t.fbdiv && t.post[i] as int == r0.post[i] as int + 1 && forall j | 0 <= j < i :: t.post[j] <= r0.post[j]
  }

  /** The dividers of output `i` move in opposite directions, if at all, or one of them has no way to be stale. */
  predicate Safe(r0: Regs, t: Target, i: nat)
    requires Sized(r0, t) && i < 4
  {
    || (r0.fbdiv <= t.fbdiv && t.post[i] <= r0.post[i])
    || (t.fbdiv <= r0.fbdiv && r0.post[i] <= t.post[i])
    || LastFall(r0, t, i)
    || FirstRise(r0, t, i)
  }

  // ---------------------------------------------------------------- safe starts

  ghost predicate Between(a: int, b: int, x: int) { a <= x <= b || b <= x <= a }

  ghost predicate Inside(r0: Regs, t: Target, r: Regs) {
    && Sized(r0, t) && Sized(r, t) && Between(r0.fbdiv, t.fbdiv, r.fbdiv)
    && forall j | 0 <= j < 4 :: Between(r0.post[j], t.post[j], r.post[j])
  }

  /** A copy is between start and target, and if it has moved so have the registers, as far as that matters. */
  ghost predicate CopyOk(r0: Regs, t: Target, i: nat, reg: Regs, copy: Regs) {
    && i < 4 && Inside(r0, t, reg) && Inside(r0, t, copy)
    && (LastFall(r0, t, i) && (copy.post[i] < r0.post[i] || copy.fbdiv == t.fbdiv) ==> reg.fbdiv == t.fbdiv)
    && (FirstRise(r0, t, i) && (copy.fbdiv > r0.fbdiv || copy.post[i] == t.post[i]) ==> reg.post[i] == t.post[i])
  }

  /** The registers after a call with this copy has made its next write. */
  function Written(reg: Regs, copy: Regs, copy': Regs): Regs {
    if copy'.post != copy.post then reg.(post := copy'.post) else reg.(fbdiv := copy'.fbdiv)
  }

  lemma NextInside(r0: Regs, t: Target, copy: Regs)
    requires Inside(r0, t, copy) && !AtTarget(copy, t)
    ensures Inside(r0, t, Next(copy, t))
  {
    hide Next;
    NextMovesOne(copy, t);
    var c := Next(copy, t);
    if j :| 0 <= j < 4 && MovesPost(copy, t, c, j) {
      assert Between(r0.post[j], t.post[j], copy.post[j]);
      forall m | 0 <= m < 4
        ensures Between(r0.post[m], t.post[m], c.post[m])
      {
        assert m != j ==> c.post[m] == copy.post[m];
      }
    }
  }

  /**
   A call that moves the feedback divider has risen with post-divider `i`, one that lowers that has
   moved the feedback divider, and the first post-divider to rise is the first it writes.
   */
  lemma NextOrder(t: Target, copy: Regs, i: nat)
    requires Sized(copy, t) && i < 4 && !AtTarget(copy, t)
    ensures var c := Next(copy, t);
      && (c.fbdiv != copy.fbdiv ==> c.post == copy.post && copy.post[i] >= t.post[i])
      && (c.post[i] < copy.post[i] ==> copy.fbdiv == t.fbdiv && copy.post[i] > t.post[i])
      && (copy.post[i] < t.post[i] && (forall j | 0 <= j < i :: copy.post[j] >= t.post[j]) ==>
            c.post[i] as int == copy.post[i] as int + 1)
      && (copy.post[i] == t.post[i] ==> c.post[i] == t.post[i])
      && (copy.fbdiv == t.fbdiv ==> c.fbdiv == t.fbdiv)
      && c.post[i] as int <= copy.post[i] as int + 1
  {
  }

  lemma WriteKeeps(r0: Regs, t: Target, i: nat, reg: Regs, copy: Regs, other: Regs)
    requires CopyOk(r0, t, i, reg, reg) && CopyOk(r0, t, i, reg, copy) && CopyOk(r0, t, i, reg, other)
    requires !AtTarget(copy, t)
    ensures var copy' := Next(copy, t);
      var reg' := Written(reg, copy, copy');
      CopyOk(r0, t, i, reg', reg') && CopyOk(r0, t, i, reg', copy') && CopyOk(r0, t, i, reg', other)
  {
    hide Next;
    var copy' := Next(copy, t);
    NextInside(r0, t, copy);
    NextOrder(t, copy, i);
    NextMovesOne(copy, t);
    assert Inside(r0, t, Written(reg, copy, copy'));
  }

  /** What a call will work from as far as it has read; the start, if it has read nothing. */
  function CopyOf(r0: Regs, x: Thread): Regs {
    match x
    case HasPost(post) => r0.(post := post)
    case Running(r) => r
    case _ => r0
  }

  ghost predicate RaceOk(s: Race, r0: Regs, t: Target, i: nat) {
    && Sized(r0, t) && Copies(s) && CopyOk(r0, t, i, Now(s), Now(s))
    && forall m | 0 <= m < |s.threads| :: CopyOk(r0, t, i, Now(s), CopyOf(r0, s.threads[m]))
  }

  /** Only the dividers matter. */
  lemma CopyOkSame(r0: Regs, t: Target, i: nat, reg: Regs, reg': Regs, copy: Regs, copy': Regs)
    requires CopyOk(r0, t, i, reg, copy)
    requires reg'.post == reg.post && reg'.fbdiv == reg.fbdiv && copy'.post == copy.post && copy'.fbdiv == copy.fbdiv
    ensures CopyOk(r0, t, i, reg', copy')
  {
  }

  lemma ReadKeeps(s: Race, r0: Regs, t: Target, i: nat, m: nat)
    requires RaceOk(s, r0, t, i) && m < |s.threads| && !s.threads[m].Running? && !s.threads[m].Finished?
    ensures RaceOk(ThreadStep(s, t, m), r0, t, i)
  {
    hide Decode;
    var s' := ThreadStep(s, t, m);
    DecodeApart(s.cntl5, s.cntl1, 0, 0);
    assert Now(s') == Now(s);
    assert CopyOk(r0, t, i, Now(s), CopyOf(r0, s.threads[m]));
    assert CopyOk(r0, t, i, Now(s'), CopyOf(r0, s'.threads[m]));
    assert forall j | 0 <= j < |s.threads| && j != m :: s'.threads[j] == s.threads[j];
  }

  lemma WriteKind(r: Regs, r': Regs)
    requires |r'.post| == 4
    ensures WriteOf(r, r').Cntl5? <==> r'.post != r.post
  {
  }

  /** The registers after a write, and the writer's copy. */
  lemma WriteMade(s: Race, t: Target, m: nat)
    requires |t.post| == 4 && Copies(s) && m < |s.threads| && s.threads[m].Running? && !AtTarget(s.threads[m].regs, t)
    ensures var s', r := ThreadStep(s, t, m), s.threads[m].regs;
      && |Next(r, t).post| == 4 && s'.threads == s.threads[m := Running(Next(r, t))]
      && Now(s').post == Written(Now(s), r, Next(r, t)).post && Now(s').fbdiv == Written(Now(s), r, Next(r, t)).fbdiv
      && Fixed(Now(s')) == (if Next(r, t).post != r.post then Fixed(Now(s)) else Fixed(r))
  {
    hide Decode, Next, WriteOf, Word5, Word1;
    var s', r := ThreadStep(s, t, m), s.threads[m].regs;
    var r' := Next(r, t);
    WriteShape(r, t);
    assert WriteOf(r, r').Cntl5? <==> r'.post != r.post by { WriteKind(r, r'); }
    DecodeWords(r');
    DecodeApart(s'.cntl5, s'.cntl1, Word5(r'), Word1(r'));
    DecodeApart(s.cntl5, s.cntl1, s'.cntl5, s'.cntl1);
    DecodeApart(s'.cntl5, s'.cntl1, s.cntl5, s.cntl1);
    DecodeApart(Word5(r'), Word1(r'), s'.cntl5, s'.cntl1);
  }

  lemma FinishKeeps(s: Race, r0: Regs, t: Target, i: nat, m: nat)
    requires RaceOk(s, r0, t, i) && m < |s.threads| && s.threads[m].Running? && AtTarget(s.threads[m].regs, t)
    ensures RaceOk(ThreadStep(s, t, m), r0, t, i)
  {
    var s' := ThreadStep(s, t, m);
    assert Now(s') == Now(s);
    assert CopyOk(r0, t, i, Now(s), r0) by {
      assert CopyOk(r0, t, i, Now(s), Now(s));
    }
    assert forall j | 0 <= j < |s.threads| && j != m :: s'.threads[j] == s.threads[j];
  }

  lemma StepKeeps(s: Race, r0: Regs, t: Target, i: nat, m: nat)
    requires RaceOk(s, r0, t, i) && m < |s.threads| && !s.threads[m].Finished?
    ensures RaceOk(ThreadStep(s, t, m), r0, t, i)
  {
    hide Decode, Next, Now, WriteOf, CopyOk;
    if !s.threads[m].Running? {
      ReadKeeps(s, r0, t, i, m);
    } else if AtTarget(s.threads[m].regs, t) {
      FinishKeeps(s, r0, t, i, m);
    } else {
      var s', r := ThreadStep(s, t, m), s.threads[m].regs;
      WriteMade(s, t, m);
      var reg' := Written(Now(s), r, Next(r, t));
      forall j | 0 <= j < |s.threads|
        ensures CopyOk(r0, t, i, Now(s'), CopyOf(r0, s'.threads[j]))
      {
        assert CopyOk(r0, t, i, Now(s), CopyOf(r0, s.threads[j])) && CopyOk(r0, t, i, Now(s), CopyOf(r0, s.threads[m]));
        WriteKeeps(r0, t, i, Now(s), r, CopyOf(r0, s.threads[j]));
        var copy := if j == m then Next(r, t) else CopyOf(r0, s.threads[j]);
        CopyOkSame(r0, t, i, reg', Now(s'), copy, copy);
      }
      assert CopyOk(r0, t, i, Now(s), CopyOf(r0, s.threads[m]));
      WriteKeeps(r0, t, i, Now(s), r, r);
      CopyOkSame(r0, t, i, reg', Now(s'), reg', Now(s'));
    }
  }

  lemma StartOk(r0: Regs, t: Target, i: nat)
    requires Sized(r0, t) && i < 4
    ensures CopyOk(r0, t, i, r0, r0)
  {
  }

  lemma {:induction false} RunKeeps(t: Target, trace: seq<Race>, who: seq<nat>, k: nat, i: nat)
    requires IsRace(t, trace, who) && k < |trace| && i < 4
    ensures RaceOk(trace[k], Now(trace[0]), t, i)
  {
    hide Now, CopyOk, ThreadStep;
    var r0 := Now(trace[0]);
    if k == 0 {
      assert CopyOk(r0, t, i, r0, r0) by { StartOk(r0, t, i); }
    } else {
      RunKeeps(t, trace, who, k - 1, i);
      assert RaceMove(t, trace, who, k - 1);
      StepKeeps(trace[k - 1], r0, t, i, who[k - 1]);
    }
  }

  lemma OkNow(s: Race, r0: Regs, t: Target, i: nat)
    requires RaceOk(s, r0, t, i)
    ensures CopyOk(r0, t, i, Now(s), Now(s))
  {
  }

  lemma OkRatio(eff: u8 -> real, r0: Regs, t: Target, r: Regs, i: nat)
    requires CopyOk(r0, t, i, r, r) && Safe(r0, t, i) && Monotone(eff)
    ensures !Overshoots(eff, r0, t, r, i)
  {
    assert Between(r0.post[i], t.post[i], r.post[i]);
    if r.fbdiv <= r0.fbdiv && r0.post[i] <= r.post[i] {
      QuotientOrder(r.fbdiv as real, eff(r.post[i]), r0.fbdiv as real, eff(r0.post[i]));
    } else {
      QuotientOrder(r.fbdiv as real, eff(r.post[i]), t.fbdiv as real, eff(t.post[i]));
    }
  }

  /** From a safe start no race overshoots, however many calls overlap. */
  lemma SafeNeverOvershoots(eff: u8 -> real, t: Target, trace: seq<Race>, who: seq<nat>, k: nat, i: nat)
    requires IsRace(t, trace, who) && k < |trace| && i < 4 && Monotone(eff)
    requires Safe(Now(trace[0]), t, i)
    ensures !Overshoots(eff, Now(trace[0]), t, Now(trace[k]), i)
  {
    RunKeeps(t, trace, who, k, i);
    hide Now, IsRace, RaceOk;
    assert CopyOk(Now(trace[0]), t, i, Now(trace[k]), Now(trace[k])) by { OkNow(trace[k], Now(trace[0]), t, i); }
    OkRatio(eff, Now(trace[0]), t, Now(trace[k]), i);
  }

  // ---------------------------------------------------------------- every other start

  lemma RaceExtends(t: Target, trace: seq<Race>, who: seq<nat>, m: nat) returns (trace': seq<Race>, who': seq<nat>)
    requires IsRace(t, trace, who) && |trace| == |who| + 1
    requires m < |trace[|who|].threads| && !trace[|who|].threads[m].Finished? && Copies(trace[|who|])
    ensures IsRace(t, trace', who') && |trace'| == |who'| + 1 && trace'[0] == trace[0]
    ensures trace'[|who'|] == ThreadStep(trace[|who|], t, m) && Copies(trace'[|who'|])
  {
    StepShrinks(trace[|who|], t, m);
    hide ThreadStep, Copies;
    trace', who' := trace + [ThreadStep(trace[|who|], t, m)], who + [m];
    forall k | 0 <= k < |who'|
      ensures RaceMove(t, trace', who', k)
    {
      assert k < |who| ==> RaceMove(t, trace, who, k);
    }
  }

  /** Call `m` is running, and its copies are what the registers hold. */
  ghost predicate UpToDate(s: Race, m: nat) {
    Copies(s) && m < |s.threads| && s.threads[m].Running? && s.threads[m].regs == Now(s)
  }

  ghost predicate OthersKept(s: Race, s': Race, m: nat) {
    |s'.threads| == |s.threads| && forall j | 0 <= j < |s.threads| && j != m :: s'.threads[j] == s.threads[j]
  }

  lemma ReadsNow(w5: u32, w1: u32)
    ensures Decode(0, w1).(post := Decode(w5, 0).post) == Decode(w5, w1)
  {
  }

  /** A call reads both registers. */
  lemma ReadBoth(t: Target, trace: seq<Race>, who: seq<nat>, m: nat) returns (trace': seq<Race>, who': seq<nat>)
    requires IsRace(t, trace, who) && |trace| == |who| + 1 && Copies(trace[|who|])
    requires m < |trace[|who|].threads| && trace[|who|].threads[m].NotStarted?
    ensures IsRace(t, trace', who') && |trace'| == |who'| + 1 && trace'[0] == trace[0]
    ensures var s, s' := trace[|who|], trace'[|who'|];
      UpToDate(s', m) && OthersKept(s, s', m) && Now(s') == Now(s)
  {
    hide IsRace, Decode;
    var s := trace[|who|];
    trace', who' := RaceExtends(t, trace, who, m);
    trace', who' := RaceExtends(t, trace', who', m);
    DecodeApart(s.cntl5, s.cntl1, 0, 0);
    DecodeApart(s.cntl5, s.cntl1, 0, s.cntl1);
    ReadsNow(s.cntl5, s.cntl1);
  }

  lemma SameRegs(r: Regs, r': Regs)
    requires r.post == r'.post && r.fbdiv == r'.fbdiv && Fixed(r) == Fixed(r')
    ensures r == r'
  {
  }

  /** A write by a call that is up to date leaves it up to date. */
  lemma StaysUpToDate(s: Race, t: Target, m: nat)
    requires UpToDate(s, m) && |t.post| == 4 && !AtTarget(Now(s), t)
    ensures var s' := ThreadStep(s, t, m);
      UpToDate(s', m) && OthersKept(s, s', m) && Now(s') == Next(Now(s), t)
  {
    StepShrinks(s, t, m);
    hide Now, Next, ThreadStep, Copies;
    WriteMade(s, t, m);
    NextMovesOne(Now(s), t);
    SameRegs(Now(ThreadStep(s, t, m)), Next(Now(s), t));
  }

  lemma StillRising(r: Regs, t: Target)
    requires Sized(r, t) && FirstBelow(r.post, t.post, 0) < 4
    ensures Next(r, t).fbdiv == r.fbdiv && !AtTarget(r, t)
  {
  }

  lemma NoneMoved(s: Race, m: nat)
    ensures OthersKept(s, s, m)
  {
  }

  lemma KeptTwice(s: Race, s': Race, s'': Race, m: nat)
    requires OthersKept(s, s', m) && OthersKept(s', s'', m)
    ensures OthersKept(s, s'', m)
  {
  }

  lemma MayStep(s: Race, m: nat)
    requires UpToDate(s, m)
    ensures Copies(s) && m < |s.threads| && s.threads[m].Running?
  {
  }

  /** An up-to-date call makes its writes alone: all of them, or those that raise post-dividers. */
  lemma {:induction false} RunAlone(t: Target, trace: seq<Race>, who: seq<nat>, m: nat, all: bool)
    returns (trace': seq<Race>, who': seq<nat>)
    requires IsRace(t, trace, who) && |trace| == |who| + 1 && UpToDate(trace[|who|], m)
    ensures IsRace(t, trace', who') && |trace'| == |who'| + 1 && trace'[0] == trace[0]
    ensures var s, s' := trace[|who|], trace'[|who'|];
      && UpToDate(s', m) && OthersKept(s, s', m)
      && (if all then AtTarget(Now(s'), t) else
            Now(s').fbdiv == Now(s).fbdiv && FirstBelow(Now(s').post, t.post, 0) == 4)
    decreases Distance(Now(trace[|who|]), t)
  {
    hide UpToDate, OthersKept, Now, ThreadStep, Distance, FirstBelow;
    var s := trace[|who|];
    if if all then AtTarget(Now(s), t) else FirstBelow(Now(s).post, t.post, 0) == 4 {
      trace', who' := trace, who;
      NoneMoved(s, m);
    } else {
      if !all {
        StillRising(Now(s), t);
      }
      assert !AtTarget(Now(s), t);
      MayStep(s, m);
      StaysUpToDate(s, t, m);
      NextMovesOne(Now(s), t);
      trace', who' := RaceExtends(t, trace, who, m);
      trace', who' := RunAlone(t, trace', who', m, all);
      KeptTwice(s, ThreadStep(s, t, m), trace'[|who'|], m);
    }
  }

  /** Two calls that have not begun. */
  function TwoCalls(w5: u32, w1: u32): Race { Race(w5, w1, [NotStarted, NotStarted]) }

  lemma StartTwo(t: Target, w5: u32, w1: u32) returns (trace: seq<Race>, who: seq<nat>)
    requires |t.post| == 4
    ensures IsRace(t, trace, who) && |trace| == |who| + 1 && trace[0] == trace[|who|] == TwoCalls(w5, w1)
    ensures Copies(trace[|who|])
  {
    trace, who := [TwoCalls(w5, w1)], [];
  }

  /** Divisors of 1 up to `d`, and of 3 above. */
  function Steep(d: int): (eff: u8 -> real)
    ensures Monotone(eff) && forall x: u8 :: eff(x) == if x <= d then 1.0 else 3.0
  {
    (x: u8) => if x <= d then 1.0 else 3.0
  }

  lemma NowIs(s: Race)
    ensures Now(s) == Decode(s.cntl5, s.cntl1)
  {
  }

  lemma LowersFb(c: Regs, t: Target)
    requires Sized(c, t) && FirstBelow(c.post, t.post, 0) == 4 && c.fbdiv > t.fbdiv
    ensures !AtTarget(c, t) && Next(c, t).post == c.post && Next(c, t).fbdiv as int == c.fbdiv as int - 1
  {
  }

  lemma UpToDateIs(s: Race, m: nat)
    requires UpToDate(s, m)
    ensures Copies(s) && m < |s.threads| && s.threads[m] == Running(Now(s))
  {
  }

  /**
   Both dividers fall: one call has read the registers and raised what it raises; another makes all
   its writes; the first then writes a feedback divider one below the start.
   */
  lemma StaleFall(t: Target, w5: u32, w1: u32, i: nat) returns (trace: seq<Race>, who: seq<nat>)
    requires |t.post| == 4 && i < 4
    requires var r0 := Decode(w5, w1); t.post[i] < r0.post[i] && r0.fbdiv >= t.fbdiv as int + 2
    ensures IsRace(t, trace, who) && |trace| == |who| + 1 && trace[0] == TwoCalls(w5, w1)
    ensures var r := Now(trace[|who|]);
      r.post[i] == t.post[i] && r.fbdiv as int == Decode(w5, w1).fbdiv as int - 1
  {
    hide IsRace, Decode, Now, UpToDate, FirstBelow, ThreadStep, Copies;
    trace, who := StartTwo(t, w5, w1);
    assert Now(trace[0]) == Decode(w5, w1) by { NowIs(trace[0]); }
    trace, who := ReadBoth(t, trace, who, 0);
    trace, who := RunAlone(t, trace, who, 0, false);
    var c := Now(trace[|who|]);
    assert trace[|who|].threads[0] == Running(c) && Copies(trace[|who|]) by { UpToDateIs(trace[|who|], 0); }
    trace, who := ReadBoth(t, trace, who, 1);
    MayStep(trace[|who|], 1);
    trace, who := RunAlone(t, trace, who, 1, true);
    var s := trace[|who|];
    MayStep(s, 1);
    assert s.threads[0] == Running(c);
    trace, who := RaceExtends(t, trace, who, 0);
    LowersFb(c, t);
    WriteMade(s, t, 0);
  }

  lemma RaisesFirst(r: Regs, t: Target, i: nat)
    requires Sized(r, t) && i < 4 && r.fbdiv < t.fbdiv && r.post[i] < t.post[i] && !FirstRise(r, t, i)
    ensures var c := Next(r, t);
      !AtTarget(r, t) && c.fbdiv == r.fbdiv && c.post != r.post && c.post[i] < t.post[i]
  {
    var up := FirstBelow(r.post, t.post, 0);
    assert up <= i;
    assert Next(r, t).post[up] as int == r.post[up] as int + 1;
  }

  /**
   Both dividers rise: one call has read the registers; another makes all its writes; the first then
   makes its first.
   */
  lemma StaleRise(t: Target, w5: u32, w1: u32, i: nat) returns (trace: seq<Race>, who: seq<nat>)
    requires |t.post| == 4 && i < 4
    requires var r0 := Decode(w5, w1);
      r0.fbdiv < t.fbdiv && r0.post[i] < t.post[i] && !FirstRise(r0, t, i)
    ensures IsRace(t, trace, who) && |trace| == |who| + 1 && trace[0] == TwoCalls(w5, w1)
    ensures var r := Now(trace[|who|]); r.post[i] < t.post[i] && r.fbdiv == t.fbdiv
  {
    hide IsRace, Decode, Now, UpToDate, FirstBelow, ThreadStep, Copies;
    var r0 := Decode(w5, w1);
    trace, who := StartTwo(t, w5, w1);
    assert Now(trace[0]) == r0 by { NowIs(trace[0]); }
    trace, who := ReadBoth(t, trace, who, 0);
    UpToDateIs(trace[|who|], 0);
    trace, who := ReadBoth(t, trace, who, 1);
    trace, who := RunAlone(t, trace, who, 1, true);
    var s := trace[|who|];
    MayStep(s, 1);
    assert s.threads[0] == Running(r0);
    trace, who := RaceExtends(t, trace, who, 0);
    RaisesFirst(r0, t, i);
    WriteMade(s, t, 0);
  }

  /** From any other start two calls can overshoot, for some monotone divisor function. */
  lemma UnsafeOvershoots(t: Target, w5: u32, w1: u32, i: nat)
    returns (eff: u8 -> real, trace: seq<Race>, who: seq<nat>)
    requires |t.post| == 4 && i < 4 && !Safe(Decode(w5, w1), t, i)
    ensures Monotone(eff) && IsRace(t, trace, who) && |trace| == |who| + 1 && trace[0] == TwoCalls(w5, w1)
    ensures Overshoots(eff, Now(trace[0]), t, Now(trace[|who|]), i)
  {
    hide IsRace, Decode;
    var r0 := Decode(w5, w1);
    if t.post[i] < r0.post[i] {
      eff := Steep(t.post[i]);
      trace, who := StaleFall(t, w5, w1, i);
    } else {
      eff := Steep(t.post[i] - 1);
      trace, who := StaleRise(t, w5, w1, i);
    }
  }

  /** The exact condition: races from these registers never overshoot at output `i` if and only if the start is safe. */
  lemma RaceOvershootsIff(t: Target, w5: u32, w1: u32, i: nat)
    requires |t.post| == 4 && i < 4
    ensures Safe(Decode(w5, w1), t, i) <==>
      forall eff: u8 -> real, trace: seq<Race>, who: seq<nat>, k: nat ::
        Monotone(eff) && IsRace(t, trace, who) && k < |trace| && Now(trace[0]) == Decode(w5, w1) ==>
          !Overshoots(eff, Now(trace[0]), t, Now(trace[k]), i)
  {
    hide IsRace, Safe, Overshoots, Decode;
    if Safe(Decode(w5, w1), t, i) {
      forall eff: u8 -> real, trace: seq<Race>, who: seq<nat>, k: nat |
        Monotone(eff) && IsRace(t, trace, who) && k < |trace| && Now(trace[0]) == Decode(w5, w1)
        ensures !Overshoots(eff, Now(trace[0]), t, Now(trace[k]), i)
      {
        SafeNeverOvershoots(eff, t, trace, who, k, i);
      }
    } else {
      var eff, trace, who := UnsafeOvershoots(t, w5, w1, i);
    }
  }

  /** At the target of `set_frequency`, with no post-divider at 0: where two calls can overshoot. */
  lemma AtDefaultTarget(r0: Regs, i: nat)
    requires |r0.post| == 4 && i < 4 && r0.post[i] >= 1
    ensures Safe(r0, PllRamp.DEFAULT_1750_MHZ, i) <==> r0.fbdiv <= 141 || r0.post[i] == 1
  {
  }
}

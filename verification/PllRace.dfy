/**
 Several threads construct an `L2CPU` at once, and each runs the ramp on its own copy of the
 registers, copies that other threads' writes make stale. One step is one register access.
 */
module PllRace {
  import opened Words
  import opened Pll

  datatype Thread =
    | NotStarted
    | HasPost(post: seq<u8>)          // has read PLL_CNTL_5
    | Running(regs: Regs)             // has read both; the copies it works from
    | Finished

  /** The two registers, as words, and the threads. */
  datatype Race = Race(cntl5: u32, cntl1: u32, threads: seq<Thread>)

  function ThreadStep(s: Race, t: Target, i: nat): Race
    requires |t.post| == 4 && i < |s.threads| && (s.threads[i].Running? ==> |s.threads[i].regs.post| == 4)
  {
    match s.threads[i]
    case NotStarted => s.(threads := s.threads[i := HasPost(Decode(s.cntl5, 0).post)])
    case HasPost(post) => s.(threads := s.threads[i := Running(Decode(0, s.cntl1).(post := post))])
    case Running(r) =>
      if AtTarget(r, t) then s.(threads := s.threads[i := Finished])
      else
        var r' := Next(r, t);
        var s' := s.(threads := s.threads[i := Running(r')]);
        (match WriteOf(r, r')
         case Cntl5(w) => s'.(cntl5 := w)
         case Cntl1(w) => s'.(cntl1 := w))
    case Finished => s
  }

  ghost predicate Copies(s: Race) {
    forall i | 0 <= i < |s.threads| ::
      && (s.threads[i].HasPost? ==> |s.threads[i].post| == 4)
      && (s.threads[i].Running? ==> |s.threads[i].regs.post| == 4)
  }

  ghost predicate RaceMove(t: Target, trace: seq<Race>, who: seq<nat>, k: nat)
    requires k < |who| && |trace| == |who| + 1 && |t.post| == 4
  {
    && who[k] < |trace[k].threads| && !trace[k].threads[who[k]].Finished? && Copies(trace[k])
    && trace[k + 1] == ThreadStep(trace[k], t, who[k])
  }

  /** Any number of threads, from any register contents, in any interleaving. */
  ghost predicate IsRace(t: Target, trace: seq<Race>, who: seq<nat>) {
    && |t.post| == 4 && |trace| == |who| + 1
    && trace[0].threads != [] && (forall i | 0 <= i < |trace[0].threads| :: trace[0].threads[i].NotStarted?)
    && forall k | 0 <= k < |who| :: RaceMove(t, trace, who, k)
  }

  // ---------------------------------------------------------------- invariant

  /** Thread `x` will read PLL_CNTL_5 or has post-dividers left to move. */
  predicate Owes5(x: Thread, t: Target) {
    match x
    case NotStarted => true
    case HasPost(post) => post != t.post
    case Running(r) => r.post != t.post
    case Finished => false
  }

  predicate Owes1(x: Thread, t: Target) {
    match x
    case NotStarted => true
    case HasPost(_) => true
    case Running(r) => r.fbdiv != t.fbdiv
    case Finished => false
  }

  /** The fields of PLL_CNTL_1 that no ramp moves. */
  function Fixed(r: Regs): (u8, u8) { (r.refdiv, r.postdiv1) }

  /** A register away from its target has some thread that still owes it a write. */
  ghost predicate Inv(s: Race, t: Target, fixed: (u8, u8)) {
    && |t.post| == 4 && Copies(s)
    && (Decode(s.cntl5, s.cntl1).post == t.post || exists i :: 0 <= i < |s.threads| && Owes5(s.threads[i], t))
    && (Decode(s.cntl5, s.cntl1).fbdiv == t.fbdiv || exists i :: 0 <= i < |s.threads| && Owes1(s.threads[i], t))
    && Fixed(Decode(s.cntl5, s.cntl1)) == fixed
    && forall i | 0 <= i < |s.threads| && s.threads[i].Running? :: Fixed(s.threads[i].regs) == fixed
  }

  lemma DecodeApart(w5: u32, w1: u32, v5: u32, v1: u32)
    ensures Decode(w5, w1).post == Decode(w5, v1).post
    ensures Decode(w5, w1).fbdiv == Decode(v5, w1).fbdiv && Fixed(Decode(w5, w1)) == Fixed(Decode(v5, w1))
  {
  }

  lemma ReadInv(s: Race, t: Target, fixed: (u8, u8), i: nat)
    requires Inv(s, t, fixed) && i < |s.threads| && (s.threads[i].NotStarted? || s.threads[i].HasPost?)
    ensures Inv(ThreadStep(s, t, i), t, fixed)
  {
    hide Decode;
    var s' := ThreadStep(s, t, i);
    DecodeApart(s.cntl5, s.cntl1, 0, 0);
    assert forall j | 0 <= j < |s.threads| && j != i :: s'.threads[j] == s.threads[j];
    assert s.threads[i].NotStarted? ==> Owes1(s'.threads[i], t);
    assert Decode(s.cntl5, s.cntl1).fbdiv != t.fbdiv ==> Owes1(s'.threads[i], t);
    assert Decode(s.cntl5, s.cntl1).post != t.post && s.threads[i].NotStarted? ==> Owes5(s'.threads[i], t);
    assert s.threads[i].HasPost? ==> Owes5(s'.threads[i], t) == Owes5(s.threads[i], t);
    if j :| 0 <= j < |s.threads| && Owes5(s.threads[j], t) {
      assert j != i ==> Owes5(s'.threads[j], t);
    }
    if j :| 0 <= j < |s.threads| && Owes1(s.threads[j], t) {
      assert j != i ==> Owes1(s'.threads[j], t);
    }
  }

  /** A step of the ramp either writes PLL_CNTL_5 and moves post-dividers, or PLL_CNTL_1 and the feedback divider. */
  lemma WriteShape(r: Regs, t: Target)
    requires Sized(r, t) && !AtTarget(r, t)
    ensures var r' := Next(r, t);
      && Fixed(r') == Fixed(r)
      && (match WriteOf(r, r')
          case Cntl5(w) => w == Word5(r') && r'.fbdiv == r.fbdiv
          case Cntl1(w) => w == Word1(r') && r'.post == r.post)
  {
    hide Next, Word5, Word1;
    NextMovesOne(r, t);
  }

  lemma WriteInv(s: Race, t: Target, fixed: (u8, u8), i: nat)
    requires Inv(s, t, fixed) && i < |s.threads| && s.threads[i].Running?
    ensures Inv(ThreadStep(s, t, i), t, fixed)
  {
    hide Decode, Next, WriteOf, Word5, Word1;
    var s', r := ThreadStep(s, t, i), s.threads[i].regs;
    assert forall j | 0 <= j < |s.threads| && j != i :: s'.threads[j] == s.threads[j];
    if !AtTarget(r, t) {
      var r' := Next(r, t);
      assert s'.threads[i] == Running(r');
      WriteShape(r, t);
      DecodeWords(r');
      DecodeApart(s'.cntl5, s'.cntl1, Word5(r'), Word1(r'));
      DecodeApart(s.cntl5, s.cntl1, s'.cntl5, s'.cntl1);
      DecodeApart(s'.cntl5, s'.cntl1, s.cntl5, s.cntl1);
      DecodeApart(Word5(r'), Word1(r'), s'.cntl5, s'.cntl1);
    }
    if j :| 0 <= j < |s.threads| && Owes5(s.threads[j], t) {
      assert j != i ==> Owes5(s'.threads[j], t);
    }
    if j :| 0 <= j < |s.threads| && Owes1(s.threads[j], t) {
      assert j != i ==> Owes1(s'.threads[j], t);
    }
  }

  lemma {:induction false} RaceInv(t: Target, trace: seq<Race>, who: seq<nat>, k: nat)
    requires IsRace(t, trace, who) && k < |trace|
    ensures Inv(trace[k], t, Fixed(Decode(trace[0].cntl5, trace[0].cntl1)))
    ensures |trace[k].threads| == |trace[0].threads|
  {
    hide Decode;
    var fixed := Fixed(Decode(trace[0].cntl5, trace[0].cntl1));
    if k == 0 {
      assert Owes5(trace[0].threads[0], t) && Owes1(trace[0].threads[0], t);
    } else {
      RaceInv(t, trace, who, k - 1);
      assert RaceMove(t, trace, who, k - 1);
      var s, i := trace[k - 1], who[k - 1];
      hide Inv;
      if s.threads[i].Running? {
        WriteInv(s, t, fixed, i);
      } else {
        ReadInv(s, t, fixed, i);
      }
    }
  }

  // ---------------------------------------------------------------- theorems

  /**
   However many calls overlap and however stale their copies, once all of them have finished
   both registers hold the target dividers, and the other bytes of PLL_CNTL_1 never changed.
   */
  lemma RaceConverges(t: Target, trace: seq<Race>, who: seq<nat>, k: nat)
    requires IsRace(t, trace, who) && k < |trace|
    ensures Fixed(Decode(trace[k].cntl5, trace[k].cntl1)) == Fixed(Decode(trace[0].cntl5, trace[0].cntl1))
    ensures (forall i | 0 <= i < |trace[k].threads| :: trace[k].threads[i].Finished?)
            ==> AtTarget(Decode(trace[k].cntl5, trace[k].cntl1), t)
  {
    hide Decode;
    RaceInv(t, trace, who, k);
  }

  /** Steps a thread has left, at most. */
  function Left(x: Thread, t: Target): nat
    requires |t.post| == 4 && (x.Running? ==> |x.regs.post| == 4)
  {
    match x
    case NotStarted => 66558
    case HasPost(_) => 66557
    case Running(r) => Distance(r, t) + 1
    case Finished => 0
  }

  lemma DistanceBound(r: Regs, t: Target)
    requires Sized(r, t)
    ensures Distance(r, t) <= 66555
  {
  }

  /** Steps all threads have left, at most. */
  ghost function Total(threads: seq<Thread>, t: Target): nat
    requires |t.post| == 4 && forall i | 0 <= i < |threads| :: threads[i].Running? ==> |threads[i].regs.post| == 4
  {
    if threads == [] then 0 else Left(threads[0], t) + Total(threads[1..], t)
  }

  lemma {:induction false} TotalUpdate(threads: seq<Thread>, t: Target, i: nat, x: Thread)
    requires |t.post| == 4 && i < |threads| && (x.Running? ==> |x.regs.post| == 4)
    requires forall j | 0 <= j < |threads| :: threads[j].Running? ==> |threads[j].regs.post| == 4
    ensures Total(threads[i := x], t) == Total(threads, t) - Left(threads[i], t) + Left(x, t)
  {
    if i > 0 {
      assert threads[i := x][1..] == threads[1..][i - 1 := x];
      TotalUpdate(threads[1..], t, i - 1, x);
    } else {
      assert threads[i := x][1..] == threads[1..];
    }
  }

  lemma StepShrinks(s: Race, t: Target, i: nat)
    requires |t.post| == 4 && Copies(s) && i < |s.threads| && !s.threads[i].Finished?
    ensures var s' := ThreadStep(s, t, i); Copies(s') && Total(s'.threads, t) < Total(s.threads, t)
  {
    hide Next, Decode, Distance, WriteOf;
    var s' := ThreadStep(s, t, i);
    assert s'.threads == s.threads[i := s'.threads[i]];
    match s.threads[i] {
      case HasPost(_) => DistanceBound(s'.threads[i].regs, t);
      case Running(r) => if !AtTarget(r, t) { NextMovesOne(r, t); }
      case _ =>
    }
    TotalUpdate(s.threads, t, i, s'.threads[i]);
  }

  lemma {:induction false} TotalAtStart(threads: seq<Thread>, t: Target)
    requires |t.post| == 4 && forall i | 0 <= i < |threads| :: threads[i].NotStarted?
    ensures Total(threads, t) == 66558 * |threads|
  {
    if threads == [] {
    } else {
      TotalAtStart(threads[1..], t);
    }
  }

  /** No interleaving goes on for ever: `n` calls are over after at most `66558 * n` steps. */
  lemma {:induction false} RaceTerminates(t: Target, trace: seq<Race>, who: seq<nat>, k: nat)
    requires IsRace(t, trace, who) && k < |trace|
    ensures Copies(trace[k]) && Total(trace[k].threads, t) + k <= 66558 * |trace[0].threads|
    ensures k <= 66558 * |trace[0].threads|
  {
    if k == 0 {
      TotalAtStart(trace[0].threads, t);
    } else {
      RaceTerminates(t, trace, who, k - 1);
      assert RaceMove(t, trace, who, k - 1);
      StepShrinks(trace[k - 1], t, who[k - 1]);
    }
  }
}

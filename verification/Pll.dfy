/**
 The PLL ramp: what register contents it goes through, one write at a time. Both programs that
 run it, `L2CPU::set_frequency` and `set_l2cpu_pll`, and any number of them at once, follow `Next`.
 */
module Pll {
  import opened Words

  /** The four post-dividers of PLL_CNTL_5, and the bytes and halfword of PLL_CNTL_1. */
  datatype Regs = Regs(post: seq<u8>, refdiv: u8, postdiv1: u8, fbdiv: u16)

  datatype Target = Target(fbdiv: u16, post: seq<u8>)

  datatype Write = Cntl5(word: u32) | Cntl1(word: u32)

  predicate Sized(r: Regs, t: Target) { |r.post| == |t.post| == 4 }

  predicate AtTarget(r: Regs, t: Target) { r.post == t.post && r.fbdiv == t.fbdiv }

  // ---------------------------------------------------------------- register words

  function Word5(r: Regs): u32
    requires |r.post| == 4
  {
    var p0: int, p1: int, p2: int, p3: int := r.post[0], r.post[1], r.post[2], r.post[3];
    p0 + 0x100 * p1 + 0x1_0000 * p2 + 0x100_0000 * p3
  }

  function Word1(r: Regs): u32 {
    var p0: int, p1: int, f: int := r.refdiv, r.postdiv1, r.fbdiv;
    p0 + 0x100 * p1 + 0x1_0000 * f
  }

  /** The fields that a pair of register words holds. */
  function Decode(w5: u32, w1: u32): (r: Regs)
    ensures |r.post| == 4
  {
    Regs([w5 % 0x100, (w5 / 0x100) % 0x100, (w5 / 0x1_0000) % 0x100, w5 / 0x100_0000],
         w1 % 0x100, (w1 / 0x100) % 0x100, w1 / 0x1_0000)
  }

  /** Byte `i` of a register. */
  function ByteOf(w: u32, i: nat): nat {
    match i
    case 0 => w % 0x100
    case 1 => (w / 0x100) % 0x100
    case 2 => (w / 0x1_0000) % 0x100
    case _ => w / 0x100_0000
  }

  lemma FourBytes(w: int, p0: int, p1: int, p2: int, p3: int)
    requires 0 <= p0 < 0x100 && 0 <= p1 < 0x100 && 0 <= p2 < 0x100
    requires w == p0 + 0x100 * p1 + 0x1_0000 * p2 + 0x100_0000 * p3
    ensures w % 0x100 == p0 && (w / 0x100) % 0x100 == p1 && (w / 0x1_0000) % 0x100 == p2 && w / 0x100_0000 == p3
  {
    assert w / 0x100 == p1 + 0x100 * p2 + 0x1_0000 * p3;
    assert w / 0x1_0000 == p2 + 0x100 * p3;
  }

  /**
   Where the fields are: post-divider `i` is byte `i` of PLL_CNTL_5; in PLL_CNTL_1 the reference
   divider is byte 0, its post-divider byte 1, and the feedback divider bits 16 to 31.
   */
  lemma WordLayout(r: Regs)
    requires |r.post| == 4
    ensures forall i | 0 <= i < 4 :: ByteOf(Word5(r), i) == r.post[i]
    ensures ByteOf(Word1(r), 0) == r.refdiv && ByteOf(Word1(r), 1) == r.postdiv1
    ensures ByteOf(Word1(r), 2) + 0x100 * ByteOf(Word1(r), 3) == r.fbdiv
  {
    FourBytes(Word5(r), r.post[0], r.post[1], r.post[2], r.post[3]);
    FourBytes(Word1(r), r.refdiv, r.postdiv1, r.fbdiv % 0x100, r.fbdiv / 0x100);
  }

  lemma DecodeWords(r: Regs)
    requires |r.post| == 4
    ensures Decode(Word5(r), Word1(r)) == r
  {
    FourBytes(Word5(r), r.post[0], r.post[1], r.post[2], r.post[3]);
    FourBytes(Word1(r), r.refdiv, r.postdiv1, r.fbdiv % 0x100, r.fbdiv / 0x100);
    assert Word1(r) / 0x1_0000 == r.fbdiv;
    assert Decode(Word5(r), Word1(r)).post == r.post;
  }

  // ---------------------------------------------------------------- one step

  /** The lowest post-divider from `i` on that is below its target, or 4. */
  function FirstBelow(post: seq<u8>, target: seq<u8>, i: nat): (k: nat)
    requires |post| == |target| == 4 && i <= 4
    ensures i <= k <= 4 && (k < 4 ==> post[k] < target[k]) && forall j | i <= j < k :: post[j] >= target[j]
    decreases 4 - i
  {
    if i == 4 || post[i] < target[i] then i else FirstBelow(post, target, i + 1)
  }

  /** The lowest post-divider from `i` on that is above its target, or 4. */
  function FirstAbove(post: seq<u8>, target: seq<u8>, i: nat): (k: nat)
    requires |post| == |target| == 4 && i <= 4
    ensures i <= k <= 4 && (k < 4 ==> post[k] > target[k]) && forall j | i <= j < k :: post[j] <= target[j]
    decreases 4 - i
  {
    if i == 4 || post[i] > target[i] then i else FirstAbove(post, target, i + 1)
  }

  /** The ramp's next register contents: post-dividers up first, then the feedback divider, then post-dividers down. */
  function Next(r: Regs, t: Target): (r': Regs)
    requires Sized(r, t)
    ensures |r'.post| == 4
  {
    var up, down := FirstBelow(r.post, t.post, 0), FirstAbove(r.post, t.post, 0);
    if up < 4 then r.(post := r.post[up := Wrap8(r.post[up] + 1)])
    else if r.fbdiv != t.fbdiv then r.(fbdiv := Wrap16(r.fbdiv + if t.fbdiv > r.fbdiv then 1 else -1))
    else if down < 4 then r.(post := r.post[down := Wrap8(r.post[down] - 1)])
    else r
  }

  /** The register write that takes `r` to `r'`. */
  function WriteOf(r: Regs, r': Regs): Write
    requires |r'.post| == 4
  {
    if r'.post != r.post then Cntl5(Word5(r')) else Cntl1(Word1(r'))
  }

  function Gap(a: int, b: int): nat { if a < b then b - a else a - b }

  /** The sum of the distances of all five dividers from their targets. */
  function Distance(r: Regs, t: Target): nat
    requires Sized(r, t)
  {
    Gap(r.post[0], t.post[0]) + Gap(r.post[1], t.post[1]) + Gap(r.post[2], t.post[2]) + Gap(r.post[3], t.post[3])
    + Gap(r.fbdiv, t.fbdiv)
  }

  lemma DistanceZero(r: Regs, t: Target)
    requires Sized(r, t)
    ensures Distance(r, t) == 0 <==> AtTarget(r, t)
  {
    if Distance(r, t) == 0 {
      assert forall i | 0 <= i < 4 :: r.post[i] == t.post[i];
    }
  }

  /** Post-divider `i` moves by one towards its target. */
  ghost predicate MovesPost(r: Regs, t: Target, r': Regs, i: nat)
    requires Sized(r, t) && Sized(r', t) && i < 4
  {
    && r'.post == r.post[i := r'.post[i]] && r'.fbdiv == r.fbdiv
    && (r.post[i] < t.post[i] ==> r'.post[i] as int == r.post[i] as int + 1)
    && (r.post[i] > t.post[i] ==> r'.post[i] as int == r.post[i] as int - 1)
    && r.post[i] != t.post[i]
  }

  /** The feedback divider moves by one towards its target. */
  ghost predicate MovesFb(r: Regs, t: Target, r': Regs) {
    && r'.post == r.post
    && (r.fbdiv < t.fbdiv ==> r'.fbdiv as int == r.fbdiv as int + 1)
    && (r.fbdiv > t.fbdiv ==> r'.fbdiv as int == r.fbdiv as int - 1)
    && r.fbdiv != t.fbdiv
  }

  lemma PostDistance(r: Regs, t: Target, r': Regs, i: nat)
    requires Sized(r, t) && Sized(r', t) && i < 4 && MovesPost(r, t, r', i)
    ensures Distance(r', t) == Distance(r, t) - 1
  {
    assert forall j | 0 <= j < 4 && j != i :: r'.post[j] == r.post[j];
  }

  lemma FbDistance(r: Regs, t: Target, r': Regs)
    requires Sized(r, t) && Sized(r', t) && MovesFb(r, t, r')
    ensures Distance(r', t) == Distance(r, t) - 1
  {
  }

  lemma AllReached(r: Regs, t: Target)
    requires Sized(r, t) && FirstBelow(r.post, t.post, 0) == 4 && FirstAbove(r.post, t.post, 0) == 4
    ensures r.post == t.post
  {
    assert forall i | 0 <= i < 4 :: r.post[i] == t.post[i];
  }

  /** Each step moves exactly one divider by exactly one towards its target, without wrap-around. */
  lemma NextMovesOne(r: Regs, t: Target)
    requires Sized(r, t) && !AtTarget(r, t)
    ensures var r' := Next(r, t);
      && r'.refdiv == r.refdiv && r'.postdiv1 == r.postdiv1
      && (MovesFb(r, t, r') || exists i :: 0 <= i < 4 && MovesPost(r, t, r', i))
      && Distance(r', t) == Distance(r, t) - 1
  {
    hide Distance, FirstBelow, FirstAbove;
    var r' := Next(r, t);
    var up, down := FirstBelow(r.post, t.post, 0), FirstAbove(r.post, t.post, 0);
    if up < 4 {
      assert MovesPost(r, t, r', up);
      PostDistance(r, t, r', up);
    } else if r.fbdiv != t.fbdiv {
      assert MovesFb(r, t, r');
      FbDistance(r, t, r');
    } else {
      assert down < 4 by { if down == 4 { AllReached(r, t); } }
      assert MovesPost(r, t, r', down);
      PostDistance(r, t, r', down);
    }
  }

  // ---------------------------------------------------------------- the whole ramp

  /** The register contents after `k` writes. */
  function After(r: Regs, t: Target, k: nat): (r': Regs)
    requires Sized(r, t)
    ensures |r'.post| == 4
    decreases k
  {
    if k == 0 then r else After(Next(r, t), t, k - 1)
  }

  /** The writes of a ramp from `r` to `t`, in order. */
  function Ramp(r: Regs, t: Target): (w: seq<Write>)
    requires Sized(r, t)
    decreases Distance(r, t)
  {
    if AtTarget(r, t) then []
    else
      NextMovesOne(r, t);
      [WriteOf(r, Next(r, t))] + Ramp(Next(r, t), t)
  }

  lemma RampUnfolds(r: Regs, t: Target)
    requires Sized(r, t) && !AtTarget(r, t)
    ensures Distance(Next(r, t), t) == Distance(r, t) - 1
    ensures Next(r, t).refdiv == r.refdiv && Next(r, t).postdiv1 == r.postdiv1
    ensures Ramp(r, t) == [WriteOf(r, Next(r, t))] + Ramp(Next(r, t), t)
  {
    hide Next, Distance;
    NextMovesOne(r, t);
  }

  /** A ramp makes as many writes as the dividers are away from their targets, and ends there. */
  lemma {:induction false} RampLength(r: Regs, t: Target)
    requires Sized(r, t)
    ensures |Ramp(r, t)| == Distance(r, t)
    ensures AtTarget(After(r, t, Distance(r, t)), t)
    ensures After(r, t, Distance(r, t)).refdiv == r.refdiv && After(r, t, Distance(r, t)).postdiv1 == r.postdiv1
    decreases Distance(r, t)
  {
    hide Next, Distance, WriteOf;
    DistanceZero(r, t);
    if AtTarget(r, t) {
    } else {
      RampUnfolds(r, t);
      RampLength(Next(r, t), t);
    }
  }

  /** Write `k` of a ramp leads from the contents after `k` writes to those after `k + 1`. */
  lemma {:induction false} RampWrites(r: Regs, t: Target, k: nat)
    requires Sized(r, t) && k < Distance(r, t)
    ensures k < |Ramp(r, t)|
    ensures After(r, t, k + 1) == Next(After(r, t, k), t) && !AtTarget(After(r, t, k), t)
    ensures Ramp(r, t)[k] == WriteOf(After(r, t, k), After(r, t, k + 1))
    decreases k
  {
    hide Next, Distance, AtTarget;
    DistanceZero(r, t);
    RampLength(r, t);
    RampUnfolds(r, t);
    if k == 0 {
    } else {
      RampWrites(Next(r, t), t, k - 1);
      assert Ramp(r, t)[k] == Ramp(Next(r, t), t)[k - 1];
    }
  }

  // ---------------------------------------------------------------- no overshoot

  function Max(a: int, b: int): int { if a < b then b else a }

  /** The three phases of a ramp from `r0`: post-dividers rising, feedback divider moving, post-dividers falling. */
  ghost predicate Rising(r0: Regs, t: Target, r: Regs)
    requires Sized(r0, t) && Sized(r, t)
  {
    r.fbdiv == r0.fbdiv && forall i | 0 <= i < 4 :: r0.post[i] <= r.post[i] <= Max(r0.post[i], t.post[i])
  }

  ghost predicate Moving(r0: Regs, t: Target, r: Regs)
    requires Sized(r0, t) && Sized(r, t)
  {
    && (r0.fbdiv <= r.fbdiv <= t.fbdiv || t.fbdiv <= r.fbdiv <= r0.fbdiv)
    && forall i | 0 <= i < 4 :: r.post[i] as int == Max(r0.post[i], t.post[i])
  }

  ghost predicate Falling(r0: Regs, t: Target, r: Regs)
    requires Sized(r0, t) && Sized(r, t)
  {
    r.fbdiv == t.fbdiv && forall i | 0 <= i < 4 :: t.post[i] <= r.post[i] <= Max(r0.post[i], t.post[i])
  }

  ghost predicate OnPath(r0: Regs, t: Target, r: Regs)
    requires Sized(r0, t) && Sized(r, t)
  {
    Rising(r0, t, r) || Moving(r0, t, r) || Falling(r0, t, r)
  }

  /** While some post-divider is below its target, the ramp is still in its first phase. */
  lemma RisingStep(r0: Regs, t: Target, r: Regs)
    requires Sized(r0, t) && Sized(r, t) && OnPath(r0, t, r) && FirstBelow(r.post, t.post, 0) < 4
    ensures Rising(r0, t, Next(r, t))
  {
    assert Rising(r0, t, r);
  }

  lemma MovingStep(r0: Regs, t: Target, r: Regs)
    requires Sized(r0, t) && Sized(r, t) && OnPath(r0, t, r) && FirstBelow(r.post, t.post, 0) == 4 && r.fbdiv != t.fbdiv
    ensures Moving(r0, t, Next(r, t))
  {
    assert Moving(r0, t, r);
  }

  lemma FallingNow(r0: Regs, t: Target, r: Regs)
    requires Sized(r0, t) && Sized(r, t) && OnPath(r0, t, r) && FirstBelow(r.post, t.post, 0) == 4 && r.fbdiv == t.fbdiv
    ensures Falling(r0, t, r)
  {
  }

  lemma FallingStep(r0: Regs, t: Target, r: Regs)
    requires Sized(r0, t) && Sized(r, t) && Falling(r0, t, r) && FirstBelow(r.post, t.post, 0) == 4 && !AtTarget(r, t)
    ensures Falling(r0, t, Next(r, t))
  {
    hide FirstBelow, FirstAbove;
    if FirstAbove(r.post, t.post, 0) == 4 { AllReached(r, t); }
  }

  lemma NextOnPath(r0: Regs, t: Target, r: Regs)
    requires Sized(r0, t) && Sized(r, t) && OnPath(r0, t, r) && !AtTarget(r, t)
    ensures OnPath(r0, t, Next(r, t))
  {
    hide Rising, Moving, Falling, Next;
    if FirstBelow(r.post, t.post, 0) < 4 {
      RisingStep(r0, t, r);
    } else if r.fbdiv != t.fbdiv {
      MovingStep(r0, t, r);
    } else {
      FallingNow(r0, t, r);
      FallingStep(r0, t, r);
    }
  }

  lemma AlwaysStartsOnPath(r0: Regs, t: Target)
    requires Sized(r0, t)
    ensures OnPath(r0, t, r0)
  {
    assert Rising(r0, t, r0);
  }

  lemma {:induction false} AfterOnPath(r0: Regs, t: Target, k: nat)
    requires Sized(r0, t) && k <= Distance(r0, t)
    ensures OnPath(r0, t, After(r0, t, k))
  {
    hide Next, Distance, WriteOf, AtTarget, Ramp;
    AlwaysStartsOnPath(r0, t);
    if k == 0 {
    } else {
      AfterOnPath(r0, t, k - 1);
      RampWrites(r0, t, k - 1);
      NextOnPath(r0, t, After(r0, t, k - 1));
    }
  }

  /** The frequency of an output, up to a constant factor, for an effective divisor function. */
  ghost function Ratio(eff: u8 -> real, r: Regs, i: nat): real
    requires |r.post| == 4 && i < 4 && forall d: u8 :: eff(d) > 0.0
  {
    r.fbdiv as real / eff(r.post[i])
  }

  lemma QuotientOrder(a: real, b: real, c: real, d: real)
    requires b > 0.0 && d > 0.0 && 0.0 <= a <= c && d <= b
    ensures a / b <= c / d
  {
    assert a / b <= c / b;
    assert c / b <= c / d by {
      assert c * d <= c * b;
      assert c / b * (b * d) == c * d;
      assert c / d * (b * d) == c * b;
    }
  }

  lemma OnPathRatio(eff: u8 -> real, r0: Regs, t: Target, r: Regs, i: nat)
    requires Sized(r0, t) && Sized(r, t) && i < 4 && OnPath(r0, t, r)
    requires forall d: u8 :: eff(d) > 0.0
    requires forall a: u8, b: u8 :: a <= b ==> eff(a) <= eff(b)
    ensures Ratio(eff, r, i) <= Ratio(eff, r0, i) || Ratio(eff, r, i) <= t.fbdiv as real / eff(t.post[i])
  {
    if r.fbdiv <= r0.fbdiv && r0.post[i] <= r.post[i] {
      QuotientOrder(r.fbdiv as real, eff(r.post[i]), r0.fbdiv as real, eff(r0.post[i]));
    } else {
      QuotientOrder(r.fbdiv as real, eff(r.post[i]), t.fbdiv as real, eff(t.post[i]));
    }
  }

  /**
   After every single write of a ramp, every output runs at most as fast as the faster of
   where it started and where it is going, for any positive monotone divisor function.
   */
  lemma NeverOvershoots(eff: u8 -> real, r0: Regs, t: Target, k: nat, i: nat)
    requires Sized(r0, t) && k <= Distance(r0, t) && i < 4
    requires forall d: u8 :: eff(d) > 0.0
    requires forall a: u8, b: u8 :: a <= b ==> eff(a) <= eff(b)
    ensures var now, start, end := Ratio(eff, After(r0, t, k), i), Ratio(eff, r0, i), t.fbdiv as real / eff(t.post[i]);
      now <= start || now <= end
  {
    AfterOnPath(r0, t, k);
    OnPathRatio(eff, r0, t, After(r0, t, k), i);
  }
}

/** The two programs that run the ramp, writing to the PLL registers step by step. */
module PllRamp {
  import opened Words
  import opened Pll

  /** The two registers, and every word ever written to them. */
  class Chip {
    var cntl5: u32
    var cntl1: u32
    var log: seq<Write>

    ghost function Regs(): Regs
      reads this
    {
      Decode(cntl5, cntl1)
    }

    method Write5(r: Regs)
      requires |r.post| == 4
      modifies this
      ensures cntl5 == Word5(r) && cntl1 == old(cntl1) && log == old(log) + [Cntl5(Word5(r))]
    {
      cntl5 := Word5(r);
      log := log + [Cntl5(cntl5)];
    }

    method Write1(r: Regs)
      modifies this
      ensures cntl1 == Word1(r) && cntl5 == old(cntl5) && log == old(log) + [Cntl1(Word1(r))]
    {
      cntl1 := Word1(r);
      log := log + [Cntl1(cntl1)];
    }
  }

  /** The registers hold `r`, a ramp from `r0` that has made the writes since `log0`. */
  ghost predicate Ramping(chip: Chip, log0: seq<Write>, r0: Regs, t: Target, r: Regs)
    reads chip
  {
    && Sized(r0, t) && Sized(r, t)
    && chip.Regs() == r
    && r.refdiv == r0.refdiv && r.postdiv1 == r0.postdiv1
    && chip.log + Ramp(r, t) == log0 + Ramp(r0, t)
  }

  /** The target that `set_frequency` fixes. */
  const DEFAULT_1750_MHZ := Target(140, [1, 1, 1, 1])

  /** `w` is what the ramp would write next. */
  lemma RampStep(log: seq<Write>, log0: seq<Write>, r0: Regs, r: Regs, r': Regs, t: Target)
    requires Sized(r0, t) && Sized(r, t) && !AtTarget(r, t) && r' == Next(r, t)
    requires log + Ramp(r, t) == log0 + Ramp(r0, t)
    ensures log + [WriteOf(r, r')] + Ramp(r', t) == log0 + Ramp(r0, t)
  {
    RampUnfolds(r, t);
    assert log + ([WriteOf(r, r')] + Ramp(r', t)) == log + [WriteOf(r, r')] + Ramp(r', t);
  }

  /** A register word is determined by the fields it decodes to. */
  lemma KeepWord1(w5: u32, w1: u32, r: Regs)
    requires Decode(w5, w1) == r
    ensures w1 == Word1(r)
  {
    assert w1 as int == 0x1_0000 * (w1 / 0x1_0000) + 0x100 * ((w1 / 0x100) % 0x100) + w1 % 0x100;
  }

  /** Store post-divider `i` moved by `step`, which must be the ramp's next move. */
  method StepPost(chip: Chip, ghost log0: seq<Write>, ghost r0: Regs, t: Target, r: Regs, i: nat, step: int)
    returns (r': Regs)
    requires Ramping(chip, log0, r0, t, r) && i < 4 && !AtTarget(r, t)
    requires Next(r, t) == r.(post := r.post[i := Wrap8(r.post[i] + step)]) && Wrap8(r.post[i] + step) != r.post[i]
    modifies chip
    ensures r' == r.(post := r.post[i := Wrap8(r.post[i] + step)]) && Ramping(chip, log0, r0, t, r')
  {
    r' := r.(post := r.post[i := Wrap8(r.post[i] + step)]);
    RampStep(chip.log, log0, r0, r, r', t);
    DecodeWords(r');
    KeepWord1(chip.cntl5, chip.cntl1, r);
    chip.Write5(r');
  }

  lemma WordOfBytes(w: int, b0: int, b1: int, b2: int, b3: int)
    requires b0 == w % 0x100 && b1 == (w / 0x100) % 0x100 && b2 == (w / 0x1_0000) % 0x100 && b3 == w / 0x100_0000
    ensures w == b0 + 0x100 * b1 + 0x1_0000 * b2 + 0x100_0000 * b3
  {
    var q1, q2 := w / 0x100, w / 0x1_0000;
    assert q2 == q1 / 0x100 && b3 == q2 / 0x100;
    assert w == 0x100 * q1 + b0 && q1 == 0x100 * q2 + b1 && q2 == 0x100 * b3 + b2;
  }

  lemma KeepWord5(w5: u32, w1: u32, r: Regs)
    requires Decode(w5, w1) == r
    ensures w5 == Word5(r)
  {
    WordOfBytes(w5, r.post[0], r.post[1], r.post[2], r.post[3]);
  }

  /** Store the feedback divider moved by `step`, which must be the ramp's next move. */
  method StepFb(chip: Chip, ghost log0: seq<Write>, ghost r0: Regs, t: Target, r: Regs, step: int) returns (r': Regs)
    requires Ramping(chip, log0, r0, t, r) && !AtTarget(r, t)
    requires Next(r, t) == r.(fbdiv := Wrap16(r.fbdiv + step))
    modifies chip
    ensures r' == r.(fbdiv := Wrap16(r.fbdiv + step)) && Ramping(chip, log0, r0, t, r')
  {
    r' := r.(fbdiv := Wrap16(r.fbdiv + step));
    RampStep(chip.log, log0, r0, r, r', t);
    DecodeWords(r');
    KeepWord5(chip.cntl5, chip.cntl1, r);
    chip.Write1(r');
  }

  /** A divider at `f` moving by `step` is on its way to `target`. */
  predicate Toward(step: int, f: int, target: int) {
    if step == 1 then f <= target else if step == -1 then f >= target else f == target
  }

  lemma TowardNext(step: int, f: u16, target: u16)
    requires Toward(step, f, target) && f != target
    ensures Wrap16(f as int + step) == f as int + step && Toward(step, Wrap16(f as int + step), target)
    ensures step == if target > f then 1 else -1
    ensures Gap(Wrap16(f as int + step), target) < Gap(f, target)
  {
  }

  // ---------------------------------------------------------------- what the ramp does next

  lemma NextIsUp(r: Regs, t: Target, i: nat)
    requires Sized(r, t) && i < 4 && r.post[i] < t.post[i] && forall j | 0 <= j < i :: r.post[j] >= t.post[j]
    ensures Next(r, t) == r.(post := r.post[i := Wrap8(r.post[i] + 1)]) && Wrap8(r.post[i] + 1) == r.post[i] as int + 1
  {
  }

  lemma NextIsFb(r: Regs, t: Target)
    requires Sized(r, t) && r.fbdiv != t.fbdiv && forall j | 0 <= j < 4 :: r.post[j] >= t.post[j]
    ensures Next(r, t) == r.(fbdiv := Wrap16(r.fbdiv + if t.fbdiv > r.fbdiv then 1 else -1))
  {
  }

  lemma NextIsDown(r: Regs, t: Target, i: nat)
    requires Sized(r, t) && i < 4 && r.post[i] > t.post[i] && r.fbdiv == t.fbdiv
    requires forall j | 0 <= j < 4 :: r.post[j] >= t.post[j]
    requires forall j | 0 <= j < i :: r.post[j] == t.post[j]
    ensures Next(r, t) == r.(post := r.post[i := Wrap8(r.post[i] - 1)]) && Wrap8(r.post[i] - 1) == r.post[i] as int - 1
  {
  }

  // ---------------------------------------------------------------- L2CPU::set_frequency

  /** Step 1: raise the post-dividers that need to go up. */
  method RaisePostdivs(chip: Chip, ghost log0: seq<Write>, ghost r0: Regs, t: Target, start: Regs) returns (r: Regs)
    requires Ramping(chip, log0, r0, t, start)
    modifies chip
    ensures Ramping(chip, log0, r0, t, r) && forall j | 0 <= j < 4 :: r.post[j] >= t.post[j]
  {
    hide Next, Ramp;
    r := start;
    for i := 0 to 4
      invariant Ramping(chip, log0, r0, t, r)
      invariant forall j | 0 <= j < i :: r.post[j] >= t.post[j]
    {
      if t.post[i] > r.post[i] {
        while r.post[i] != t.post[i]
          invariant Ramping(chip, log0, r0, t, r)
          invariant forall j | 0 <= j < i :: r.post[j] >= t.post[j]
          invariant r.post[i] <= t.post[i]
          decreases t.post[i] - r.post[i]
        {
          NextIsUp(r, t, i);
          r := StepPost(chip, log0, r0, t, r, i, 1);
        }
      }
    }
  }

  /** Step 2: move the feedback divider. */
  method AdjustFbdiv(chip: Chip, ghost log0: seq<Write>, ghost r0: Regs, t: Target, start: Regs) returns (r: Regs)
    requires Ramping(chip, log0, r0, t, start) && forall j | 0 <= j < 4 :: start.post[j] >= t.post[j]
    modifies chip
    ensures Ramping(chip, log0, r0, t, r) && r == start.(fbdiv := t.fbdiv)
  {
    hide Next, Ramp;
    r := start;
    if r.fbdiv != t.fbdiv {
      var oneStep := if t.fbdiv > r.fbdiv then 1 else -1;
      while r.fbdiv != t.fbdiv
        invariant Ramping(chip, log0, r0, t, r) && r == start.(fbdiv := r.fbdiv)
        invariant Toward(oneStep, r.fbdiv, t.fbdiv)
        decreases Gap(r.fbdiv, t.fbdiv)
      {
        hide Toward, Gap, Wrap16;
        TowardNext(oneStep, r.fbdiv, t.fbdiv);
        NextIsFb(r, t);
        r := StepFb(chip, log0, r0, t, r, oneStep);
      }
    }
  }

  /** Step 3: lower the post-dividers that need to go down. */
  method LowerPostdivs(chip: Chip, ghost log0: seq<Write>, ghost r0: Regs, t: Target, start: Regs) returns (r: Regs)
    requires Ramping(chip, log0, r0, t, start) && start.fbdiv == t.fbdiv
    requires forall j | 0 <= j < 4 :: start.post[j] >= t.post[j]
    modifies chip
    ensures Ramping(chip, log0, r0, t, r) && AtTarget(r, t)
  {
    hide Next, Ramp;
    r := start;
    for i := 0 to 4
      invariant Ramping(chip, log0, r0, t, r) && r.fbdiv == t.fbdiv
      invariant forall j | 0 <= j < 4 :: r.post[j] >= t.post[j]
      invariant forall j | 0 <= j < i :: r.post[j] == t.post[j]
    {
      if t.post[i] < r.post[i] {
        while r.post[i] != t.post[i]
          invariant Ramping(chip, log0, r0, t, r) && r.fbdiv == t.fbdiv
          invariant forall j | 0 <= j < 4 :: r.post[j] >= t.post[j]
          invariant forall j | 0 <= j < i :: r.post[j] == t.post[j]
          decreases r.post[i] - t.post[i]
        {
          NextIsDown(r, t, i);
          r := StepPost(chip, log0, r0, t, r, i, -1);
        }
      }
    }
    assert forall j | 0 <= j < 4 :: r.post[j] == t.post[j];
  }

  /**
   `L2CPU::set_frequency`, for any target (the code fixes `DEFAULT_1750_MHZ`): it issues exactly
   the ramp's words, leaves both registers at the target and the other two bytes of PLL_CNTL_1
   as they were.
   */
  method SetFrequency(chip: Chip, t: Target)
    requires |t.post| == 4
    modifies chip
    ensures chip.log == old(chip.log) + Ramp(old(chip.Regs()), t)
    ensures chip.Regs() == Regs(t.post, old(chip.Regs()).refdiv, old(chip.Regs()).postdiv1, t.fbdiv)
  {
    ghost var log0 := chip.log;
    var current := Decode(chip.cntl5, chip.cntl1);
    ghost var r0 := current;
    current := RaisePostdivs(chip, log0, r0, t, current);
    current := AdjustFbdiv(chip, log0, r0, t, current);
    current := LowerPostdivs(chip, log0, r0, t, current);
    assert Ramp(current, t) == [];
  }

  // ---------------------------------------------------------------- set_l2cpu_pll

  /** Post-divider `j` is on the list of those to raise (`up`) or to lower. */
  predicate Wants(post: seq<u8>, target: seq<u8>, up: bool, j: nat)
    requires |post| == |target| == 4
  {
    j < 4 && if up then target[j] > post[j] else target[j] < post[j]
  }

  ghost predicate Ascending(l: seq<nat>) {
    forall k, m | 0 <= k < m < |l| :: l[k] < l[m]
  }

  /** The list comprehension over `enumerate(sol_postdivs)`, from index `i` on. */
  function Listed(post: seq<u8>, target: seq<u8>, up: bool, i: nat): (l: seq<nat>)
    requires |post| == |target| == 4 && i <= 4
    ensures Ascending(l) && forall j :: j in l <==> i <= j && Wants(post, target, up, j)
    decreases 4 - i
  {
    if i == 4 then []
    else
      var rest := Listed(post, target, up, i + 1);
      assert forall k | 0 <= k < |rest| :: rest[k] in rest;
      if Wants(post, target, up, i) then [i] + rest else rest
  }

  /** Of an ascending list, the members below entry `k` are those before it. */
  lemma BeforeEntry(l: seq<nat>, k: nat, j: nat)
    requires Ascending(l) && k < |l| && j in l
    ensures j < l[k] <==> j in l[..k]
  {
    var m :| 0 <= m < |l| && l[m] == j;
    if m < k {
      assert l[..k][m] == j;
    }
  }

  /** `max(min(difference, 1), -1)` */
  function Clamp(difference: int): int {
    if difference > 1 then 1 else if difference < -1 then -1 else difference
  }

  /** `PLLCNTL5.step` for a divider to be raised. */
  method StepUp(chip: Chip, ghost log0: seq<Write>, ghost r0: Regs, t: Target, start: Regs, field: nat)
    returns (r: Regs)
    requires Ramping(chip, log0, r0, t, start) && field < 4 && start.post[field] < t.post[field]
    requires forall j | 0 <= j < field :: start.post[j] >= t.post[j]
    modifies chip
    ensures Ramping(chip, log0, r0, t, r) && r == start.(post := start.post[field := t.post[field]])
  {
    hide Next, Ramp;
    r := start;
    var oneStep := Clamp(t.post[field] as int - r.post[field]);
    while r.post[field] != t.post[field]
      invariant Ramping(chip, log0, r0, t, r) && r.post[field] <= t.post[field]
      invariant r == start.(post := start.post[field := r.post[field]])
      decreases t.post[field] - r.post[field]
    {
      NextIsUp(r, t, field);
      r := StepPost(chip, log0, r0, t, r, field, oneStep);
    }
  }

  /** `PLLCNTL5.step` for a divider to be lowered. */
  method StepDown(chip: Chip, ghost log0: seq<Write>, ghost r0: Regs, t: Target, start: Regs, field: nat)
    returns (r: Regs)
    requires Ramping(chip, log0, r0, t, start) && field < 4
    requires start.post[field] > t.post[field] && start.fbdiv == t.fbdiv
    requires forall j | 0 <= j < 4 :: start.post[j] >= t.post[j]
    requires forall j | 0 <= j < field :: start.post[j] == t.post[j]
    modifies chip
    ensures Ramping(chip, log0, r0, t, r) && r == start.(post := start.post[field := t.post[field]])
  {
    hide Next, Ramp;
    r := start;
    var oneStep := Clamp(t.post[field] as int - r.post[field]);
    while r.post[field] != t.post[field]
      invariant Ramping(chip, log0, r0, t, r) && r.post[field] >= t.post[field] && r.fbdiv == t.fbdiv
      invariant r == start.(post := start.post[field := r.post[field]])
      decreases r.post[field] - t.post[field]
    {
      NextIsDown(r, t, field);
      r := StepPost(chip, log0, r0, t, r, field, oneStep);
    }
  }

  /** `PLLCNTL1.step_fbdiv` */
  method StepFbdiv(chip: Chip, ghost log0: seq<Write>, ghost r0: Regs, t: Target, start: Regs) returns (r: Regs)
    requires Ramping(chip, log0, r0, t, start) && forall j | 0 <= j < 4 :: start.post[j] >= t.post[j]
    modifies chip
    ensures Ramping(chip, log0, r0, t, r) && r == start.(fbdiv := t.fbdiv)
  {
    hide Next, Ramp;
    r := start;
    var oneStep := Clamp(t.fbdiv as int - r.fbdiv);
    while r.fbdiv != t.fbdiv
      invariant Ramping(chip, log0, r0, t, r) && r == start.(fbdiv := r.fbdiv)
      invariant Toward(oneStep, r.fbdiv, t.fbdiv)
      decreases Gap(r.fbdiv, t.fbdiv)
    {
      hide Toward, Gap, Wrap16;
      TowardNext(oneStep, r.fbdiv, t.fbdiv);
      NextIsFb(r, t);
      r := StepFb(chip, log0, r0, t, r, oneStep);
    }
  }

  /** The dividers on the first `k` entries of the list are at their targets, the others where they were. */
  ghost predicate Treated(start: Regs, t: Target, r: Regs, l: seq<nat>, k: nat)
    requires Sized(start, t) && Sized(r, t) && k <= |l|
  {
    && r.fbdiv == start.fbdiv
    && forall j | 0 <= j < 4 :: r.post[j] == if j in l[..k] then t.post[j] else start.post[j]
  }

  lemma TreatNext(start: Regs, t: Target, r: Regs, l: seq<nat>, k: nat, up: bool)
    requires Sized(start, t) && Sized(r, t) && k < |l| && Treated(start, t, r, l, k)
    requires Ascending(l) && forall j :: j in l <==> Wants(start.post, t.post, up, j)
    ensures l[k] < 4 && Wants(r.post, t.post, up, l[k])
    ensures forall j | 0 <= j < l[k] :: if up then r.post[j] >= t.post[j] else r.post[j] <= t.post[j]
    ensures Treated(start, t, r.(post := r.post[l[k] := t.post[l[k]]]), l, k + 1)
  {
    assert l[k] in l;
    BeforeEntry(l, k, l[k]);
    forall j | 0 <= j < l[k]
      ensures if up then r.post[j] >= t.post[j] else r.post[j] <= t.post[j]
    {
      if j in l { BeforeEntry(l, k, j); }
    }
    assert l[..k + 1] == l[..k] + [l[k]];
  }

  lemma RampingSized(chip: Chip, log0: seq<Write>, r0: Regs, t: Target, r: Regs)
    requires Ramping(chip, log0, r0, t, r)
    ensures Sized(r, t) && Sized(r0, t)
  {
  }

  method RaiseListed(chip: Chip, ghost log0: seq<Write>, ghost r0: Regs, t: Target, start: Regs, l: seq<nat>)
    returns (r: Regs)
    requires Ramping(chip, log0, r0, t, start) && Ascending(l)
    requires forall j :: j in l <==> Wants(start.post, t.post, true, j)
    modifies chip
    ensures Ramping(chip, log0, r0, t, r) && r.fbdiv == start.fbdiv
    ensures forall j | 0 <= j < 4 ::
              r.post[j] == if Wants(start.post, t.post, true, j) then t.post[j] else start.post[j]
  {
    hide Next, Ramp, Decode;
    r := start;
    for k := 0 to |l|
      invariant Ramping(chip, log0, r0, t, r) && Treated(start, t, r, l, k)
    {
      hide Ramping;
      RampingSized(chip, log0, r0, t, r);
      TreatNext(start, t, r, l, k, true);
      r := StepUp(chip, log0, r0, t, r, l[k]);
    }
    assert l[..|l|] == l;
  }

  method LowerListed(chip: Chip, ghost log0: seq<Write>, ghost r0: Regs, t: Target, start: Regs, l: seq<nat>)
    returns (r: Regs)
    requires Ramping(chip, log0, r0, t, start) && Ascending(l) && start.fbdiv == t.fbdiv
    requires forall j | 0 <= j < 4 :: start.post[j] >= t.post[j]
    requires forall j :: j in l <==> Wants(start.post, t.post, false, j)
    modifies chip
    ensures Ramping(chip, log0, r0, t, r) && AtTarget(r, t)
  {
    hide Next, Ramp, Decode;
    r := start;
    for k := 0 to |l|
      invariant Ramping(chip, log0, r0, t, r) && Treated(start, t, r, l, k)
    {
      hide Ramping;
      RampingSized(chip, log0, r0, t, r);
      TreatNext(start, t, r, l, k, false);
      r := StepDown(chip, log0, r0, t, r, l[k]);
    }
    assert l[..|l|] == l;
    assert forall j | 0 <= j < 4 :: r.post[j] == t.post[j];
  }

  /** `set_l2cpu_pll` once the solution for a frequency is looked up: it issues exactly the ramp's words. */
  method SetL2cpuPll(chip: Chip, t: Target)
    requires |t.post| == 4
    modifies chip
    ensures chip.log == old(chip.log) + Ramp(old(chip.Regs()), t)
    ensures chip.Regs() == Regs(t.post, old(chip.Regs()).refdiv, old(chip.Regs()).postdiv1, t.fbdiv)
  {
    ghost var log0 := chip.log;
    var initial := Decode(chip.cntl5, chip.cntl1);
    ghost var r0 := initial;
    var increasing := Listed(initial.post, t.post, true, 0);
    var decreasing := Listed(initial.post, t.post, false, 0);
    var current := RaiseListed(chip, log0, r0, t, initial, increasing);
    assert forall j | 0 <= j < 4 :: current.post[j] >= t.post[j];
    current := StepFbdiv(chip, log0, r0, t, current);
    assert forall j :: j in decreasing <==> Wants(current.post, t.post, false, j);
    current := LowerListed(chip, log0, r0, t, current, decreasing);
    assert forall j | 0 <= j < 4 :: current.post[j] == t.post[j];
    assert Ramp(current, t) == [];
  }

  /** `solutions` in clock.py. */
  const SOLUTIONS: map<nat, Target> := map[
    200 := Target(128, [15, 15, 15, 15]),
    1750 := Target(140, [1, 1, 1, 1]),
    15 := Target(120, [99, 99, 99, 99])
  ]

  /** `set_l2cpu_pll` for a frequency in MHz; one that is not among the solutions fails and writes nothing. */
  method SetL2cpuMhz(chip: Chip, mhz: nat) returns (found: bool)
    modifies chip
    ensures found <==> mhz in {15, 200, 1750}
    ensures !found ==> chip.log == old(chip.log) && chip.Regs() == old(chip.Regs())
    ensures found ==>
      && chip.Regs().refdiv == old(chip.Regs()).refdiv && chip.Regs().postdiv1 == old(chip.Regs()).postdiv1
      && chip.Regs().fbdiv == (if mhz == 15 then 120 else if mhz == 200 then 128 else 140)
      && (forall i | 0 <= i < 4 :: chip.Regs().post[i] == if mhz == 15 then 99 else if mhz == 200 then 15 else 1)
      && chip.log == old(chip.log) + Ramp(old(chip.Regs()), SOLUTIONS[mhz])
  {
    found := mhz in SOLUTIONS;
    if found {
      SetL2cpuPll(chip, SOLUTIONS[mhz]);
    }
  }

  /** From equal registers, the C++ and Python programs at 1750 MHz write the same words in the same order. */
  method BothPrograms(cpp: Chip, python: Chip)
    requires cpp != python && cpp.log == python.log == [] && cpp.cntl5 == python.cntl5 && cpp.cntl1 == python.cntl1
    modifies cpp, python
    ensures cpp.log == python.log && cpp.cntl5 == python.cntl5 && cpp.cntl1 == python.cntl1
    ensures |cpp.log| == Distance(old(cpp.Regs()), DEFAULT_1750_MHZ)
  {
    hide Ramp, Decode;
    RampLength(cpp.Regs(), DEFAULT_1750_MHZ);
    SetFrequency(cpp, DEFAULT_1750_MHZ);
    SetL2cpuPll(python, SOLUTIONS[1750]);
    KeepWord5(cpp.cntl5, cpp.cntl1, cpp.Regs());
    KeepWord1(cpp.cntl5, cpp.cntl1, cpp.Regs());
    KeepWord5(python.cntl5, python.cntl1, cpp.Regs());
    KeepWord1(python.cntl5, python.cntl1, cpp.Regs());
  }
}

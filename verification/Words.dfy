/** Machine words and the modular facts that the free-running ring indices rely on. */
module Words {
  type u8 = x: int | 0 <= x < 0x100
  type u16 = x: int | 0 <= x < 0x1_0000
  type u32 = x: int | 0 <= x < 0x1_0000_0000
  type u64 = x: int | 0 <= x < 0x1_0000_0000_0000_0000

  function Wrap8(n: int): u8 { n % 0x100 }

  function Wrap16(n: int): u16 { n % 0x1_0000 }

  function Wrap32(n: int): u32 { n % 0x1_0000_0000 }

  function Wrap64(n: int): u64 { n % 0x1_0000_0000_0000_0000 }

  /** `index % queue_size`, with `queue_size == 16384`. */
  function Slot(n: int): (r: nat)
    ensures r < 16384
  {
    n % 16384
  }

  lemma {:induction false} SlotShift(r: nat, m: nat)
    ensures Slot(r + 16384 * m) == Slot(r)
    decreases m
  {
    if m == 0 {
    } else {
      SlotShift(r + 16384, m - 1);
    }
  }

  /** A ring of 16384 slots: index and slot agree on the first turn, and every turn is as long. */
  lemma RingOf16384(n: nat)
    ensures n < 16384 ==> Slot(n) == n
    ensures Slot(n + 16384) == Slot(n)
  {
  }

  /** A 16-bit index selects the slot of the unbounded counter it stands for. */
  lemma SlotOfWrapped(n: nat)
    ensures Slot(Wrap16(n)) == Slot(n)
  {
    SlotShift(n % 0x1_0000, 4 * (n / 0x1_0000));
  }

  /** Counters less than one ring apart never share a slot. */
  lemma DistinctSlots(i: nat, j: nat)
    requires i < j < i + 16384
    ensures Slot(i) != Slot(j)
  {
    assert i == 16384 * (i / 16384) + i % 16384;
    assert j == 16384 * (j / 16384) + j % 16384;
  }

  /** Counters less than 2^16 apart are equal exactly when their 16-bit images are. */
  lemma WrappedEqual(i: nat, j: nat)
    requires i <= j < i + 0x1_0000
    ensures Wrap16(i) == Wrap16(j) <==> i == j
  {
    assert i == 0x1_0000 * (i / 0x1_0000) + i % 0x1_0000;
    assert j == 0x1_0000 * (j / 0x1_0000) + j % 0x1_0000;
  }

  lemma WrapNext(n: nat)
    ensures Wrap16(Wrap16(n) + 1) == Wrap16(n + 1)
  {
  }
}

/**
 Windows onto the chip's network-on-chip (NOC) addresses: 2 MiB ones made for a single access
 or structure, and the two 4 GiB ones stacked into a flat view of an L2CPU's memory.
 */
module Windows {
  import opened Words

  datatype Result<+T> = Success(value: T) | AssertionFailed

  const TWO_MEG: nat := 0x20_0000
  const FOUR_GIG: nat := 0x1_0000_0000

  // ---------------------------------------------------------------- the address split

  /** `addr & WINDOW_MASK` for a window size that is a power of two. */
  function OffsetIn(addr: nat, size: nat): (r: nat)
    requires size == 0x20_0000 || size == 0x1_0000_0000
    ensures r < size
  {
    if size == 0x20_0000 then addr % 0x20_0000 else addr % 0x1_0000_0000
  }

  /** `addr & ~WINDOW_MASK` */
  function BaseOf(addr: nat, size: nat): (r: nat)
    requires size == 0x20_0000 || size == 0x1_0000_0000
    ensures r + OffsetIn(addr, size) == addr && OffsetIn(r, size) == 0
  {
    addr - OffsetIn(addr, size)
  }

  /** Offsets and bases by their numbers: 2 MiB is 2097152 bytes, 4 GiB 4294967296. */
  lemma SplitBySize(addr: nat)
    ensures OffsetIn(addr, 0x20_0000) == addr % 2097152 && BaseOf(addr, 0x20_0000) == 2097152 * (addr / 2097152)
    ensures OffsetIn(addr, 0x1_0000_0000) == addr % 4294967296
    ensures BaseOf(addr, 0x1_0000_0000) == 4294967296 * (addr / 4294967296)
  {
  }

  /** On 64-bit words the masks compute the remainder and the aligned base. */
  lemma MasksSplit2M(a: bv64)
    ensures a & 0x1F_FFFF == a % 0x20_0000
    ensures (a & !0x1F_FFFF) + (a & 0x1F_FFFF) == a && (a & !0x1F_FFFF) % 0x20_0000 == 0
  {
  }

  lemma MasksSplit4G(a: bv64)
    ensures a & 0xFFFF_FFFF == a % 0x1_0000_0000
    ensures (a & !0xFFFF_FFFF) + (a & 0xFFFF_FFFF) == a && (a & !0xFFFF_FFFF) % 0x1_0000_0000 == 0
  {
  }

  /** Of the aligned windows, the base is the only one that contains the address. */
  lemma BaseIsUnique(addr: nat, size: nat, base: nat)
    requires size == 0x20_0000 || size == 0x1_0000_0000
    requires OffsetIn(base, size) == 0 && base <= addr < base + size
    ensures base == BaseOf(addr, size)
  {
  }

  // ---------------------------------------------------------------- words in memory

  function ByteAt(m: map<nat, u8>, a: nat): u8 { if a in m then m[a] else 0 }

  /** The little-endian word at address `a`. */
  function WordAt(m: map<nat, u8>, a: nat): u32 {
    var b0: int, b1: int, b2: int, b3: int := ByteAt(m, a), ByteAt(m, a + 1), ByteAt(m, a + 2), ByteAt(m, a + 3);
    b0 + 0x100 * b1 + 0x1_0000 * b2 + 0x100_0000 * b3
  }

  function Store(m: map<nat, u8>, a: nat, v: u32): (m': map<nat, u8>)
    ensures forall x: nat :: !(a <= x < a + 4) ==> ByteAt(m', x) == ByteAt(m, x)
  {
    m[a := v % 0x100][a + 1 := (v / 0x100) % 0x100][a + 2 := (v / 0x1_0000) % 0x100][a + 3 := v / 0x100_0000]
  }

  lemma BytesOfWord(v: int)
    ensures v == v % 0x100 + 0x100 * ((v / 0x100) % 0x100)
                 + 0x1_0000 * ((v / 0x1_0000) % 0x100) + 0x100_0000 * (v / 0x100_0000)
  {
    var q1, q2, q3 := v / 0x100, v / 0x1_0000, v / 0x100_0000;
    assert q2 == q1 / 0x100 && q3 == q2 / 0x100;
    assert v == 0x100 * q1 + v % 0x100 && q1 == 0x100 * q2 + q1 % 0x100 && q2 == 0x100 * q3 + q2 % 0x100;
  }

  lemma WordStored(m: map<nat, u8>, a: nat, v: u32)
    ensures WordAt(Store(m, a, v), a) == v
  {
    BytesOfWord(v);
  }

  // ---------------------------------------------------------------- one window

  /** The memory of a tile by NOC address; every window onto it shares it. */
  class Noc {
    var mem: map<nat, u8>
  }

  class TlbWindow {
    const noc: Noc
    const size: nat
    const base: nat
    const offset: nat

    ghost predicate Valid() {
      && (size == 0x20_0000 || size == 0x1_0000_0000)
      && OffsetIn(base, size) == 0 && offset < size
    }

    constructor (noc: Noc, size: nat, addr: nat)
      requires size == 0x20_0000 || size == 0x1_0000_0000
      ensures Valid() && this.noc == noc && this.size == size && base + offset == addr
    {
      this.noc, this.size := noc, size;
      offset := OffsetIn(addr, size);
      base := BaseOf(addr, size);
    }

    /** The access check: it passes exactly for aligned words inside the window. */
    predicate InWindow(addr: nat) {
      offset + addr + 4 <= size && (offset + addr) % 4 == 0
    }

    method Read32(addr: nat) returns (r: Result<u32>)
      requires Valid()
      ensures r == if InWindow(addr) then Success(WordAt(noc.mem, base + offset + addr)) else AssertionFailed
    {
      if !(offset + addr + 4 <= size) { return AssertionFailed; }
      if (offset + addr) % 4 != 0 { return AssertionFailed; }
      r := Success(WordAt(noc.mem, base + (offset + addr)));
    }

    method Write32(addr: nat, value: u32) returns (r: Result<()>)
      requires Valid()
      modifies noc
      ensures r.Success? == InWindow(addr)
      ensures noc.mem == if r.Success? then Store(old(noc.mem), base + offset + addr, value) else old(noc.mem)
    {
      if !(offset + addr + 4 <= size) { return AssertionFailed; }
      if (offset + addr) % 4 != 0 { return AssertionFailed; }
      noc.mem := Store(noc.mem, base + (offset + addr), value);
      r := Success(());
    }
  }

  /** What `get_window` maps for a structure reaches all of it exactly when it does not run over the window's end. */
  lemma StructureInWindow(addr: nat, size: nat, len: nat)
    requires size == 0x20_0000 || size == 0x1_0000_0000
    requires len > 0
    ensures (forall x | addr <= x < addr + len :: BaseOf(x, size) == BaseOf(addr, size))
            <==> OffsetIn(addr, size) + len <= size
  {
    if OffsetIn(addr, size) + len > size {
      var x := BaseOf(addr, size) + size;
      assert addr <= x < addr + len && BaseOf(x, size) >= x - OffsetIn(x, size);
      BaseIsUnique(x, size, x);
    } else {
      forall x | addr <= x < addr + len
        ensures BaseOf(x, size) == BaseOf(addr, size)
      {
        BaseIsUnique(x, size, BaseOf(addr, size));
      }
    }
  }

  // ---------------------------------------------------------------- an L2CPU's memory

  const DRAM_BASE: nat := 0x4000_0000_0000

  function StartingAddress(idx: nat): nat
    requires idx < 4
  {
    if idx < 3 then 0x4000_3000_0000 else 0x4000_b000_0000
  }

  function MemorySize(idx: nat): nat
    requires idx < 4
  {
    if idx < 2 then 0x1_0000_0000 else 0x8000_0000
  }

  /** The four L2CPUs' memories, each inside the 8 GiB that two windows show; only L2CPU 3 starts higher. */
  lemma MemoryMap(idx: nat)
    requires idx < 4
    ensures StartingAddress(idx) == [0x4000_3000_0000, 0x4000_3000_0000, 0x4000_3000_0000, 0x4000_b000_0000][idx]
    ensures MemorySize(idx) == [0x1_0000_0000, 0x1_0000_0000, 0x8000_0000, 0x8000_0000][idx]
    ensures DRAM_BASE <= StartingAddress(idx) && StartingAddress(idx) + MemorySize(idx) <= DRAM_BASE + 2 * FOUR_GIG
    ensures DRAM_BASE == 0x4000_0000_0000
  {
  }

  /** The NOC address behind a byte of the 8 GiB region, through whichever of the two stacked windows holds it. */
  function Behind(first: nat, second: nat, h: nat): nat {
    if h < 0x1_0000_0000 then first + h else second + (h - 0x1_0000_0000)
  }

  /** Wherever the two windows are, the lower half of the region shows the first and the upper half the second. */
  lemma HalfByHalf(first: nat, second: nat, h: nat)
    requires h < 2 * FOUR_GIG
    ensures var a := Behind(first, second, h);
      if h < 4294967296 then a - first == h else a - second == h - 4294967296
  {
  }

  lemma AlignedInside(cpu: L2CPU, a: nat)
    requires cpu.Valid() && cpu.startingAddress <= a < cpu.startingAddress + cpu.memorySize && a % 4 == 0
    ensures a + 4 <= cpu.startingAddress + cpu.memorySize
  {
  }

  lemma SameRemainder(m: nat, r: nat)
    ensures (4 * m + r) % 4 == r % 4
    ensures r < 0x20_0000 && r % 4 == 0 ==> r + 4 <= 0x20_0000
  {
  }

  /** A word fits its 2 MiB window exactly when it is aligned. */
  lemma AlignedFits(addr: nat)
    ensures OffsetIn(addr, 0x20_0000) % 4 == addr % 4
    ensures addr % 4 == 0 ==> OffsetIn(addr, 0x20_0000) + 4 <= 0x20_0000
  {
    SameRemainder(0x8_0000 * (addr / 0x20_0000), addr % 0x20_0000);
  }

  /** In a fresh 2 MiB window for `addr` the word at the window's offset may be accessed exactly when it is aligned. */
  lemma FreshAccess(w: TlbWindow, addr: nat)
    requires w.Valid() && w.size == TWO_MEG && w.base + w.offset == addr
    ensures w.InWindow(0) <==> addr % 4 == 0
  {
    BaseIsUnique(addr, TWO_MEG, w.base);
    AlignedFits(addr);
    hide OffsetIn, BaseOf;
    assert w.offset == OffsetIn(addr, TWO_MEG);
  }

  class L2CPU {
    const idx: nat
    const noc: Noc
    const first: TlbWindow
    const second: TlbWindow
    const startingAddress: nat
    const memorySize: nat

    ghost predicate Valid() {
      && idx < 4 && startingAddress == StartingAddress(idx) && memorySize == MemorySize(idx)
      && first.base == DRAM_BASE && second.base == DRAM_BASE + FOUR_GIG
      && first.offset == second.offset == 0 && first.size == second.size == FOUR_GIG
    }

    constructor (idx: nat, noc: Noc)
      requires idx < 4
      ensures Valid() && this.idx == idx && this.noc == noc
    {
      this.idx, this.noc := idx, noc;
      startingAddress, memorySize := StartingAddress(idx), MemorySize(idx);
      first := new TlbWindow(noc, FOUR_GIG, 0x4000_0000_0000);
      second := new TlbWindow(noc, FOUR_GIG, 0x4001_0000_0000);
      new;
      BaseIsUnique(0x4000_0000_0000, FOUR_GIG, first.base);
      BaseIsUnique(0x4001_0000_0000, FOUR_GIG, second.base);
    }

    /** `get_memory_ptr`, as an offset into the 8 GiB region. */
    function MemoryPtr(): nat
      requires Valid()
    {
      startingAddress - DRAM_BASE
    }

    /** The NOC address reached by `memory + (a - starting_address)`. */
    function Reached(a: nat): nat
      requires Valid() && startingAddress <= a
    {
      Behind(first.base, second.base, MemoryPtr() + (a - startingAddress))
    }

    method Read32(addr: nat) returns (r: Result<u32>)
      ensures r == if addr % 4 == 0 then Success(WordAt(noc.mem, addr)) else AssertionFailed
    {
      var temporaryWindow := new TlbWindow(noc, TWO_MEG, addr);
      FreshAccess(temporaryWindow, addr);
      hide OffsetIn, BaseOf, TlbWindow.InWindow;
      r := temporaryWindow.Read32(0);
    }

    method Write32(addr: nat, value: u32) returns (r: Result<()>)
      modifies noc
      ensures r.Success? == (addr % 4 == 0)
      ensures noc.mem == if r.Success? then Store(old(noc.mem), addr, value) else old(noc.mem)
    {
      var temporaryWindow := new TlbWindow(noc, TWO_MEG, addr);
      FreshAccess(temporaryWindow, addr);
      hide OffsetIn, BaseOf, TlbWindow.InWindow;
      r := temporaryWindow.Write32(0, value);
    }

    /** The word that the flat view shows at `a`, byte by byte through whichever window holds each. */
    function FlatWord(a: nat): u32
      requires Valid() && startingAddress <= a
      reads noc
    {
      var b0: int, b1: int := ByteAt(noc.mem, Reached(a)), ByteAt(noc.mem, Reached(a + 1));
      var b2: int, b3: int := ByteAt(noc.mem, Reached(a + 2)), ByteAt(noc.mem, Reached(a + 3));
      b0 + 0x100 * b1 + 0x1_0000 * b2 + 0x100_0000 * b3
    }

    /** An aligned word of an L2CPU's memory reads the same through a fresh 2 MiB window and in the flat view. */
    method ReadAgrees(addr: nat) returns (r: Result<u32>)
      requires Valid() && startingAddress <= addr < startingAddress + memorySize
      ensures r == if addr % 4 == 0 then Success(FlatWord(addr)) else AssertionFailed
    {
      r := Read32(addr);
      if addr % 4 == 0 {
        AlignedInside(this, addr);
        FlatView(this, addr);
        FlatView(this, addr + 1);
        FlatView(this, addr + 2);
        FlatView(this, addr + 3);
      }
    }

    /** A word stored through one 2 MiB window reads back through another and in the flat view. */
    method WriteThenRead(addr: nat, value: u32) returns (r: Result<u32>)
      requires Valid() && addr % 4 == 0 && startingAddress <= addr < startingAddress + memorySize
      modifies noc
      ensures r == Success(value) && FlatWord(addr) == value
      ensures forall x: nat :: !(addr <= x < addr + 4) ==> ByteAt(noc.mem, x) == ByteAt(old(noc.mem), x)
    {
      var _ := Write32(addr, value);
      WordStored(old(noc.mem), addr, value);
      r := Read32(addr);
      var _ := ReadAgrees(addr);
    }
  }

  /**
   Every address of an L2CPU's memory is reached by its pointer into the flat view, also across
   the seam of the two windows, which the memory of every L2CPU but number 2 straddles; so two
   addresses never share a pointer.
   */
  lemma FlatView(cpu: L2CPU, a: nat)
    requires cpu.Valid() && cpu.startingAddress <= a < cpu.startingAddress + cpu.memorySize
    ensures cpu.MemoryPtr() + (a - cpu.startingAddress) < 2 * FOUR_GIG
    ensures cpu.Reached(a) == a
  {
  }
}

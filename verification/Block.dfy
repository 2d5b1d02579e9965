/** The block device's callbacks on guest memory and the mapped disk image, and what a request means. */
module Block {
  import opened Words
  import opened Bytes
  import opened VirtQueue
  import opened Engine

  // ---------------------------------------------------------------- the request header

  function LittleEndian(bytes: seq<u8>): nat {
    if bytes == [] then 0 else bytes[0] + 0x100 * LittleEndian(bytes[1..])
  }

  /** The `type` field of a `virtio_blk_outhdr`, at byte 0. */
  function HeaderType(h: seq<u8>): nat
    requires |h| == 16
  {
    LittleEndian(h[0..4])
  }

  /** The `sector` field of a `virtio_blk_outhdr`, at byte 8. */
  function HeaderSector(h: seq<u8>): nat
    requires |h| == 16
  {
    LittleEndian(h[8..16])
  }

  const TYPE_IN: nat := 0
  const TYPE_OUT: nat := 1

  /** The 32-bit little-endian word at address `a`, byte by byte. */
  function Word32(m: seq<u8>, a: int): nat {
    var b0: int, b1: int, b2: int, b3: int := Peek(m, a), Peek(m, a + 1), Peek(m, a + 2), Peek(m, a + 3);
    b0 + 0x100 * b1 + 0x1_0000 * b2 + 0x100_0000 * b3
  }

  lemma FourByteValue(b: seq<u8>)
    requires |b| == 4
    ensures LittleEndian(b) == Word32(b, 0)
  {
    assert b[1..][1..] == b[2..] && b[2..][1..] == b[3..] && b[3..][1..] == [];
    assert LittleEndian(b[3..]) == b[3];
    assert LittleEndian(b[2..]) == b[2] + 0x100 * LittleEndian(b[3..]);
    assert LittleEndian(b[1..]) == b[1] + 0x100 * LittleEndian(b[2..]);
  }

  lemma EightByteValue(b: seq<u8>)
    requires |b| == 8
    ensures LittleEndian(b) == LittleEndian(b[0..4]) + 0x1_0000_0000 * LittleEndian(b[4..8])
  {
    assert b[1..][1..] == b[2..] && b[2..][1..] == b[3..] && b[3..][1..] == b[4..] == b[4..8];
    assert LittleEndian(b[3..]) == b[3] + 0x100 * LittleEndian(b[4..]);
    assert LittleEndian(b[2..]) == b[2] + 0x100 * LittleEndian(b[3..]);
    assert LittleEndian(b[1..]) == b[1] + 0x100 * LittleEndian(b[2..]);
    FourByteValue(b[0..4]);
  }

  lemma WordInSlice(m: seq<u8>, a: int, i: nat)
    requires i + 4 <= 16
    ensures Word32(Slice(m, a, 16)[i..i + 4], 0) == Word32(m, a + i)
  {
    var w := Slice(m, a, 16)[i..i + 4];
    assert w[0] == Peek(m, a + i) && w[1] == Peek(m, a + i + 1);
    assert w[2] == Peek(m, a + i + 2) && w[3] == Peek(m, a + i + 3);
  }

  /** The fields of a request header in memory: the type is its first four bytes, the sector its last eight. */
  lemma HeaderFields(m: seq<u8>, a: int)
    ensures HeaderType(Slice(m, a, 16)) == Word32(m, a)
    ensures HeaderSector(Slice(m, a, 16)) == Word32(m, a + 8) + 0x1_0000_0000 * Word32(m, a + 12)
  {
    var h := Slice(m, a, 16);
    FourByteValue(h[0..4]);
    EightByteValue(h[8..16]);
    assert h[8..16][0..4] == h[8..12] && h[8..16][4..8] == h[12..16];
    FourByteValue(h[8..12]);
    FourByteValue(h[12..16]);
    hide LittleEndian;
    WordInSlice(m, a, 0);
    WordInSlice(m, a, 8);
    WordInSlice(m, a, 12);
  }

  // ---------------------------------------------------------------- callbacks

  /** Guest memory from `starting_address` on, the mapped image, and the saved header pointer. */
  datatype Blk = Blk(mem: seq<u8>, image: seq<u8>, req: int)

  /** The `switch` of `process_queue_data`; a type other than IN and OUT moves nothing. */
  function Transfer(b: Blk, op: nat, at: u64, addr: int, len: u32): (r: Blk)
    ensures |r.mem| == |b.mem| && |r.image| == |b.image| && r.req == b.req
  {
    if op == TYPE_IN then b.(mem := Blit(b.mem, addr, Slice(b.image, at, len)))
    else if op == TYPE_OUT then b.(image := Blit(b.image, at, Slice(b.mem, addr, len)))
    else b
  }

  /** `process_queue_start`, `process_queue_data` and `process_queue_complete`. */
  function Handle(b: Blk, cb: Callback): (r: Blk)
    ensures |r.mem| == |b.mem| && |r.image| == |b.image|
  {
    match cb
    case Start(addr, _) => b.(req := addr)
    case Data(addr, len) =>
      var h := Slice(b.mem, b.req, 16);
      Transfer(b, HeaderType(h), Wrap64(512 * HeaderSector(h)), addr, len)
    case Complete(addr, _) => b.(mem := Blit(b.mem, addr, [0]))
  }

  /**
   A data callback, by the bytes of the header: type 0 copies from the image into memory, type 1 from
   memory into the image, at 512 times the sector, and any other type copies nothing.
   */
  lemma DataByHeader(b: Blk, addr: nat, len: u32)
    requires addr + len <= |b.mem|
    ensures var b', op := Handle(b, Data(addr, len)), Word32(b.mem, b.req);
      var sector := Word32(b.mem, b.req + 8) + 0x1_0000_0000 * Word32(b.mem, b.req + 12);
      var at := (512 * sector) % 0x1_0000_0000_0000_0000;
      && b'.req == b.req && |b'.mem| == |b.mem| && |b'.image| == |b.image|
      && (op != 0 ==> b'.mem == b.mem) && (op != 1 ==> b'.image == b.image)
      && (op == 0 && at + len <= |b.image| ==>
            forall x | 0 <= x < |b.mem| ::
              b'.mem[x] == if addr <= x < addr + len then b.image[at + (x - addr)] else b.mem[x])
      && (op == 1 && at + len <= |b.image| ==>
            forall x | 0 <= x < |b.image| ::
              b'.image[x] == if at <= x < at + len then b.mem[addr + (x - at)] else b.image[x])
  {
    hide LittleEndian, Word32, HeaderType, HeaderSector;
    HeaderFields(b.mem, b.req);
  }

  /** A header for sector 513: byte 8 is 1 and byte 9 is 2, so the transfer is at byte 262656 of the image. */
  lemma SectorFromByteEight(m: seq<u8>, a: nat)
    requires a + 16 <= |m| && m[a + 8] == 1 && m[a + 9] == 2 && forall x | a + 10 <= x < a + 16 :: m[x] == 0
    ensures HeaderSector(Slice(m, a, 16)) == 513
    ensures 512 * (Word32(m, a + 8) + 0x1_0000_0000 * Word32(m, a + 12)) == 262656
  {
    HeaderFields(m, a);
  }

  // ---------------------------------------------------------------- requests

  datatype Seg = Seg(addr: int, len: u32)

  /** A block request as the driver means it; `payload` is what its data buffers held when posted. */
  datatype Request = Request(hdr: int, op: nat, sector: nat, segs: seq<Seg>, status: int, payload: seq<seq<u8>>)

  ghost predicate InSeg(s: Seg, x: int) { s.addr <= x < s.addr + s.len }

  ghost predicate SegsApart(s: Seg, t: Seg) {
    forall x :: InSeg(s, x) ==> !InSeg(t, x)
  }

  ghost predicate InSegs(segs: seq<Seg>, x: int) {
    exists i :: 0 <= i < |segs| && InSeg(segs[i], x)
  }

  /** The guest addresses that belong to a request while it is in flight. */
  ghost predicate Foot(r: Request, x: int) {
    r.hdr <= x < r.hdr + 16 || x == r.status || InSegs(r.segs, x)
  }

  /** The guest addresses that the device may write on behalf of a request. */
  ghost predicate Writable(r: Request, x: int) {
    x == r.status || (r.op == TYPE_IN && InSegs(r.segs, x))
  }

  ghost predicate Clear(r: Request, t: Request) {
    forall x :: Foot(r, x) ==> !Foot(t, x)
  }

  /** The descriptors spell out a request: header, data segments, status byte. */
  ghost predicate Describes(cfg: Config, descs: seq<Desc>, r: Request) {
    && |descs| == |r.segs| + 2
    && descs[0].addr - cfg.base == r.hdr && descs[0].len >= 16
    && (forall i | 0 <= i < |r.segs| :: Seg(descs[i + 1].addr - cfg.base, descs[i + 1].len) == r.segs[i])
    && descs[|descs| - 1].addr - cfg.base == r.status && descs[|descs| - 1].len >= 1
  }

  /** Buffers lie in guest memory, do not overlap, and transfers stay within the image. */
  ghost predicate WellPlaced(r: Request, memLen: nat, imageLen: nat) {
    && 0 <= r.hdr && r.hdr + 16 <= memLen && 0 <= r.status < memLen
    && !(r.hdr <= r.status < r.hdr + 16)
    && (forall i | 0 <= i < |r.segs| :: 0 <= r.segs[i].addr && r.segs[i].addr + r.segs[i].len <= memLen)
    && (forall x | InSegs(r.segs, x) :: x != r.status && !(r.hdr <= x < r.hdr + 16))
    && (forall i, j {:trigger SegsApart(r.segs[i], r.segs[j])} | 0 <= i < j < |r.segs| ::
          SegsApart(r.segs[i], r.segs[j]))
    && (r.op == TYPE_IN || r.op == TYPE_OUT ==>
          forall i | 0 <= i < |r.segs| :: 512 * r.sector + r.segs[i].len <= imageLen)
    && imageLen < 0x1_0000_0000_0000_0000
    && (r.op == TYPE_OUT ==> |r.payload| == |r.segs| && forall i | 0 <= i < |r.segs| :: |r.payload[i]| == r.segs[i].len)
  }

  /** Guest memory holds the request's header and, for a write, its data. */
  ghost predicate Holds(mem: seq<u8>, r: Request) {
    && HeaderType(Slice(mem, r.hdr, 16)) == r.op
    && HeaderSector(Slice(mem, r.hdr, 16)) == r.sector
    && (r.op == TYPE_OUT ==>
          && |r.payload| == |r.segs|
          && forall i | 0 <= i < |r.segs| :: Slice(mem, r.segs[i].addr, r.segs[i].len) == r.payload[i])
  }

  /** What the driver has written for a request, byte by byte. */
  lemma HeldHeader(mem: seq<u8>, r: Request)
    requires Holds(mem, r)
    ensures r.op == Word32(mem, r.hdr)
    ensures r.sector == Word32(mem, r.hdr + 8) + 0x1_0000_0000 * Word32(mem, r.hdr + 12)
  {
    HeaderFields(mem, r.hdr);
  }

  // ---------------------------------------------------------------- the disk as a byte array

  /** The image after the first `k` data segments of a request. */
  ghost function Wrote(image: seq<u8>, r: Request, k: nat): (d: seq<u8>)
    requires k <= |r.segs| && (r.op == TYPE_OUT ==> |r.payload| == |r.segs|)
    ensures |d| == |image|
  {
    if k == 0 || r.op != TYPE_OUT then image
    else Blit(Wrote(image, r, k - 1), 512 * r.sector, r.payload[k - 1])
  }

  ghost predicate Paid(reqs: seq<Request>) {
    forall i | 0 <= i < |reqs| :: reqs[i].op == TYPE_OUT ==> |reqs[i].payload| == |reqs[i].segs|
  }

  /** The abstract disk: the first `n` requests applied to `image` in order, one at a time. */
  ghost function Disk(image: seq<u8>, reqs: seq<Request>, n: nat): (d: seq<u8>)
    requires n <= |reqs| && Paid(reqs)
    ensures |d| == |image|
  {
    if n == 0 then image
    else Wrote(Disk(image, reqs, n - 1), reqs[n - 1], |reqs[n - 1].segs|)
  }

  /** The first `k` buffers of a read hold the disk's bytes. */
  ghost predicate ReadOut(mem: seq<u8>, r: Request, disk: seq<u8>, k: nat)
    requires k <= |r.segs|
  {
    r.op == TYPE_IN ==>
      forall i | 0 <= i < k :: Slice(mem, r.segs[i].addr, r.segs[i].len) == Slice(disk, 512 * r.sector, r.segs[i].len)
  }

  /** A request answered against `disk`: every read buffer filled, status byte 0. */
  ghost predicate Answered(mem: seq<u8>, r: Request, disk: seq<u8>) {
    ReadOut(mem, r, disk, |r.segs|) && Peek(mem, r.status) == 0
  }

  // ---------------------------------------------------------------- the callbacks implement it

  /** A request's chain produces start on the header, data on each segment, complete on the status. */
  lemma DueOf(cfg: Config, descs: seq<Desc>, r: Request, k: nat)
    requires cfg.headerSize == 16 && Describes(cfg, descs, r) && k < |descs|
    ensures var cb := Due(cfg, descs, k);
      if k == 0 then cb.Start? && cb.addr == r.hdr
      else if k <= |r.segs| then cb == Data(r.segs[k - 1].addr, r.segs[k - 1].len)
      else cb.Complete? && cb.addr == r.status
  {
    if 0 < k <= |r.segs| {
      TotalMonotone(descs, 1, k);
      assert Total(descs, 1) == Total(descs, 0) + descs[0].len;
      assert Seg(descs[k - 1 + 1].addr - cfg.base, descs[k - 1 + 1].len) == r.segs[k - 1];
    }
  }

  lemma BlitHere(m: seq<u8>, to: Seg, src: seq<u8>)
    requires 0 <= to.addr && to.addr + to.len <= |m| && |src| == to.len
    ensures Slice(Blit(m, to.addr, src), to.addr, to.len) == src
    ensures forall x | !InSeg(to, x) :: Peek(Blit(m, to.addr, src), x) == Peek(m, x)
  {
  }

  ghost predicate SameOutside(m: seq<u8>, m': seq<u8>, s: Seg) {
    forall x :: !InSeg(s, x) ==> Peek(m', x) == Peek(m, x)
  }

  lemma SliceOutside(m: seq<u8>, m': seq<u8>, s: Seg, t: Seg)
    requires SameOutside(m, m', s) && SegsApart(t, s)
    ensures Slice(m', t.addr, t.len) == Slice(m, t.addr, t.len)
  {
    forall x | t.addr <= x < t.addr + t.len
      ensures Peek(m', x) == Peek(m, x)
    {
      assert InSeg(t, x);
    }
    SliceSame(m', m, t.addr, t.len);
  }

  /** Filling segment `k` of a read leaves its header and the segments before it alone. */
  lemma FillKeeps(m: seq<u8>, m': seq<u8>, r: Request, disk: seq<u8>, k: nat)
    requires k < |r.segs| && WellPlaced(r, |m|, |disk|) && Holds(m, r) && r.op == TYPE_IN
    requires ReadOut(m, r, disk, k) && SameOutside(m, m', r.segs[k])
    requires Slice(m', r.segs[k].addr, r.segs[k].len) == Slice(disk, 512 * r.sector, r.segs[k].len)
    ensures Holds(m', r) && ReadOut(m', r, disk, k + 1)
  {
    assert SegsApart(Seg(r.hdr, 16), r.segs[k]) by {
      assert forall x | InSeg(r.segs[k], x) :: InSegs(r.segs, x);
    }
    SliceOutside(m, m', r.segs[k], Seg(r.hdr, 16));
    forall i | 0 <= i < k
      ensures Slice(m', r.segs[i].addr, r.segs[i].len) == Slice(m, r.segs[i].addr, r.segs[i].len)
    {
      assert SegsApart(r.segs[i], r.segs[k]);
      SliceOutside(m, m', r.segs[k], r.segs[i]);
    }
  }

  /** The header in memory selects the transfer that the request means. */
  lemma HandleData(b: Blk, r: Request, k: nat, imageLen: nat)
    requires k < |r.segs| && WellPlaced(r, |b.mem|, imageLen) && Holds(b.mem, r) && b.req == r.hdr
    requires r.op == TYPE_IN || r.op == TYPE_OUT
    ensures 512 * r.sector + r.segs[k].len <= imageLen < 0x1_0000_0000_0000_0000
    ensures var s := r.segs[k];
      Handle(b, Data(s.addr, s.len)) == Transfer(b, r.op, 512 * r.sector, s.addr, s.len)
  {
    hide LittleEndian;
  }

  lemma ReadStep(b: Blk, r: Request, disk: seq<u8>, k: nat, b': Blk)
    requires k < |r.segs| && WellPlaced(r, |b.mem|, |disk|) && Holds(b.mem, r) && ReadOut(b.mem, r, disk, k)
    requires 512 * r.sector < 0x1_0000_0000_0000_0000
    requires r.op == TYPE_IN && b.image == disk
    requires b' == Transfer(b, r.op, 512 * r.sector, r.segs[k].addr, r.segs[k].len)
    ensures SameOutside(b.mem, b'.mem, r.segs[k]) && Holds(b'.mem, r) && ReadOut(b'.mem, r, disk, k + 1)
  {
    var s := r.segs[k];
    assert 0 <= s.addr && s.addr + s.len <= |b.mem|;
    BlitHere(b.mem, s, Slice(disk, 512 * r.sector, s.len));
    FillKeeps(b.mem, b'.mem, r, disk, k);
  }

  lemma WriteStep(b: Blk, r: Request, disk: seq<u8>, k: nat, b': Blk)
    requires k < |r.segs| && Holds(b.mem, r) && r.op == TYPE_OUT && b.image == Wrote(disk, r, k)
    requires 512 * r.sector < 0x1_0000_0000_0000_0000
    requires b' == Transfer(b, r.op, 512 * r.sector, r.segs[k].addr, r.segs[k].len)
    ensures b'.image == Wrote(disk, r, k + 1)
  {
    assert Slice(b.mem, r.segs[k].addr, r.segs[k].len) == r.payload[k];
  }

  /** One data callback carries the request one segment further and touches only that segment. */
  lemma DataStep(b: Blk, r: Request, disk: seq<u8>, k: nat)
    requires k < |r.segs| && WellPlaced(r, |b.mem|, |disk|) && Holds(b.mem, r) && b.req == r.hdr
    requires b.image == Wrote(disk, r, k) && ReadOut(b.mem, r, disk, k)
    ensures var b' := Handle(b, Data(r.segs[k].addr, r.segs[k].len));
      && b'.req == r.hdr && b'.image == Wrote(disk, r, k + 1)
      && Holds(b'.mem, r) && ReadOut(b'.mem, r, disk, k + 1)
      && (if r.op == TYPE_IN then SameOutside(b.mem, b'.mem, r.segs[k]) else b'.mem == b.mem)
  {
    var b' := Handle(b, Data(r.segs[k].addr, r.segs[k].len));
    if r.op == TYPE_IN {
      HandleData(b, r, k, |disk|);
      ReadStep(b, r, disk, k, b');
    } else if r.op == TYPE_OUT {
      HandleData(b, r, k, |disk|);
      WriteStep(b, r, disk, k, b');
    }
  }

  /** The complete callback answers the request and touches only the status byte. */
  lemma CompleteStep(b: Blk, r: Request, disk: seq<u8>, len: u32)
    requires WellPlaced(r, |b.mem|, |disk|) && Holds(b.mem, r) && ReadOut(b.mem, r, disk, |r.segs|)
    ensures var b' := Handle(b, Complete(r.status, len));
      && b'.image == b.image && Holds(b'.mem, r) && Answered(b'.mem, r, disk)
      && forall x | x != r.status :: Peek(b'.mem, x) == Peek(b.mem, x)
  {
    var b' := Handle(b, Complete(r.status, len));
    SliceSame(b.mem, b'.mem, r.hdr, 16);
    forall i | 0 <= i < |r.segs|
      ensures Slice(b'.mem, r.segs[i].addr, r.segs[i].len) == Slice(b.mem, r.segs[i].addr, r.segs[i].len)
    {
      forall x | InSeg(r.segs[i], x)
        ensures Peek(b'.mem, x) == Peek(b.mem, x)
      {
        assert InSegs(r.segs, x);
      }
      SliceSame(b.mem, b'.mem, r.segs[i].addr, r.segs[i].len);
    }
  }

  ghost predicate SameOn(m: seq<u8>, m': seq<u8>, r: Request) {
    forall x :: Foot(r, x) ==> Peek(m, x) == Peek(m', x)
  }

  /** Memory that agrees on a request's buffers agrees on everything said about the request. */
  lemma SameOnKeeps(m: seq<u8>, m': seq<u8>, r: Request)
    requires SameOn(m, m', r)
    ensures Holds(m, r) ==> Holds(m', r)
    ensures forall disk, k: nat :: k <= |r.segs| && ReadOut(m, r, disk, k) ==> ReadOut(m', r, disk, k)
    ensures Peek(m, r.status) == Peek(m', r.status)
  {
    assert Foot(r, r.status);
    forall x | r.hdr <= x < r.hdr + 16
      ensures Peek(m, x) == Peek(m', x)
    {
      assert Foot(r, x);
    }
    SliceSame(m, m', r.hdr, 16);
    forall i | 0 <= i < |r.segs|
      ensures Slice(m, r.segs[i].addr, r.segs[i].len) == Slice(m', r.segs[i].addr, r.segs[i].len)
    {
      forall x | r.segs[i].addr <= x < r.segs[i].addr + r.segs[i].len
        ensures Peek(m, x) == Peek(m', x)
      {
        assert InSeg(r.segs[i], x) && Foot(r, x);
      }
      SliceSame(m, m', r.segs[i].addr, r.segs[i].len);
    }
  }

  // ---------------------------------------------------------------- what the abstract disk means

  /** Segment `k` of request `j` writes byte `x` of the image. */
  ghost predicate Covers(reqs: seq<Request>, j: nat, k: nat, x: int)
    requires Paid(reqs) && j < |reqs| && k < |reqs[j].segs|
  {
    reqs[j].op == TYPE_OUT && 512 * reqs[j].sector <= x < 512 * reqs[j].sector + |reqs[j].payload[k]|
  }

  /** Segment `(j, k)` is the last before request `n` to write byte `x`. */
  ghost predicate LastWriter(reqs: seq<Request>, n: nat, j: nat, k: nat, x: int)
    requires Paid(reqs) && j < n <= |reqs| && k < |reqs[j].segs|
  {
    && Covers(reqs, j, k, x)
    && (forall k' | k < k' < |reqs[j].segs| :: !Covers(reqs, j, k', x))
    && (forall j', k' | j < j' < n && 0 <= k' < |reqs[j'].segs| :: !Covers(reqs, j', k', x))
  }

  lemma {:induction false} WroteByte(image: seq<u8>, reqs: seq<Request>, j: nat, n: nat, k: nat, x: nat)
    requires Paid(reqs) && j < |reqs| && k < n <= |reqs[j].segs| && x < |image|
    requires Covers(reqs, j, k, x) && forall k' | k < k' < n :: !Covers(reqs, j, k', x)
    ensures Wrote(image, reqs[j], n)[x] == reqs[j].payload[k][x - 512 * reqs[j].sector]
  {
    if k == n - 1 {
    } else {
      assert !Covers(reqs, j, n - 1, x);
      WroteByte(image, reqs, j, n - 1, k, x);
    }
  }

  lemma {:induction false} WroteElsewhere(image: seq<u8>, reqs: seq<Request>, j: nat, n: nat, x: nat)
    requires Paid(reqs) && j < |reqs| && n <= |reqs[j].segs| && x < |image|
    requires forall k' | 0 <= k' < n :: !Covers(reqs, j, k', x)
    ensures Wrote(image, reqs[j], n)[x] == image[x]
  {
    if n == 0 {
    } else {
      assert !Covers(reqs, j, n - 1, x);
      WroteElsewhere(image, reqs, j, n - 1, x);
    }
  }

  /** Each byte of the disk is the one the last write to it carried. */
  lemma {:induction false} DiskHoldsLastWrite(image: seq<u8>, reqs: seq<Request>, n: nat, j: nat, k: nat, x: nat)
    requires Paid(reqs) && j < n <= |reqs| && k < |reqs[j].segs| && x < |image|
    requires LastWriter(reqs, n, j, k, x)
    ensures Disk(image, reqs, n)[x] == reqs[j].payload[k][x - 512 * reqs[j].sector]
  {
    var before := Disk(image, reqs, n - 1);
    if j == n - 1 {
      WroteByte(before, reqs, j, |reqs[j].segs|, k, x);
    } else {
      WroteElsewhere(before, reqs, n - 1, |reqs[n - 1].segs|, x);
      DiskHoldsLastWrite(image, reqs, n - 1, j, k, x);
    }
  }

  /** Bytes that nothing wrote are those of the initial image. */
  lemma {:induction false} DiskKeepsUnwritten(image: seq<u8>, reqs: seq<Request>, n: nat, x: nat)
    requires Paid(reqs) && n <= |reqs| && x < |image|
    requires forall j, k | 0 <= j < n && 0 <= k < |reqs[j].segs| :: !Covers(reqs, j, k, x)
    ensures Disk(image, reqs, n)[x] == image[x]
  {
    hide Covers, Wrote;
    if n == 0 {
    } else {
      DiskKeepsUnwritten(image, reqs, n - 1, x);
      WroteElsewhere(Disk(image, reqs, n - 1), reqs, n - 1, |reqs[n - 1].segs|, x);
    }
  }

  // ---------------------------------------------------------------- several data segments

  function Flat(parts: seq<seq<u8>>): seq<u8> {
    if parts == [] then [] else parts[0] + Flat(parts[1..])
  }

  /** A write as the standard means it: the segments laid end to end from the sector on. */
  ghost predicate WritesFlat(image: seq<u8>, r: Request)
    requires r.op == TYPE_OUT && |r.payload| == |r.segs|
  {
    Wrote(image, r, |r.segs|) == Blit(image, 512 * r.sector, Flat(r.payload))
  }

  ghost predicate AtMostOneFilled(segs: seq<Seg>) {
    forall i, j | 0 <= i < j < |segs| :: segs[i].len == 0 || segs[j].len == 0
  }

  ghost predicate FitsShape(r: Request) {
    r.op == TYPE_OUT && |r.payload| == |r.segs| && forall i | 0 <= i < |r.segs| :: |r.payload[i]| == r.segs[i].len
  }

  lemma {:induction false} FlatEmpty(parts: seq<seq<u8>>)
    requires forall i | 0 <= i < |parts| :: parts[i] == []
    ensures Flat(parts) == []
  {
    if parts == [] {
    } else {
      FlatEmpty(parts[1..]);
    }
  }

  lemma {:induction false} FlatSingle(parts: seq<seq<u8>>, k: nat)
    requires k < |parts| && forall i | 0 <= i < |parts| && i != k :: parts[i] == []
    ensures Flat(parts) == parts[k]
  {
    if k == 0 {
      FlatEmpty(parts[1..]);
    } else {
      FlatSingle(parts[1..], k - 1);
    }
  }

  lemma {:induction false} WroteEmpty(image: seq<u8>, r: Request, n: nat)
    requires FitsShape(r) && n <= |r.segs| && forall i | 0 <= i < n :: r.segs[i].len == 0
    ensures Wrote(image, r, n) == image
  {
    if n == 0 {
    } else {
      WroteEmpty(image, r, n - 1);
    }
  }

  lemma {:induction false} WroteSingle(image: seq<u8>, r: Request, n: nat, k: nat)
    requires FitsShape(r) && k < n <= |r.segs| && forall i | 0 <= i < n && i != k :: r.segs[i].len == 0
    ensures Wrote(image, r, n) == Blit(image, 512 * r.sector, r.payload[k])
  {
    if k == n - 1 {
      WroteEmpty(image, r, n - 1);
    } else {
      WroteSingle(image, r, n - 1, k);
    }
  }

  lemma {:induction false} FlatHead(parts: seq<seq<u8>>, k: nat)
    requires k < |parts| && parts[k] != [] && forall i | 0 <= i < k :: parts[i] == []
    ensures Flat(parts) != [] && Flat(parts)[0] == parts[k][0]
  {
    if k == 0 {
    } else {
      FlatHead(parts[1..], k - 1);
    }
  }

  lemma LeastFilled(segs: seq<Seg>, i: nat) returns (k: nat)
    requires i < |segs| && segs[i].len > 0
    ensures k <= i && segs[k].len > 0 && forall j | 0 <= j < k :: segs[j].len == 0
  {
    k := i;
    while exists j :: 0 <= j < k && segs[j].len > 0
      invariant k <= i && segs[k].len > 0
      decreases k
    {
      var j :| 0 <= j < k && segs[j].len > 0;
      k := j;
    }
  }

  lemma GreatestFilled(segs: seq<Seg>, i: nat) returns (k: nat)
    requires i < |segs| && segs[i].len > 0
    ensures i <= k < |segs| && segs[k].len > 0 && forall j | k < j < |segs| :: segs[j].len == 0
  {
    k := i;
    while exists j :: k < j < |segs| && segs[j].len > 0
      invariant i <= k < |segs| && segs[k].len > 0
      decreases |segs| - k
    {
      var j :| k < j < |segs| && segs[j].len > 0;
      k := j;
    }
  }

  /** Ones in segment `first`, zeros everywhere else. */
  function Marked(segs: seq<Seg>, first: nat): (r: seq<seq<u8>>)
    ensures |r| == |segs| && forall i | 0 <= i < |r| :: |r[i]| == segs[i].len
    ensures forall i, x | 0 <= i < |r| && 0 <= x < |r[i]| :: r[i][x] == if i == first then 1 else 0
  {
    seq(|segs|, i requires 0 <= i < |segs| => seq<u8>(segs[i].len, _ => if i == first then 1 else 0))
  }

  lemma MarkedOverlaid(image: seq<u8>, t: Request, first: nat, last: nat)
    requires first < last < |t.segs| && t.op == TYPE_OUT && t.payload == Marked(t.segs, first)
    requires t.segs[last].len > 0 && forall k | last < k < |t.segs| :: t.segs[k].len == 0
    requires 512 * t.sector < |image|
    ensures Wrote(image, t, |t.segs|)[512 * t.sector] == 0
  {
    hide Marked, Wrote;
    var reqs := [t];
    assert forall k' | last < k' < |t.segs| :: !Covers(reqs, 0, k', 512 * t.sector);
    assert Covers(reqs, 0, last, 512 * t.sector);
    WroteByte(image, reqs, 0, |t.segs|, last, 512 * t.sector);
  }

  /** When two segments carry data, ones in the first and zeros after it end up in the wrong place. */
  lemma OverlaidNotFlat(image: seq<u8>, r: Request, i: nat, j: nat)
    requires i < j < |r.segs| && r.segs[i].len > 0 && r.segs[j].len > 0
    requires 512 * r.sector < |image|
    ensures exists t: Request :: FitsShape(t) && t.segs == r.segs && t.sector == r.sector && !WritesFlat(image, t)
  {
    var first := LeastFilled(r.segs, i);
    var last := GreatestFilled(r.segs, j);
    var t := Request(r.hdr, TYPE_OUT, r.sector, r.segs, r.status, Marked(r.segs, first));
    assert Blit(image, 512 * t.sector, Flat(t.payload))[512 * t.sector] == 1 by {
      FlatHead(t.payload, first);
    }
    assert Wrote(image, t, |t.segs|)[512 * t.sector] == 0 by {
      MarkedOverlaid(image, t, first, last);
    }
    assert FitsShape(t) && !WritesFlat(image, t);
  }

  lemma OneSegmentWritesFlat(image: seq<u8>, t: Request)
    requires FitsShape(t) && AtMostOneFilled(t.segs)
    ensures WritesFlat(image, t)
  {
    if k :| 0 <= k < |t.segs| && t.segs[k].len > 0 {
      FlatSingle(t.payload, k);
      WroteSingle(image, t, |t.segs|, k);
    } else {
      FlatEmpty(t.payload);
      WroteEmpty(image, t, |t.segs|);
    }
  }

  /**
   Every data descriptor of a request is transferred at the same image offset, so a write is
   the flat one, whatever its data, exactly when at most one of its segments is non-empty.
   */
  lemma FlatWriteIffOneSegment(image: seq<u8>, r: Request)
    requires 512 * r.sector < |image|
    ensures (forall t: Request :: FitsShape(t) && t.segs == r.segs && t.sector == r.sector ==> WritesFlat(image, t))
            <==> AtMostOneFilled(r.segs)
  {
    if AtMostOneFilled(r.segs) {
      forall t: Request | FitsShape(t) && t.segs == r.segs && t.sector == r.sector
        ensures WritesFlat(image, t)
      {
        OneSegmentWritesFlat(image, t);
      }
    } else {
      var i, j :| 0 <= i < j < |r.segs| && r.segs[i].len != 0 && r.segs[j].len != 0;
      OverlaidNotFlat(image, r, i, j);
    }
  }

  /** Bytes of the segments before segment `i`. */
  function Before(segs: seq<Seg>, i: nat): nat
    requires i <= |segs|
  {
    if i == 0 then 0 else Before(segs, i - 1) + segs[i - 1].len
  }

  /**
   A read as the standard means it, segment `i` taking up where the ones before it end, gives
   every segment the bytes that the device gives it, all of which start at the sector.
   */
  ghost predicate ReadsFlat(disk: seq<u8>, sector: nat, segs: seq<Seg>) {
    forall i {:trigger segs[i]} | 0 <= i < |segs| ::
      Slice(disk, 512 * sector, segs[i].len) == Slice(disk, 512 * sector + Before(segs, i), segs[i].len)
  }

  lemma {:induction false} BeforeEmpty(segs: seq<Seg>, n: nat)
    requires n <= |segs| && forall i | 0 <= i < n :: segs[i].len == 0
    ensures Before(segs, n) == 0
  {
    if n == 0 {
    } else {
      BeforeEmpty(segs, n - 1);
    }
  }

  lemma {:induction false} BeforeGrows(segs: seq<Seg>, i: nat, j: nat)
    requires i < j <= |segs|
    ensures Before(segs, j) >= Before(segs, i) + segs[i].len
  {
    if j == i + 1 {
    } else {
      BeforeGrows(segs, i, j - 1);
    }
  }

  lemma OneSegmentReadsFlat(disk: seq<u8>, sector: nat, segs: seq<Seg>)
    requires AtMostOneFilled(segs)
    ensures ReadsFlat(disk, sector, segs)
  {
    hide Slice, Before;
    forall i | 0 <= i < |segs|
      ensures Slice(disk, 512 * sector, segs[i].len) == Slice(disk, 512 * sector + Before(segs, i), segs[i].len)
    {
      if segs[i].len > 0 {
        BeforeEmpty(segs, i);
      }
    }
  }

  /** A disk with a single 1, at the sector: only the first filled segment should begin with it. */
  lemma SecondSegmentMisread(sector: nat, segs: seq<Seg>, n: nat, i: nat, j: nat)
    requires 512 * sector < n && i < j < |segs| && segs[i].len > 0 && segs[j].len > 0
    ensures exists disk: seq<u8> :: |disk| == n && !ReadsFlat(disk, sector, segs)
  {
    var disk := seq<u8>(n, x => if x == 512 * sector then 1 else 0);
    BeforeGrows(segs, i, j);
    assert Slice(disk, 512 * sector, segs[j].len)[0] == 1;
    assert Slice(disk, 512 * sector + Before(segs, j), segs[j].len)[0] == 0;
    assert |disk| == n && !ReadsFlat(disk, sector, segs);
  }

  /** So a read is the flat one, whatever the disk holds, exactly when at most one segment is non-empty. */
  lemma FlatReadIffOneSegment(sector: nat, segs: seq<Seg>, n: nat)
    requires 512 * sector < n
    ensures (forall disk: seq<u8> :: |disk| == n ==> ReadsFlat(disk, sector, segs)) <==> AtMostOneFilled(segs)
  {
    if AtMostOneFilled(segs) {
      forall disk: seq<u8> | |disk| == n
        ensures ReadsFlat(disk, sector, segs)
      {
        OneSegmentReadsFlat(disk, sector, segs);
      }
    } else {
      var i, j :| 0 <= i < j < |segs| && segs[i].len != 0 && segs[j].len != 0;
      SecondSegmentMisread(sector, segs, n, i, j);
    }
  }
}

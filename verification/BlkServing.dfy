/**
 Serving one block request, and a backlog of them, as sequential code does: what the callbacks of
 a chain amount to, and how they follow from the request the chain spells out.
 */
module BlkServing {
  import opened Words
  import opened Bytes
  import opened VirtQueue
  import opened Engine
  import opened Block
  import opened BlockRuns

  // ---------------------------------------------------------------- callbacks in a row

  /** The state after the first `n` callbacks. */
  function HandleUpTo(b: Blk, calls: seq<Callback>, n: nat): (r: Blk)
    requires n <= |calls|
    ensures |r.mem| == |b.mem| && |r.image| == |b.image|
  {
    if n == 0 then b else Handle(HandleUpTo(b, calls, n - 1), calls[n - 1])
  }

  lemma HandleNext(b: Blk, calls: seq<Callback>, k: nat)
    requires k < |calls|
    ensures HandleUpTo(b, calls, k + 1) == Handle(HandleUpTo(b, calls, k), calls[k])
  {
  }

  /** The memory a callback touches exists. */
  ghost predicate CallFits(b: Blk, cb: Callback) {
    match cb
    case Start(_, _) => true
    case Data(addr, len) =>
      && 0 <= b.req && b.req + 16 <= |b.mem| && 0 <= addr && addr + len <= |b.mem|
      && var h := Slice(b.mem, b.req, 16);
      HeaderType(h) == TYPE_IN || HeaderType(h) == TYPE_OUT ==> Wrap64(512 * HeaderSector(h)) + len <= |b.image|
    case Complete(addr, _) => 0 <= addr < |b.mem|
  }

  /** Every callback in the row finds its memory. */
  ghost predicate AllFit(b: Blk, calls: seq<Callback>) {
    forall k | 0 <= k < |calls| :: CallFits(HandleUpTo(b, calls, k), calls[k])
  }

  lemma FitsAt(b: Blk, calls: seq<Callback>, k: nat)
    requires AllFit(b, calls) && k < |calls|
    ensures CallFits(HandleUpTo(b, calls, k), calls[k])
  {
  }

  /** The walk over `chain` stands at its descriptor `pos`, after `bytes` bytes. */
  ghost predicate AtTurn(table: seq<Desc>, chain: seq<nat>, descIdx: u16, bytes: u64, pos: nat) {
    && |table| == 16384 && IsChain(table, chain) && pos < |chain|
    && Slot(descIdx) == chain[pos] && bytes == Total(Descs(table, chain), pos)
  }

  lemma FirstTurn(table: seq<Desc>, chain: seq<nat>, descIdx: u16, b: Blk, calls: seq<Callback>)
    requires |table| == 16384 && IsChain(table, chain) && Slot(descIdx) == chain[0]
    ensures AtTurn(table, chain, descIdx, 0, 0) && HandleUpTo(b, calls, 0) == b
  {
  }

  /** At descriptor `pos`, the flag and byte count select the callback that is due. */
  lemma TurnIsDue(cfg: Config, table: seq<Desc>, chain: seq<nat>, descIdx: u16, bytes: u64, pos: nat)
    requires AtTurn(table, chain, descIdx, bytes, pos)
    ensures pos < |chain| && |table| == 16384 && forall i | 0 <= i < |chain| :: chain[i] < |table|
    ensures var descs, d := Descs(table, chain), table[Slot(descIdx)];
      && CallbackFor(cfg, d, bytes) == DueAll(cfg, descs)[pos]
      && if HasNext(d) then AtTurn(table, chain, d.next, Wrap64(bytes + d.len), pos + 1)
         else pos + 1 == |chain| && Wrap64(bytes + d.len) == Total(descs, |chain|)
  {
    ChainBytes(table, chain, pos + 1);
    assert pos < |chain| - 1 ==> Linked(table, chain, pos);
  }

  // ---------------------------------------------------------------- one request

  ghost predicate OnlyWrites(m: seq<u8>, m': seq<u8>, r: Request) {
    forall x :: !Writable(r, x) ==> Peek(m', x) == Peek(m, x)
  }

  /** Request `r` is half served: the walk stands at descriptor `pos`, having started from `before`. */
  ghost predicate Serving(cfg: Config, descs: seq<Desc>, b: Blk, before: Blk, r: Request, pos: nat) {
    var k := if pos > 0 then pos - 1 else 0;
    && cfg.headerSize == 16 && Describes(cfg, descs, r) && pos < |descs|
    && (pos > 0 ==> b.req == r.hdr)
    && |b.mem| == |before.mem| && |b.image| == |before.image|
    && WellPlaced(r, |b.mem|, |before.image|) && Holds(b.mem, r)
    && b.image == Wrote(before.image, r, k) && ReadOut(b.mem, r, before.image, k)
    && OnlyWrites(before.mem, b.mem, r)
  }

  ghost predicate Served(b: Blk, before: Blk, r: Request)
    requires r.op == TYPE_OUT ==> |r.payload| == |r.segs|
  {
    && b.image == Wrote(before.image, r, |r.segs|) && Answered(b.mem, r, before.image) && Holds(b.mem, r)
    && OnlyWrites(before.mem, b.mem, r)
  }

  lemma SegmentInBounds(b: Blk, r: Request, k: nat)
    requires k < |r.segs| && WellPlaced(r, |b.mem|, |b.image|) && Holds(b.mem, r) && b.req == r.hdr
    ensures CallFits(b, Data(r.segs[k].addr, r.segs[k].len))
  {
    if r.op == TYPE_IN || r.op == TYPE_OUT {
      HandleData(b, r, k, |b.image|);
    }
  }

  /** A data callback stays within what the request lets the device write. */
  lemma DataWrites(b: Blk, r: Request, before: Blk, k: nat)
    requires k < |r.segs| && WellPlaced(r, |b.mem|, |before.image|) && Holds(b.mem, r) && b.req == r.hdr
    requires b.image == Wrote(before.image, r, k) && ReadOut(b.mem, r, before.image, k)
    requires OnlyWrites(before.mem, b.mem, r)
    ensures OnlyWrites(before.mem, Handle(b, Data(r.segs[k].addr, r.segs[k].len)).mem, r)
  {
    DataStep(b, r, before.image, k);
    forall x | !Writable(r, x)
      ensures r.op == TYPE_IN ==> !InSeg(r.segs[k], x)
    {
      assert InSeg(r.segs[k], x) ==> InSegs(r.segs, x);
    }
  }

  lemma CompleteWrites(b: Blk, r: Request, before: Blk, len: u32)
    requires OnlyWrites(before.mem, b.mem, r) && WellPlaced(r, |b.mem|, |before.image|)
    ensures CallFits(b, Complete(r.status, len))
    ensures OnlyWrites(before.mem, Handle(b, Complete(r.status, len)).mem, r)
  {
  }

  lemma ServingShape(cfg: Config, descs: seq<Desc>, b: Blk, before: Blk, r: Request, pos: nat)
    requires Serving(cfg, descs, b, before, r, pos)
    ensures |descs| == |r.segs| + 2 && (r.op == TYPE_OUT ==> |r.payload| == |r.segs|)
  {
  }

  lemma ServeStep(cfg: Config, descs: seq<Desc>, b: Blk, before: Blk, r: Request, pos: nat)
    requires Serving(cfg, descs, b, before, r, pos)
    ensures CallFits(b, Due(cfg, descs, pos))
    ensures var b' := Handle(b, Due(cfg, descs, pos));
      if pos < |descs| - 1 then Serving(cfg, descs, b', before, r, pos + 1) else Served(b', before, r)
  {
    hide Describes, WellPlaced, Holds, Answered, ReadOut, OnlyWrites;
    assert |descs| == |r.segs| + 2 && (r.op == TYPE_OUT ==> |r.payload| == |r.segs|) by {
      ServingShape(cfg, descs, b, before, r, pos);
    }
    DueOf(cfg, descs, r, pos);
    if 0 < pos < |descs| - 1 {
      SegmentInBounds(b, r, pos - 1);
      DataStep(b, r, before.image, pos - 1);
      DataWrites(b, r, before, pos - 1);
    } else if pos == |descs| - 1 {
      CompleteStep(b, r, before.image, descs[pos].len);
      CompleteWrites(b, r, before, descs[pos].len);
    }
  }

  lemma {:induction false} ServingUpTo(cfg: Config, descs: seq<Desc>, b: Blk, r: Request, k: nat)
    requires Serving(cfg, descs, b, b, r, 0) && k < |descs|
    ensures Serving(cfg, descs, HandleUpTo(b, DueAll(cfg, descs), k), b, r, k)
  {
    hide Serving, Handle, Due;
    if k == 0 {
    } else {
      ServingUpTo(cfg, descs, b, r, k - 1);
      ServeStep(cfg, descs, HandleUpTo(b, DueAll(cfg, descs), k - 1), b, r, k - 1);
    }
  }

  lemma ServedInFull(cfg: Config, descs: seq<Desc>, b: Blk, r: Request)
    requires Serving(cfg, descs, b, b, r, 0)
    ensures |descs| > 0 && (r.op == TYPE_OUT ==> |r.payload| == |r.segs|)
    ensures Served(HandleUpTo(b, DueAll(cfg, descs), |descs|), b, r)
  {
    hide Serving, Served, Handle, HandleUpTo, CallFits, Due;
    ServingShape(cfg, descs, b, b, r, 0);
    ServingUpTo(cfg, descs, b, r, |descs| - 1);
    ServeStep(cfg, descs, HandleUpTo(b, DueAll(cfg, descs), |descs| - 1), b, r, |descs| - 1);
    HandleNext(b, DueAll(cfg, descs), |descs| - 1);
  }

  /** The callbacks of a well-placed request's chain all find their memory, and between them serve the request. */
  lemma CallbacksServe(cfg: Config, descs: seq<Desc>, b: Blk, r: Request)
    requires Serving(cfg, descs, b, b, r, 0)
    ensures AllFit(b, DueAll(cfg, descs))
    ensures r.op == TYPE_OUT ==> |r.payload| == |r.segs|
    ensures Served(HandleUpTo(b, DueAll(cfg, descs), |descs|), b, r)
  {
    hide Serving, Served, Handle, HandleUpTo, CallFits, Due;
    ServingShape(cfg, descs, b, b, r, 0);
    forall k | 0 <= k < |descs|
      ensures CallFits(HandleUpTo(b, DueAll(cfg, descs), k), DueAll(cfg, descs)[k])
    {
      ServingUpTo(cfg, descs, b, r, k);
      ServeStep(cfg, descs, HandleUpTo(b, DueAll(cfg, descs), k), b, r, k);
    }
    ServedInFull(cfg, descs, b, r);
  }

  // ---------------------------------------------------------------- one pass with the driver at rest

  /** `n` device steps of the block device in a row. */
  ghost function DevAlone(cfg: Config, s: BlkSys, n: nat): (r: BlkSys)
    requires Sized(s.q)
    ensures Sized(r.q)
    decreases n
  {
    if n == 0 then s else DevAlone(cfg, BlkStep(cfg, s, Dev), n - 1)
  }

  lemma DevAloneStep(cfg: Config, s: BlkSys, n: nat)
    requires Sized(s.q)
    ensures Sized(BlkStep(cfg, s, Dev).q) && DevAlone(cfg, s, n + 1) == DevAlone(cfg, BlkStep(cfg, s, Dev), n)
    ensures DevAlone(cfg, s, 0) == s
  {
  }

  /** Queue and program point move as they do without the block device's memory. */
  lemma {:induction false} AloneProjects(cfg: Config, s: BlkSys, n: nat)
    requires Sized(s.q)
    ensures (DevAlone(cfg, s, n).q, DevAlone(cfg, s, n).pc) == Alone(s.q, s.pc, n)
    ensures var q' := DevAlone(cfg, s, n).q;
      q'.table == s.q.table && q'.availRing == s.q.availRing && q'.availIdx == s.q.availIdx
    decreases n
  {
    hide DevAlone, Alone;
    DevAloneStep(cfg, s, 0);
    AloneStep(s.q, s.pc, 0);
    if n == 0 {
    } else {
      DevAloneStep(cfg, s, n - 1);
      AloneStep(s.q, s.pc, n - 1);
      AloneProjects(cfg, BlkStep(cfg, s, Dev), n - 1);
    }
  }

  /** Steps left until the pass is over, once the chain has been walked. */
  function StepsLeft(pc: Pc): nat {
    match pc
    case Walked(_, _) => 5
    case HaveUsed(_, _, _) => 4
    case IdWritten(_, _, _) => 3
    case LenWritten(_) => 2
    case IdxWritten => 1
    case _ => 0
  }

  /** Publishing a used entry leaves memory and image alone. */
  lemma {:induction false} PublishLeaves(cfg: Config, s: BlkSys, n: nat)
    requires Sized(s.q) && n <= StepsLeft(s.pc)
    ensures DevAlone(cfg, s, n).blk == s.blk
    decreases n
  {
    hide DevAlone;
    DevAloneStep(cfg, s, 0);
    if n == 0 {
    } else {
      DevAloneStep(cfg, s, n - 1);
      PublishLeaves(cfg, BlkStep(cfg, s, Dev), n - 1);
    }
  }

  /** Part way through the chain of the request in service, the callbacks so far have been made. */
  ghost predicate PartServed(cfg: Config, s: BlkSys, before: Blk) {
    && QueueInv(s.q, s.pc) && s.pc.Walking? && s.q.served < |s.q.posted|
    && s.pc.pos < |s.q.posted[s.q.served].descs|
    && s.blk == HandleUpTo(before, DueAll(cfg, s.q.posted[s.q.served].descs), s.pc.pos)
  }

  lemma PartServedStep(cfg: Config, s: BlkSys, before: Blk)
    requires PartServed(cfg, s, before)
    ensures var descs, s' := s.q.posted[s.q.served].descs, BlkStep(cfg, s, Dev);
      && s'.q == s.q
      && if s.pc.pos + 1 < |descs| then PartServed(cfg, s', before) && s'.pc.pos == s.pc.pos + 1
         else s'.pc.Walked? && s'.blk == HandleUpTo(before, DueAll(cfg, descs), |descs|)
  {
    hide QueueInv, Handle, HandleUpTo, Due, Callbacks;
    InvSized(s.q, s.pc);
    WalkStepInv(s.q, s.pc);
    WalkCall(cfg, s.q, s.pc);
    HandleNext(before, DueAll(cfg, s.q.posted[s.q.served].descs), s.pc.pos);
  }

  /** From descriptor `pos` to the end of the pass. */
  lemma {:induction false} WalkServes(cfg: Config, s: BlkSys, before: Blk)
    requires PartServed(cfg, s, before)
    ensures var descs := s.q.posted[s.q.served].descs;
      DevAlone(cfg, s, |descs| - s.pc.pos + 5).blk == HandleUpTo(before, DueAll(cfg, descs), |descs|)
    decreases |s.q.posted[s.q.served].descs| - s.pc.pos
  {
    hide QueueInv, DevAlone, BlkStep, HandleUpTo, Due, DeviceStep;
    InvSized(s.q, s.pc);
    PartServedStep(cfg, s, before);
    var s', left := BlkStep(cfg, s, Dev), |s.q.posted[s.q.served].descs| - s.pc.pos;
    DevAloneStep(cfg, s, left + 4);
    if left == 1 {
      PublishLeaves(cfg, s', 5);
    } else {
      WalkServes(cfg, s', before);
    }
  }

  lemma PendingServed(q: Queue, pc: Pc)
    requires QueueInv(q, pc) && pc.Walking?
    ensures q.served < |q.posted|
  {
  }

  lemma FetchServes(cfg: Config, s: BlkSys, n: nat) returns (s': BlkSys)
    requires QueueInv(s.q, s.pc) && s.pc.Idle? && s.q.served < |s.q.posted|
    ensures Sized(s.q) && PartServed(cfg, s', s.blk) && s'.q == s.q && s'.pc.pos == 0
    ensures DevAlone(cfg, s, n + 2) == DevAlone(cfg, s', n)
  {
    hide QueueInv, Handle, Due, DevAlone, Alone;
    InvSized(s.q, s.pc);
    assert s.pc == Idle;
    var pc := FetchAlone(s.q, 0);
    AloneStep(s.q, Idle, 1);
    AloneStep(s.q, Polled(s.q.availIdx), 0);
    AloneStep(s.q, pc, 0);
    s' := BlkStep(cfg, BlkStep(cfg, s, Dev), Dev);
    AloneStep(s'.q, s'.pc, 0);
    WalkCall(cfg, s.q, pc);
    PendingServed(s.q, pc);
    DevAloneStep(cfg, s, n + 1);
    DevAloneStep(cfg, BlkStep(cfg, s, Dev), n);
  }

  /** Two steps fetch, one walks each descriptor, five publish: memory and image end as the callbacks leave them. */
  lemma PassServes(cfg: Config, s: BlkSys)
    requires QueueInv(s.q, s.pc) && s.pc.Idle? && s.q.served < |s.q.posted|
    ensures var p := s.q.posted[s.q.served];
      && p.chain != [] && p.chain[0] < 16384
      && var s' := DevAlone(cfg, s, |p.descs| + 7);
      && s'.pc.Idle? && s'.blk == HandleUpTo(s.blk, DueAll(cfg, p.descs), |p.descs|)
      && s'.q.usedRing == s.q.usedRing[Slot(s.q.usedIdx) := Report(p)]
      && s'.q.usedIdx == Wrap16(s.q.usedIdx as int + 1) && s'.q.processed == Wrap16(s.q.processed as int + 1)
      && s'.q.table == s.q.table && s'.q.availRing == s.q.availRing && s'.q.availIdx == s.q.availIdx
  {
    hide QueueInv, DevAlone, Alone, BlkStep, DeviceStep, HandleUpTo, Total, Due;
    assert s.pc == Idle;
    PassAlone(s.q);
    var descs := s.q.posted[s.q.served].descs;
    var s1 := FetchServes(cfg, s, |descs| + 5);
    AloneProjects(cfg, s, |descs| + 7);
    WalkServes(cfg, s1, s.blk);
  }

  /** With nothing pending, two steps look at the available index and move on. */
  lemma EmptyPass(cfg: Config, s: BlkSys)
    requires Sized(s.q) && s.pc.Idle? && s.q.processed == s.q.availIdx
    ensures DevAlone(cfg, s, 2) == s.(q := s.q.(visits := s.q.visits + 1))
  {
    DevAloneStep(cfg, s, 1);
    DevAloneStep(cfg, BlkStep(cfg, s, Dev), 0);
  }

  /** In a state of a run, the callbacks of the next request find their memory. */
  lemma NextFits(cfg: Config, image0: seq<u8>, s: BlkSys)
    requires BlkInv(cfg, image0, s) && s.pc.Idle? && s.q.served < |s.q.posted|
    ensures AllFit(s.blk, DueAll(cfg, s.q.posted[s.q.served].descs))
  {
    var n := s.q.served;
    RequestCount(cfg, image0, s);
    PlacedAt(cfg, s.q.posted, s.reqs, |s.blk.mem|, |image0|, n);
    HeldAt(s.blk, image0, s.reqs, |s.q.collected|, s.stagedReq, n, 0);
    CallbacksServe(cfg, s.q.posted[n].descs, s.blk, s.reqs[n]);
  }

  // ---------------------------------------------------------------- a backlog of requests

  /** The requests between `processed` and the available index, oldest first. */
  ghost predicate Outstanding(table: seq<Desc>, ring: seq<u16>, processed: u16, availIdx: u16, chains: seq<seq<nat>>)
    requires |table| == |ring| == 16384
  {
    && |chains| <= 16384 && availIdx == Wrap16(processed as int + |chains|)
    && forall j | 0 <= j < |chains| :: IsChain(table, chains[j]) && ring[Slot(processed + j)] == chains[j][0]
  }

  ghost function ReportOf(table: seq<Desc>, chain: seq<nat>): UsedElem
    requires |table| == 16384 && IsChain(table, chain)
  {
    Report(Posted(chain, Descs(table, chain)))
  }

  /** The first `n` used entries from index `idx` answer the first `n` chains. */
  ghost predicate Reports(ring: seq<UsedElem>, idx: nat, table: seq<Desc>, chains: seq<seq<nat>>, n: nat)
    requires |ring| == |table| == 16384
  {
    && n <= |chains|
    && forall j {:trigger chains[j]} | 0 <= j < n ::
         IsChain(table, chains[j]) && ring[Slot(idx + j)] == ReportOf(table, chains[j])
  }

  lemma ReportsNext(ring: seq<UsedElem>, idx: nat, table: seq<Desc>, chains: seq<seq<nat>>, n: nat)
    requires |ring| == |table| == 16384 && Reports(ring, idx, table, chains, n)
    requires n < |chains| <= 16384 && IsChain(table, chains[n])
    ensures Reports(ring[Slot(Wrap16(idx + n)) := ReportOf(table, chains[n])], idx, table, chains, n + 1)
  {
    hide IsChain;
    SlotOfWrapped(idx + n);
    forall j | 0 <= j < n
      ensures Slot(idx + j) != Slot(Wrap16(idx + n)) && chains[j] == chains[j]
    {
      DistinctSlots(idx + j, idx + n);
    }
  }

  ghost predicate Meaning(cfg: Config, table: seq<Desc>, chains: seq<seq<nat>>, reqs: seq<Request>,
                          memLen: nat, imageLen: nat)
  {
    && |chains| == |reqs|
    && forall j | 0 <= j < |chains| ::
         IsChain(table, chains[j]) && Placed(cfg, Descs(table, chains[j]), reqs[j], memLen, imageLen)
  }

  lemma ReadyToServe(cfg: Config, table: seq<Desc>, chains: seq<seq<nat>>, reqs: seq<Request>,
                     b: Blk, image0: seq<u8>, n: nat)
    requires cfg.headerSize == 16 && Meaning(cfg, table, chains, reqs, |b.mem|, |b.image|)
    requires Agrees(b, image0, reqs, 0, [], n, 0) && n < |chains|
    ensures n < |reqs| && Serving(cfg, Descs(table, chains[n]), b, b, reqs[n], 0)
  {
    assert Holds(b.mem, reqs[n]);
  }

  /** Serving the next request is one more step of the abstract disk. */
  lemma ServedAgrees(b: Blk, b': Blk, image0: seq<u8>, reqs: seq<Request>, n: nat)
    requires Agrees(b, image0, reqs, 0, [], n, 0) && n < |reqs|
    requires (reqs[n].op == TYPE_OUT ==> |reqs[n].payload| == |reqs[n].segs|) && Served(b', b, reqs[n])
    ensures Agrees(b', image0, reqs, 0, [], n + 1, 0)
  {
    forall x | !Foot(reqs[n], x)
      ensures Peek(b'.mem, x) == Peek(b.mem, x)
    {
      assert !Writable(reqs[n], x);
    }
    OthersSame(b.mem, b'.mem, reqs, 0, [], n);
    AgreesFrame(b, b'.mem, image0, reqs, 0, [], n);
  }

  /** What a loop over a driver at rest starts from. */
  datatype Backlog = Backlog(cfg: Config, table: seq<Desc>, availRing: seq<u16>, availIdx: u16,
                             chains: seq<seq<nat>>, reqs: seq<Request>, image0: seq<u8>, usedIdx: u16, processed: u16)

  ghost predicate Progressed(t: Backlog, b: Blk, ring: seq<UsedElem>, usedIdx: u16, processed: u16, n: nat) {
    && t.cfg.headerSize == 16 && |t.table| == |t.availRing| == |ring| == 16384
    && Outstanding(t.table, t.availRing, t.processed, t.availIdx, t.chains)
    && Meaning(t.cfg, t.table, t.chains, t.reqs, |b.mem|, |b.image|)
    && n <= |t.chains|
    && Agrees(b, t.image0, t.reqs, 0, [], n, 0)
    && usedIdx == Wrap16(t.usedIdx as int + n) && processed == Wrap16(t.processed as int + n)
    && Reports(ring, t.usedIdx, t.table, t.chains, n)
  }

  lemma ProgressStarts(t: Backlog, b: Blk, ring: seq<UsedElem>)
    requires t.cfg.headerSize == 16 && |t.table| == |t.availRing| == |ring| == 16384
    requires Outstanding(t.table, t.availRing, t.processed, t.availIdx, t.chains)
    requires Meaning(t.cfg, t.table, t.chains, t.reqs, |b.mem|, |b.image|)
    requires Agrees(b, t.image0, t.reqs, 0, [], 0, 0)
    ensures Progressed(t, b, ring, t.usedIdx, t.processed, 0)
  {
    hide Outstanding, Meaning, Agrees;
  }

  lemma ProgressEnds(t: Backlog, b: Blk, ring: seq<UsedElem>, usedIdx: u16, processed: u16, n: nat)
    requires Progressed(t, b, ring, usedIdx, processed, n)
    ensures n <= |t.reqs| && Paid(t.reqs) && b.image == Disk(t.image0, t.reqs, n)
    ensures DoneAnswered(b.mem, t.image0, t.reqs, 0, n)
    ensures |ring| == |t.table| == 16384 && Reports(ring, t.usedIdx, t.table, t.chains, n)
    ensures usedIdx == Wrap16(t.usedIdx as int + n) && processed == Wrap16(t.processed as int + n)
  {
    hide Outstanding, Reports, Meaning, DoneAnswered, LiveHeld, LiveClear, HalfRead, Disk;
  }

  /** Of `n` requests served, whether any is left, what the next slot holds, and that it can be served. */
  lemma NextPending(t: Backlog, b: Blk, ring: seq<UsedElem>, usedIdx: u16, processed: u16, n: nat)
    requires Progressed(t, b, ring, usedIdx, processed, n)
    ensures |t.table| == |t.availRing| == 16384 && |t.chains| == |t.reqs|
    ensures processed != t.availIdx <==> n < |t.chains|
    ensures n < |t.chains| ==>
      && IsChain(t.table, t.chains[n]) && t.availRing[Slot(processed)] == t.chains[n][0]
      && AllFit(b, DueAll(t.cfg, Descs(t.table, t.chains[n])))
  {
    hide Agrees, Reports, IsChain, Placed, Serving, AllFit, Served;
    WrappedEqual(t.processed as int + n, t.processed as int + |t.chains|);
    SlotOfWrapped(t.processed as int + n);
    if n < |t.chains| {
      ChainInTable(t.table, t.chains[n]);
      ReadyToServe(t.cfg, t.table, t.chains, t.reqs, b, t.image0, n);
      CallbacksServe(t.cfg, Descs(t.table, t.chains[n]), b, t.reqs[n]);
    }
  }

  /** One more request served is one more step of the abstract disk and one more used entry. */
  lemma PassDone(t: Backlog, b: Blk, ring: seq<UsedElem>, usedIdx: u16, processed: u16, n: nat)
    requires Progressed(t, b, ring, usedIdx, processed, n) && n < |t.chains|
    requires |t.table| == 16384 && IsChain(t.table, t.chains[n])
    ensures |ring| == 16384
    ensures var calls := DueAll(t.cfg, Descs(t.table, t.chains[n]));
      Progressed(t, HandleUpTo(b, calls, |calls|), ring[Slot(usedIdx) := ReportOf(t.table, t.chains[n])],
                 Wrap16(usedIdx as int + 1), Wrap16(processed as int + 1), n + 1)
  {
    hide Agrees, Reports, IsChain, Meaning, Serving, Served, HandleUpTo, AllFit;
    ChainInTable(t.table, t.chains[n]);
    var descs := Descs(t.table, t.chains[n]);
    assert |t.chains| <= 16384;
    hide Outstanding;
    ReadyToServe(t.cfg, t.table, t.chains, t.reqs, b, t.image0, n);
    CallbacksServe(t.cfg, descs, b, t.reqs[n]);
    ServedAgrees(b, HandleUpTo(b, DueAll(t.cfg, descs), |descs|), t.image0, t.reqs, n);
    ReportsNext(ring, t.usedIdx, t.table, t.chains, n);
    WrapNext(t.usedIdx as int + n);
    WrapNext(t.processed as int + n);
  }
}

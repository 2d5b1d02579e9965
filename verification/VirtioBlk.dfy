/** The block device as the class it is: callbacks that copy bytes in place and the loop that serves its queue. */
module VirtioBlkDevice {
  import opened Words
  import opened Bytes
  import opened VirtQueue
  import opened Engine
  import opened Block
  import opened BlockRuns
  import opened BlkServing

  const VIRTIO_ID_BLOCK: nat := 2

  /** What became of opening, examining and mapping the image file. */
  datatype ImageFile = CannotOpen | CannotStat | CannotMap(size: nat) | Mapped(bytes: array<u8>)

  /**
   The sequential `ServeQueue` is what the steps of the concurrent model amount to while the driver
   is at rest: from any reachable state between passes with `chain` pending, `ServeQueue` may be
   called, and rings, indices, memory and image end as it says.
   */
  lemma ServeQueueIsPass(cfg: Config, image0: seq<u8>, s: BlkSys, chain: seq<nat>)
    requires BlkInv(cfg, image0, s) && s.pc.Idle?
    requires s.q.served < |s.q.posted| ==> chain == s.q.posted[s.q.served].chain
    ensures Sized(s.q)
    ensures s.q.processed != s.q.availIdx ==>
      && IsChain(s.q.table, chain) && s.q.availRing[Slot(s.q.processed)] == chain[0]
      && AllFit(s.blk, DueAll(cfg, Descs(s.q.table, chain)))
      && var s' := DevAlone(cfg, s, |chain| + 7);
      && s'.pc.Idle? && s'.blk == HandleUpTo(s.blk, DueAll(cfg, Descs(s.q.table, chain)), |chain|)
      && s'.q.usedRing == s.q.usedRing[Slot(s.q.usedIdx) := ReportOf(s.q.table, chain)]
      && s'.q.usedIdx == Wrap16(s.q.usedIdx + 1) && s'.q.processed == Wrap16(s.q.processed + 1)
      && s'.q.table == s.q.table && s'.q.availRing == s.q.availRing && s'.q.availIdx == s.q.availIdx
    ensures s.q.processed == s.q.availIdx ==> DevAlone(cfg, s, 2) == s.(q := s.q.(visits := s.q.visits + 1))
  {
    hide Content, DevAlone, AllFit, HandleUpTo, Booked, UsedHolds, Reported, PrefixOf, IsChain;
    OutstandingBound(s.q.table, s.q.posted, |s.q.collected|, s.q.staged);
    WrappedEqual(s.q.served, |s.q.posted|);
    if s.q.processed == s.q.availIdx {
      EmptyPass(cfg, s);
    } else {
      assert OwnedChain(s.q.table, s.q.posted[s.q.served]);
      SlotOfWrapped(s.q.served);
      NextFits(cfg, image0, s);
      PassServes(cfg, s);
    }
  }

  class VirtioBlk {
    // Written by the driver, read here: descriptor table and available ring.
    var table: seq<Desc>
    var availRing: seq<u16>
    var availIdx: u16
    // Written here: used ring, guest memory, and the mapped image.
    const usedRing: array<UsedElem>
    var usedIdx: u16
    const memory: array<u8>
    const mappedData: array<u8>
    // The saved header pointer, and the device's place in the available ring.
    var req: int
    var processed: u16
    const cfg: Config
    // What the constructor finds out about the image file, and what it tells the driver.
    const isOpen: bool
    const fileSize: nat
    const numSectors: nat
    const capacity: nat
    const deviceId: nat
    const deviceFeatures: seq<u32>

    ghost predicate Valid()
      reads this
    {
      |table| == |availRing| == usedRing.Length == 16384 && memory != mappedData
    }

    ghost function Blk(): Blk
      reads this, memory, mappedData
    {
      Block.Blk(memory[..], mappedData[..], req)
    }

    /**
     Offers VERSION_1 in any case. Sizes up an image that can be examined: every byte of the file is
     in some sector, and no sector is without one. Announces a block device with that capacity, and
     sets the header size, only if the image is mapped.
     */
    constructor (memory: array<u8>, file: ImageFile, usedRing: array<UsedElem>, startingAddress: int,
                 table: seq<Desc>, availRing: seq<u16>)
      requires |table| == |availRing| == usedRing.Length == 16384
      requires file.Mapped? ==> file.bytes != memory
      ensures Valid() && processed == usedIdx == availIdx == 0 && this.table == table && this.availRing == availRing
      ensures this.memory == memory && this.usedRing == usedRing && (file.Mapped? ==> mappedData == file.bytes)
      ensures isOpen == file.Mapped? && cfg == Config(if isOpen then 16 else 0, startingAddress)
      ensures deviceFeatures == [0, 1]
      ensures fileSize == (match file case Mapped(b) => b.Length case CannotMap(n) => n case _ => 0)
      ensures 512 * (numSectors as int - 1) < fileSize <= 512 * numSectors
      ensures deviceId == (if isOpen then 2 else 0) && capacity == if isOpen then numSectors else 0
    {
      this.memory, this.usedRing := memory, usedRing;
      this.table, this.availRing := table, availRing;
      availIdx, usedIdx, processed, req := 0, 0, 0, 0;
      deviceFeatures := [0, 1];
      var size := match file case Mapped(b) => b.Length case CannotMap(n) => n case _ => 0;
      var sectors := (size + 512 - 1) / 512;
      fileSize, numSectors := size, sectors;
      isOpen := file.Mapped?;
      capacity := if file.Mapped? then sectors else 0;
      deviceId := if file.Mapped? then VIRTIO_ID_BLOCK else 0;
      cfg := Config(if file.Mapped? then 16 else 0, startingAddress);
      if file.Mapped? {
        mappedData := file.bytes;
      } else {
        mappedData := new u8[0];
      }
    }

    method ProcessQueueStart(addr: int, len: u32)
      modifies this`req
      ensures Blk() == Handle(old(Blk()), Start(addr, len))
    {
      req := addr;
    }

    method ProcessQueueData(addr: nat, len: u32)
      requires Valid() && 0 <= req && req + 16 <= memory.Length && addr + len <= memory.Length
      requires var h := Slice(memory[..], req, 16);
        HeaderType(h) == TYPE_IN || HeaderType(h) == TYPE_OUT ==>
          Wrap64(512 * HeaderSector(h)) + len <= mappedData.Length
      modifies memory, mappedData
      ensures Blk() == Handle(old(Blk()), Data(addr, len))
    {
      var h := Slice(memory[..], req, 16);
      assert memory[..] == Blk().mem;
      var at := Wrap64(512 * HeaderSector(h));
      if HeaderType(h) == TYPE_IN {
        CopyBytes(memory, addr, mappedData, at, len);
      } else if HeaderType(h) == TYPE_OUT {
        CopyBytes(mappedData, at, memory, addr, len);
      }
    }

    method ProcessQueueComplete(addr: nat, len: u32)
      requires Valid() && addr < memory.Length
      modifies memory
      ensures Blk() == Handle(old(Blk()), Complete(addr, len))
    {
      memory[addr] := 0;
    }

    /** One turn of the chain walk: pick the callback by flag and byte count, and make it. */
    method HandleDescriptor(d: Desc, bytes: u64)
      requires Valid() && CallFits(Blk(), CallbackFor(cfg, d, bytes))
      modifies this`req, memory, mappedData
      ensures Blk() == Handle(old(Blk()), CallbackFor(cfg, d, bytes))
    {
      var addr := d.addr - cfg.base;
      if HasNext(d) {
        if bytes < cfg.headerSize {
          ProcessQueueStart(addr, d.len);
        } else {
          ProcessQueueData(addr, d.len);
        }
      } else {
        ProcessQueueComplete(addr, d.len);
      }
    }

    /**
     The walk over any acyclic chain whose callbacks find their memory: it ends, makes exactly the
     callbacks that are due, in order, and adds up all lengths.
     */
    method WalkChain(descIdxFirst: u16, ghost chain: seq<nat>) returns (numBytesWritten: u64)
      requires Valid() && IsChain(table, chain) && Slot(descIdxFirst) == chain[0]
      requires AllFit(Blk(), DueAll(cfg, Descs(table, chain)))
      modifies this`req, memory, mappedData
      ensures numBytesWritten == Total(Descs(table, chain), |chain|)
      ensures Blk() == HandleUpTo(old(Blk()), DueAll(cfg, Descs(table, chain)), |chain|)
    {
      hide Handle, HandleUpTo, AllFit, CallFits, IsChain, Total, Blk, CallbackFor, AtTurn, DueAll, Due;
      ChainInTable(table, chain);
      ghost var before, calls, pos := Blk(), DueAll(cfg, Descs(table, chain)), 0;
      var descIdx := descIdxFirst;
      numBytesWritten := 0;
      FirstTurn(table, chain, descIdx, before, calls);
      while true
        invariant pos < |calls| && AtTurn(table, chain, descIdx, numBytesWritten, pos)
        invariant Blk() == HandleUpTo(before, calls, pos)
        decreases |calls| - pos
      {
        TurnIsDue(cfg, table, chain, descIdx, numBytesWritten, pos);
        var d := table[Slot(descIdx)];
        FitsAt(before, calls, pos);
        HandleDescriptor(d, numBytesWritten);
        HandleNext(before, calls, pos);
        numBytesWritten := Wrap64(numBytesWritten + d.len);
        if !HasNext(d) {
          break;
        }
        descIdx := d.next;
        pos := pos + 1;
      }
    }

    /** The two-step publication of a used entry. */
    method PublishUsed(descIdxFirst: u16, numBytesWritten: u64)
      requires Valid()
      modifies usedRing, this`usedIdx
      ensures usedRing[..] == old(usedRing[..])[Slot(old(usedIdx)) := UsedElem(descIdxFirst, Wrap32(numBytesWritten))]
      ensures usedIdx == Wrap16(old(usedIdx) + 1)
    {
      var used: int := usedIdx;
      usedRing[Slot(used)] := usedRing[Slot(used)].(id := descIdxFirst);
      usedRing[Slot(used)] := usedRing[Slot(used)].(len := Wrap32(numBytesWritten));
      usedIdx := Wrap16(used + 1);
    }

    /** One pass of `device_loop` over its queue, with the driver at rest and any acyclic chain pending. */
    method ServeQueue(ghost chain: seq<nat>) returns (interrupt: bool)
      requires Valid()
      requires processed != availIdx ==>
        && IsChain(table, chain) && availRing[Slot(processed)] == chain[0]
        && AllFit(Blk(), DueAll(cfg, Descs(table, chain)))
      modifies this`req, this`usedIdx, this`processed, usedRing, memory, mappedData
      ensures Valid() && interrupt == (old(processed) != availIdx)
      ensures !interrupt ==>
        && usedRing[..] == old(usedRing[..]) && usedIdx == old(usedIdx) && processed == old(processed)
        && Blk() == old(Blk())
      ensures interrupt ==>
        && usedRing[..] == old(usedRing[..])[Slot(old(usedIdx)) := ReportOf(table, chain)]
        && usedIdx == Wrap16(old(usedIdx) + 1) && processed == Wrap16(old(processed) + 1)
        && Blk() == HandleUpTo(old(Blk()), DueAll(cfg, Descs(table, chain)), |chain|)
    {
      hide AllFit, HandleUpTo, Total;
      interrupt := processed != availIdx;
      if interrupt {
        var descIdxFirst := availRing[Slot(processed)];
        var numBytesWritten := WalkChain(descIdxFirst, chain);
        PublishUsed(descIdxFirst, numBytesWritten);
        processed := Wrap16(processed as int + 1);
      }
    }

    /**
     `device_loop` for `passes` passes while the driver is at rest with requests outstanding: one
     request a pass, in order, until none is left. The image ends as the abstract disk.
     */
    method DeviceLoop(passes: nat, ghost chains: seq<seq<nat>>, ghost reqs: seq<Request>) returns (ghost done: nat)
      requires Valid() && cfg.headerSize == 16 && Outstanding(table, availRing, processed, availIdx, chains)
      requires Meaning(cfg, table, chains, reqs, memory.Length, mappedData.Length)
      requires Agrees(Blk(), mappedData[..], reqs, 0, [], 0, 0)
      modifies this`req, this`usedIdx, this`processed, usedRing, memory, mappedData
      ensures Valid() && done == (if passes < |chains| then passes else |chains|)
      ensures Paid(reqs) && mappedData[..] == Disk(old(mappedData[..]), reqs, done)
      ensures DoneAnswered(memory[..], old(mappedData[..]), reqs, 0, done)
      ensures Reports(usedRing[..], old(usedIdx), table, chains, done)
      ensures usedIdx == Wrap16(old(usedIdx) + done) && processed == Wrap16(old(processed) + done)
    {
      hide Agrees, Meaning, IsChain, Outstanding, Reports, Progressed, DoneAnswered, AllFit, HandleUpTo;
      ghost var start := Backlog(cfg, table, availRing, availIdx, chains, reqs, mappedData[..], usedIdx, processed);
      done := 0;
      ProgressStarts(start, Blk(), usedRing[..]);
      for pass := 0 to passes
        invariant Valid() && start.table == table && start.availRing == availRing && start.availIdx == availIdx
        invariant done == (if pass < |chains| then pass else |chains|)
        invariant Progressed(start, Blk(), usedRing[..], usedIdx, processed, done)
      {
        ghost var before, ring, usedIdx0, processed0 := Blk(), usedRing[..], usedIdx, processed;
        NextPending(start, before, ring, usedIdx, processed, done);
        ghost var chain := if done < |chains| then chains[done] else [];
        var interrupt := ServeQueue(chain);
        if done < |chains| {
          PassDone(start, before, ring, usedIdx0, processed0, done);
          done := done + 1;
        }
      }
      ProgressEnds(start, Blk(), usedRing[..], usedIdx, processed, done);
    }
  }
}

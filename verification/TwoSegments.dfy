/**
 Posting a write and serving it, as a run of the block device; and a write with two data segments
 that ends up in the wrong place.
 */
module TwoSegments {
  import opened Words
  import opened Bytes
  import opened VirtQueue
  import opened Engine
  import opened Block
  import opened BlockRuns
  import opened BlkServing

  lemma BlkRunExtends(cfg: Config, trace: seq<BlkSys>, acts: seq<BlkAction>, a: BlkAction)
    returns (trace': seq<BlkSys>, acts': seq<BlkAction>)
    requires IsBlkRun(cfg, trace, acts) && |trace| == |acts| + 1 && BlkEnabled(cfg, trace[|acts|], a)
    ensures IsBlkRun(cfg, trace', acts') && |trace'| == |acts'| + 1 && trace'[0] == trace[0]
    ensures trace'[|acts'|] == BlkStep(cfg, trace[|acts|], a)
  {
    hide BlkInitial, BlkEnabled, BlkStep;
    trace', acts' := trace + [BlkStep(cfg, trace[|acts|], a)], acts + [a];
    forall i | 0 <= i < |acts'|
      ensures BlkMove(cfg, trace', acts', i)
    {
      assert i < |acts| ==> BlkMove(cfg, trace, acts, i);
    }
  }

  /** `n` device steps appended to a run. */
  lemma {:induction false} ExtendDev(cfg: Config, trace: seq<BlkSys>, acts: seq<BlkAction>, n: nat)
    returns (trace': seq<BlkSys>, acts': seq<BlkAction>)
    requires IsBlkRun(cfg, trace, acts) && |trace| == |acts| + 1 && Sized(trace[|acts|].q)
    ensures IsBlkRun(cfg, trace', acts') && |trace'| == |acts'| + 1 && trace'[0] == trace[0]
    ensures trace'[|acts'|] == DevAlone(cfg, trace[|acts|], n)
    decreases n
  {
    hide IsBlkRun, BlkStep, DevAlone;
    DevAloneStep(cfg, trace[|acts|], 0);
    if n == 0 {
      trace', acts' := trace, acts;
    } else {
      DevAloneStep(cfg, trace[|acts|], n - 1);
      trace', acts' := BlkRunExtends(cfg, trace, acts, Dev);
      trace', acts' := ExtendDev(cfg, trace', acts', n - 1);
    }
  }

  /** The driver stages and publishes request `r` as the first of all. */
  lemma PostFirst(cfg: Config, s0: BlkSys, chain: seq<nat>, r: Request)
    returns (trace: seq<BlkSys>, acts: seq<BlkAction>)
    requires BlkInitial(cfg, s0) && BlkEnabled(cfg, s0, Submit(chain, r))
    ensures IsBlkRun(cfg, trace, acts) && |trace| == |acts| + 1 && trace[0] == s0
    ensures var s := trace[|acts|];
      && s.pc.Idle? && Sized(s.q) && s.blk == s0.blk && s.reqs == [r] && s.q.served == 0 && s.q.collected == []
      && s.q.posted == [Posted(chain, Descs(s0.q.table, chain))]
  {
    ChainInTable(s0.q.table, chain);
    trace, acts := [s0], [];
    trace, acts := BlkRunExtends(cfg, trace, acts, Submit(chain, r));
    assert BlkEnabled(cfg, trace[|acts|], Other(Publish));
    trace, acts := BlkRunExtends(cfg, trace, acts, Other(Publish));
  }

  lemma {:induction false} DevAloneReqs(cfg: Config, s: BlkSys, n: nat)
    requires Sized(s.q)
    ensures DevAlone(cfg, s, n).reqs == s.reqs
    decreases n
  {
    hide DevAlone;
    DevAloneStep(cfg, s, 0);
    if n == 0 {
    } else {
      DevAloneStep(cfg, s, n - 1);
      DevAloneReqs(cfg, BlkStep(cfg, s, Dev), n - 1);
    }
  }

  lemma ServingStarts(cfg: Config, descs: seq<Desc>, b: Blk, r: Request)
    requires cfg.headerSize == 16 && Placed(cfg, descs, r, |b.mem|, |b.image|) && Holds(b.mem, r)
    ensures Serving(cfg, descs, b, b, r, 0)
  {
  }

  lemma FirstServed(cfg: Config, image0: seq<u8>, s: BlkSys, r: Request)
    requires BlkInv(cfg, image0, s) && s.pc.Idle? && s.reqs == [r] && s.q.served == 0 && |s.q.posted| == 1
    requires s.blk.image == image0 && s.q.collected == []
    ensures Sized(s.q) && (r.op == TYPE_OUT ==> |r.payload| == |r.segs|)
    ensures var s' := DevAlone(cfg, s, |s.q.posted[0].descs| + 7);
      s'.pc.Idle? && s'.blk.image == Wrote(image0, r, |r.segs|)
  {
    hide QueueInv, DevAlone, HandleUpTo, DueAll, Holds, Placed;
    InvSized(s.q, s.pc);
    PlacedAt(cfg, s.q.posted, s.reqs, |s.blk.mem|, |image0|, 0);
    HeldAt(s.blk, image0, s.reqs, 0, s.stagedReq, 0, 0);
    ServingStarts(cfg, s.q.posted[0].descs, s.blk, r);
    CallbacksServe(cfg, s.q.posted[0].descs, s.blk, r);
    PassServes(cfg, s);
  }

  /** From the start, a request posted and served undisturbed: the image gets what its segments carry, one by one. */
  lemma PostAndServe(cfg: Config, s0: BlkSys, chain: seq<nat>, r: Request)
    returns (trace: seq<BlkSys>, acts: seq<BlkAction>)
    requires BlkInitial(cfg, s0) && BlkEnabled(cfg, s0, Submit(chain, r))
    ensures IsBlkRun(cfg, trace, acts) && |trace| == |acts| + 1 && trace[0] == s0
    ensures r.op == TYPE_OUT ==> |r.payload| == |r.segs|
    ensures var s := trace[|acts|];
      s.pc.Idle? && s.reqs == [r] && s.blk.image == Wrote(s0.blk.image, r, |r.segs|)
  {
    hide IsBlkRun, BlkInitial, BlkEnabled, BlkStep, DevAlone, HandleUpTo, Served;
    trace, acts := PostFirst(cfg, s0, chain, r);
    var s := trace[|acts|];
    BlkRunInv(cfg, trace, acts, |acts|);
    FirstServed(cfg, s0.blk.image, s, r);
    var n := |s.q.posted[0].descs| + 7;
    trace, acts := ExtendDev(cfg, trace, acts, n);
    DevAloneReqs(cfg, s, n);
  }

  // ---------------------------------------------------------------- two bytes, two segments

  const CHAIN: seq<nat> := [0, 1, 2, 3]
  const WRITE: Request := Request(0, TYPE_OUT, 0, [Seg(16, 1), Seg(17, 1)], 18, [[1], [2]])

  /** A header that says write to sector 0, the bytes 1 and 2 to write, and the status byte. */
  function TwoMemory(): (m: seq<u8>)
    ensures |m| == 19 && m[0] == m[16] == 1 && m[17] == 2 && forall i | 1 <= i < 16 :: m[i] == 0
  {
    seq<u8>(19, i => if i == 0 || i == 16 then 1 else if i == 17 then 2 else if i == 18 then 255 else 0)
  }

  function TwoTable(): (t: seq<Desc>)
    ensures |t| == 16384
    ensures t[0] == Desc(0, 16, 1, 1) && t[1] == Desc(16, 1, 1, 2)
    ensures t[2] == Desc(17, 1, 1, 3) && t[3] == Desc(18, 1, 0, 0)
  {
    seq<Desc>(16384, i => if i == 0 then Desc(0, 16, 1, 1) else if i == 1 then Desc(16, 1, 1, 2)
                          else if i == 2 then Desc(17, 1, 1, 3) else Desc(18, 1, 0, 0))
  }

  /** Fresh rings and a device that has done nothing; the disk is two bytes, both 0. */
  function TwoStart(): (s: BlkSys)
    ensures BlkInitial(Config(16, 0), s) && s.blk == Blk(TwoMemory(), [0, 0], 0) && s.q.table == TwoTable()
  {
    var q := Queue(TwoTable(), seq<u16>(16384, _ => 0), 0, seq<UsedElem>(16384, _ => UsedElem(0, 0)), 0,
                   0, [], map[], 0, 0, [], [], [], 0, 0, 0);
    BlkSys(q, Idle, Blk(TwoMemory(), [0, 0], 0), [], [])
  }

  lemma {:induction false} Zeros(bytes: seq<u8>)
    requires forall i | 0 <= i < |bytes| :: bytes[i] == 0
    ensures LittleEndian(bytes) == 0
  {
    if bytes == [] {
    } else {
      Zeros(bytes[1..]);
    }
  }

  lemma WriteHeld()
    ensures Holds(TwoMemory(), WRITE)
  {
    hide TwoMemory;
    var h := Slice(TwoMemory(), 0, 16);
    assert h[0] == TwoMemory()[0];
    Zeros(h[8..16]);
    Zeros(h[0..4][1..]);
    assert h[0..4][0] == 1;
    assert Slice(TwoMemory(), 16, 1) == [1] && Slice(TwoMemory(), 17, 1) == [2];
  }

  lemma TwoChain()
    ensures IsChain(TwoTable(), CHAIN)
  {
    hide TwoTable;
    var t := TwoTable();
    assert Linked(t, CHAIN, 0) && Linked(t, CHAIN, 1) && Linked(t, CHAIN, 2);
  }

  lemma WriteDescribed()
    ensures Describes(Config(16, 0), Descs(TwoTable(), CHAIN), WRITE)
  {
    hide TwoTable;
  }

  lemma WriteApart()
    ensures WellPlaced(WRITE, 19, 2)
  {
    assert WRITE.segs[0] == Seg(16, 1) && WRITE.segs[1] == Seg(17, 1);
    forall x | InSegs(WRITE.segs, x)
      ensures 16 <= x < 18
    {
    }
  }

  lemma WroteTwo()
    ensures Wrote([0, 0], WRITE, 2) == [2, 0]
    ensures Blit([0, 0], 0, Flat(WRITE.payload)) == [1, 2]
  {
    var once := Wrote([0, 0], WRITE, 1);
    assert once == Blit(Wrote([0, 0], WRITE, 0), 0, [1]) == [1, 0];
    assert Wrote([0, 0], WRITE, 2) == Blit(once, 0, [2]) == [2, 0];
    assert WRITE.payload[1..] == [[2]] && [[2]][1..] == [];
    assert Flat(WRITE.payload) == [1] + Flat([[2]]) == [1, 2];
  }

  lemma WritePostable()
    ensures BlkEnabled(Config(16, 0), TwoStart(), Submit(CHAIN, WRITE))
  {
    hide TwoTable, TwoMemory, IsChain, Describes, WellPlaced, Holds, Descs;
    TwoChain();
    WriteDescribed();
    WriteApart();
    WriteHeld();
  }

  /** In the end the first byte of the disk is 2 and the second still 0; end to end they would be 1 and 2. */
  lemma SecondOverFirst() returns (trace: seq<BlkSys>, acts: seq<BlkAction>)
    ensures IsBlkRun(Config(16, 0), trace, acts) && |trace| == |acts| + 1
    ensures var s := trace[|acts|];
      s.pc.Idle? && s.reqs == [WRITE] && s.blk.image == [2, 0] != Blit([0, 0], 0, Flat(WRITE.payload)) == [1, 2]
  {
    hide BlkEnabled, BlkInitial, IsBlkRun, TwoStart, TwoTable, TwoMemory, Wrote, Flat;
    WritePostable();
    WroteTwo();
    trace, acts := PostAndServe(Config(16, 0), TwoStart(), CHAIN, WRITE);
  }
}

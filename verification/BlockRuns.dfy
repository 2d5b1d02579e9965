/**
 The block device on its virtqueue, against a driver that fills and empties buffers while the
 device works. Every run refines a byte-array disk that applies requests one at a time.
 */
module BlockRuns {
  import opened Words
  import opened Bytes
  import opened VirtQueue
  import opened Engine
  import opened Block

  /**
   One queue, the device's program point on it and its memory. `reqs[j]` is the meaning of the
   j-th posted chain; `stagedReq` that of the staged one, if any.
   */
  datatype BlkSys = BlkSys(q: Queue, pc: Pc, blk: Blk, reqs: seq<Request>, stagedReq: seq<Request>)

  datatype BlkAction =
    | Dev
    | Poke(x: nat, value: u8)                 // the driver writes a byte of its own memory
    | Submit(chain: seq<nat>, r: Request)     // the driver stages a request
    | Other(move: DriverMove)

  ghost predicate Placed(cfg: Config, descs: seq<Desc>, r: Request, memLen: nat, imageLen: nat) {
    Describes(cfg, descs, r) && WellPlaced(r, memLen, imageLen)
  }

  /** The driver keeps its hands off in-flight buffers, and posts only well-formed requests. */
  ghost predicate BlkEnabled(cfg: Config, s: BlkSys, a: BlkAction) {
    match a
    case Dev => Sized(s.q)
    case Poke(x, _) =>
      && x < |s.blk.mem|
      && (forall j | |s.q.collected| <= j < |s.reqs| :: !Foot(s.reqs[j], x))
      && (s.stagedReq != [] ==> !Foot(s.stagedReq[0], x))
    case Submit(c, r) =>
      && DriverReady(s.q, Stage(c))
      && Placed(cfg, Descs(s.q.table, c), r, |s.blk.mem|, |s.blk.image|) && Holds(s.blk.mem, r)
      && (forall j | |s.q.collected| <= j < |s.reqs| :: Clear(s.reqs[j], r))
    case Other(m) => !m.Stage? && DriverReady(s.q, m)
  }

  /** The device always has data to serve (`queue_has_data` is constantly true). */
  ghost function BlkStep(cfg: Config, s: BlkSys, a: BlkAction): BlkSys
    requires BlkEnabled(cfg, s, a)
  {
    match a
    case Dev =>
      var (q, pc) := DeviceStep(s.q, s.pc, true);
      var calls := Callbacks(cfg, s.q, s.pc);
      s.(q := q, pc := pc, blk := if calls == [] then s.blk else Handle(s.blk, calls[0]))
    case Poke(x, v) => s.(blk := s.blk.(mem := s.blk.mem[x := v]))
    case Submit(c, r) => s.(q := DriverStep(s.q, Stage(c)), stagedReq := [r])
    case Other(m) =>
      if m.Publish? then s.(q := DriverStep(s.q, m), reqs := s.reqs + s.stagedReq, stagedReq := [])
      else s.(q := DriverStep(s.q, m))
  }

  // ---------------------------------------------------------------- invariant

  ghost predicate AllPlaced(cfg: Config, posted: seq<Posted>, reqs: seq<Request>, memLen: nat, imageLen: nat) {
    && |reqs| == |posted|
    && forall j {:trigger reqs[j]} | 0 <= j < |reqs| :: Placed(cfg, posted[j].descs, reqs[j], memLen, imageLen)
  }

  ghost predicate LiveHeld(mem: seq<u8>, reqs: seq<Request>, lo: nat, staged: seq<Request>) {
    && (forall j {:trigger Holds(mem, reqs[j])} | lo <= j < |reqs| :: Holds(mem, reqs[j]))
    && (staged != [] ==> Holds(mem, staged[0]))
  }

  ghost predicate LiveClear(reqs: seq<Request>, lo: nat, staged: seq<Request>) {
    && (forall i, j {:trigger Clear(reqs[i], reqs[j])} | lo <= i < j < |reqs| :: Clear(reqs[i], reqs[j]))
    && (staged != [] ==> forall j {:trigger Clear(reqs[j], staged[0])} | lo <= j < |reqs| :: Clear(reqs[j], staged[0]))
  }

  /** `n` requests are on the disk, and `k` segments of the next. */
  ghost predicate ImageIs(image: seq<u8>, image0: seq<u8>, reqs: seq<Request>, n: nat, k: nat)
    requires Paid(reqs)
  {
    && n <= |reqs|
    && if n < |reqs| then k <= |reqs[n].segs| && image == Wrote(Disk(image0, reqs, n), reqs[n], k)
       else k == 0 && image == Disk(image0, reqs, n)
  }

  ghost predicate DoneAnswered(mem: seq<u8>, image0: seq<u8>, reqs: seq<Request>, lo: nat, n: nat)
    requires Paid(reqs) && n <= |reqs|
  {
    forall j {:trigger reqs[j]} | lo <= j < n :: Answered(mem, reqs[j], Disk(image0, reqs, j))
  }

  ghost predicate HalfRead(mem: seq<u8>, image0: seq<u8>, reqs: seq<Request>, n: nat, k: nat)
    requires Paid(reqs)
  {
    k == 0 || (n < |reqs| && k <= |reqs[n].segs| && ReadOut(mem, reqs[n], Disk(image0, reqs, n), k))
  }

  /** Data segments of the current request already transferred. */
  function SegsDone(pc: Pc): nat { if pc.Walking? && pc.pos > 0 then pc.pos - 1 else 0 }

  /** Memory and image agree with `n` requests done and `k` segments of the next. */
  ghost predicate Agrees(b: Blk, image0: seq<u8>, reqs: seq<Request>, lo: nat, staged: seq<Request>, n: nat, k: nat) {
    && Paid(reqs)
    && LiveHeld(b.mem, reqs, lo, staged)
    && LiveClear(reqs, lo, staged)
    && ImageIs(b.image, image0, reqs, n, k)
    && DoneAnswered(b.mem, image0, reqs, lo, n)
    && HalfRead(b.mem, image0, reqs, n, k)
  }

  ghost predicate StagedPlaced(cfg: Config, table: seq<Desc>, staged: seq<nat>, stagedReq: seq<Request>,
                               memLen: nat, imageLen: nat)
  {
    && |stagedReq| == (if staged == [] then 0 else 1)
    && (staged != [] ==>
          && (forall i | 0 <= i < |staged| :: staged[i] < |table|)
          && Placed(cfg, Descs(table, staged), stagedReq[0], memLen, imageLen))
  }

  /** What memory, image and requests have to do with each other. */
  ghost predicate Content(cfg: Config, image0: seq<u8>, s: BlkSys) {
    && cfg.headerSize == 16
    && |s.blk.image| == |image0|
    && AllPlaced(cfg, s.q.posted, s.reqs, |s.blk.mem|, |image0|)
    && StagedPlaced(cfg, s.q.table, s.q.staged, s.stagedReq, |s.blk.mem|, |image0|)
    && Agrees(s.blk, image0, s.reqs, |s.q.collected|, s.stagedReq, WalkedCount(s.q, s.pc), SegsDone(s.pc))
    && (s.pc.Walking? && s.pc.pos > 0 ==> s.q.served < |s.reqs| && s.blk.req == s.reqs[s.q.served].hdr)
  }

  ghost predicate BlkInv(cfg: Config, image0: seq<u8>, s: BlkSys) {
    QueueInv(s.q, s.pc) && Content(cfg, image0, s)
  }

  // ---------------------------------------------------------------- frames

  /** Memory changes confined to one live request's buffers are invisible to every other. */
  lemma OthersSame(m: seq<u8>, m': seq<u8>, reqs: seq<Request>, lo: nat, staged: seq<Request>, e: nat)
    requires LiveClear(reqs, lo, staged) && lo <= e < |reqs|
    requires forall x :: !Foot(reqs[e], x) ==> Peek(m', x) == Peek(m, x)
    ensures forall j | lo <= j < |reqs| && j != e :: SameOn(m, m', reqs[j])
    ensures staged != [] ==> SameOn(m, m', staged[0])
  {
    forall j | lo <= j < |reqs| && j != e
      ensures SameOn(m, m', reqs[j])
    {
      assert j < e ==> Clear(reqs[j], reqs[e]);
      assert e < j ==> Clear(reqs[e], reqs[j]);
    }
    if staged != [] {
      assert Clear(reqs[e], staged[0]);
    }
  }

  /** Replacing memory by one that looks the same to the live requests, request `e` apart. */
  lemma AgreesFrame(b: Blk, m': seq<u8>, image0: seq<u8>, reqs: seq<Request>, lo: nat, staged: seq<Request>, e: nat)
    requires Paid(reqs) && e <= |reqs| && LiveHeld(b.mem, reqs, lo, staged) && DoneAnswered(b.mem, image0, reqs, lo, e)
    requires forall j | lo <= j < |reqs| && j != e :: SameOn(b.mem, m', reqs[j])
    requires staged != [] ==> SameOn(b.mem, m', staged[0])
    requires lo <= e < |reqs| ==> Holds(m', reqs[e])
    ensures LiveHeld(m', reqs, lo, staged) && DoneAnswered(m', image0, reqs, lo, e)
  {
    forall j | lo <= j < |reqs| && j != e
      ensures Holds(m', reqs[j])
      ensures j < e ==> Answered(m', reqs[j], Disk(image0, reqs, j))
    {
      assert Holds(b.mem, reqs[j]);
      SameOnKeeps(b.mem, m', reqs[j]);
    }
    if staged != [] {
      SameOnKeeps(b.mem, m', staged[0]);
    }
  }

  /** One data callback: from `k` to `k + 1` segments of request `n`. */
  lemma AgreesData(b: Blk, image0: seq<u8>, reqs: seq<Request>, lo: nat, staged: seq<Request>, n: nat, k: nat)
    requires Agrees(b, image0, reqs, lo, staged, n, k) && lo <= n < |reqs| && k < |reqs[n].segs|
    requires WellPlaced(reqs[n], |b.mem|, |image0|) && b.req == reqs[n].hdr
    ensures var b' := Handle(b, Data(reqs[n].segs[k].addr, reqs[n].segs[k].len));
      Agrees(b', image0, reqs, lo, staged, n, k + 1) && b'.req == b.req
  {
    var r := reqs[n];
    var b' := Handle(b, Data(r.segs[k].addr, r.segs[k].len));
    assert Holds(b.mem, r);
    DataStep(b, r, Disk(image0, reqs, n), k);
    forall x | !Foot(r, x)
      ensures Peek(b'.mem, x) == Peek(b.mem, x)
    {
      assert InSeg(r.segs[k], x) ==> InSegs(r.segs, x);
    }
    OthersSame(b.mem, b'.mem, reqs, lo, staged, n);
    AgreesFrame(b, b'.mem, image0, reqs, lo, staged, n);
  }

  /** The complete callback: request `n` joins those done. */
  lemma AgreesComplete(b: Blk, image0: seq<u8>, reqs: seq<Request>, lo: nat, staged: seq<Request>, n: nat, len: u32)
    requires n < |reqs| && Agrees(b, image0, reqs, lo, staged, n, |reqs[n].segs|) && lo <= n
    requires WellPlaced(reqs[n], |b.mem|, |image0|)
    ensures Agrees(Handle(b, Complete(reqs[n].status, len)), image0, reqs, lo, staged, n + 1, 0)
  {
    var r := reqs[n];
    var b' := Handle(b, Complete(r.status, len));
    assert Holds(b.mem, r);
    CompleteStep(b, r, Disk(image0, reqs, n), len);
    OthersSame(b.mem, b'.mem, reqs, lo, staged, n);
    AgreesFrame(b, b'.mem, image0, reqs, lo, staged, n);
  }

  // ---------------------------------------------------------------- device steps

  /** The callback due for descriptor `pos` of request `n`. */
  lemma AgreesDue(cfg: Config, descs: seq<Desc>, b: Blk, image0: seq<u8>, reqs: seq<Request>, lo: nat,
                  staged: seq<Request>, n: nat, pos: nat)
    requires cfg.headerSize == 16 && lo <= n < |reqs| && pos < |descs|
    requires Placed(cfg, descs, reqs[n], |b.mem|, |image0|)
    requires Agrees(b, image0, reqs, lo, staged, n, if pos > 0 then pos - 1 else 0)
    requires pos > 0 ==> b.req == reqs[n].hdr
    ensures var b' := Handle(b, Due(cfg, descs, pos));
      if pos == |descs| - 1 then Agrees(b', image0, reqs, lo, staged, n + 1, 0)
      else Agrees(b', image0, reqs, lo, staged, n, pos) && b'.req == reqs[n].hdr
  {
    DueOf(cfg, descs, reqs[n], pos);
    if pos == |descs| - 1 {
      AgreesComplete(b, image0, reqs, lo, staged, n, descs[pos].len);
    } else if pos > 0 {
      AgreesData(b, image0, reqs, lo, staged, n, pos - 1);
    }
  }

  lemma PlacedAt(cfg: Config, posted: seq<Posted>, reqs: seq<Request>, memLen: nat, imageLen: nat, n: nat)
    requires AllPlaced(cfg, posted, reqs, memLen, imageLen) && n < |reqs|
    ensures |reqs| == |posted| && Placed(cfg, posted[n].descs, reqs[n], memLen, imageLen)
  {
  }

  lemma WalkContent(cfg: Config, image0: seq<u8>, s: BlkSys, pc': Pc)
    requires Content(cfg, image0, s) && s.pc.Walking?
    requires |s.q.collected| <= s.q.served < |s.q.posted| == |s.reqs| && s.pc.pos < |s.q.posted[s.q.served].descs|
    requires var last := s.pc.pos == |s.q.posted[s.q.served].descs| - 1;
      if last then pc'.Walked? else pc'.Walking? && pc'.pos == s.pc.pos + 1
    ensures Content(cfg, image0, s.(pc := pc', blk := Handle(s.blk, Due(cfg, s.q.posted[s.q.served].descs, s.pc.pos))))
  {
    hide Agrees, AllPlaced, StagedPlaced, Placed, Handle, Due;
    var descs, n := s.q.posted[s.q.served].descs, s.q.served;
    PlacedAt(cfg, s.q.posted, s.reqs, |s.blk.mem|, |image0|, n);
    AgreesDue(cfg, descs, s.blk, image0, s.reqs, |s.q.collected|, s.stagedReq, n, s.pc.pos);
  }

  lemma RequestCount(cfg: Config, image0: seq<u8>, s: BlkSys)
    requires Content(cfg, image0, s)
    ensures |s.reqs| == |s.q.posted|
  {
  }

  lemma WalkPreserves(cfg: Config, image0: seq<u8>, s: BlkSys)
    requires BlkInv(cfg, image0, s) && s.pc.Walking? && BlkEnabled(cfg, s, Dev)
    ensures BlkInv(cfg, image0, BlkStep(cfg, s, Dev))
  {
    hide Owned, Booked, AvailHolds, UsedHolds, Reported, PrefixOf, Content;
    WalkStepInv(s.q, s.pc);
    WalkCall(cfg, s.q, s.pc);
    assert |s.reqs| == |s.q.posted| by { RequestCount(cfg, image0, s); }
    WalkContent(cfg, image0, s, DeviceStep(s.q, s.pc, true).1);
  }

  /** Device steps outside the chain walk leave the content alone. */
  lemma StillContent(cfg: Config, image0: seq<u8>, s: BlkSys)
    requires Content(cfg, image0, s) && !s.pc.Walking? && Sized(s.q)
    ensures Content(cfg, image0, BlkStep(cfg, s, Dev))
  {
    hide Agrees, AllPlaced, StagedPlaced;
    var s' := BlkStep(cfg, s, Dev);
    assert s'.blk == s.blk && s'.q.posted == s.q.posted && s'.q.collected == s.q.collected;
    assert WalkedCount(s'.q, s'.pc) == WalkedCount(s.q, s.pc) && SegsDone(s'.pc) == SegsDone(s.pc) == 0;
  }

  lemma DevPreserves(cfg: Config, image0: seq<u8>, s: BlkSys)
    requires BlkInv(cfg, image0, s) && BlkEnabled(cfg, s, Dev)
    ensures BlkInv(cfg, image0, BlkStep(cfg, s, Dev))
  {
    if s.pc.Walking? {
      WalkPreserves(cfg, image0, s);
    } else {
      hide QueueInv, Content;
      DeviceStepInv(s.q, s.pc, true);
      StillContent(cfg, image0, s);
    }
  }

  // ---------------------------------------------------------------- driver steps

  /** A driver store outside every live buffer changes nothing that the invariant speaks of. */
  lemma AgreesPoke(b: Blk, image0: seq<u8>, reqs: seq<Request>, lo: nat, staged: seq<Request>, n: nat, k: nat,
                   x: nat, v: u8)
    requires Agrees(b, image0, reqs, lo, staged, n, k) && x < |b.mem| && lo <= n
    requires forall j | lo <= j < |reqs| :: !Foot(reqs[j], x)
    requires staged != [] ==> !Foot(staged[0], x)
    ensures Agrees(b.(mem := b.mem[x := v]), image0, reqs, lo, staged, n, k)
  {
    var m' := b.mem[x := v];
    forall j | lo <= j < |reqs|
      ensures SameOn(b.mem, m', reqs[j])
      ensures Holds(m', reqs[j])
    {
      assert Holds(b.mem, reqs[j]);
      SameOnKeeps(b.mem, m', reqs[j]);
    }
    AgreesFrame(b, m', image0, reqs, lo, staged, n);
    if n < |reqs| {
      SameOnKeeps(b.mem, m', reqs[n]);
    }
  }

  lemma PokeContent(cfg: Config, image0: seq<u8>, s: BlkSys, a: BlkAction)
    requires Content(cfg, image0, s) && a.Poke? && BlkEnabled(cfg, s, a)
    requires |s.q.collected| <= WalkedCount(s.q, s.pc)
    ensures Content(cfg, image0, BlkStep(cfg, s, a))
  {
    hide Agrees, AllPlaced, StagedPlaced;
    var n, k := WalkedCount(s.q, s.pc), SegsDone(s.pc);
    AgreesPoke(s.blk, image0, s.reqs, |s.q.collected|, s.stagedReq, n, k, a.x, a.value);
  }

  lemma AgreesSubmit(b: Blk, image0: seq<u8>, reqs: seq<Request>, lo: nat, r: Request, n: nat, k: nat)
    requires Agrees(b, image0, reqs, lo, [], n, k)
    requires Holds(b.mem, r) && forall j | lo <= j < |reqs| :: Clear(reqs[j], r)
    ensures Agrees(b, image0, reqs, lo, [r], n, k)
  {
    hide Holds, Clear, Disk, Wrote, Answered, ReadOut;
  }

  lemma SubmitContent(cfg: Config, image0: seq<u8>, s: BlkSys, a: BlkAction)
    requires Content(cfg, image0, s) && a.Submit? && BlkEnabled(cfg, s, a)
    ensures Content(cfg, image0, BlkStep(cfg, s, a))
  {
    hide Agrees, AllPlaced, Placed;
    assert s.stagedReq == [];
    AgreesSubmit(s.blk, image0, s.reqs, |s.q.collected|, a.r, WalkedCount(s.q, s.pc), SegsDone(s.pc));
  }

  lemma {:induction false} DiskSnoc(image: seq<u8>, reqs: seq<Request>, more: seq<Request>, n: nat)
    requires Paid(reqs) && Paid(reqs + more) && n <= |reqs|
    ensures Disk(image, reqs + more, n) == Disk(image, reqs, n)
  {
    if n == 0 {
    } else {
      DiskSnoc(image, reqs, more, n - 1);
      assert (reqs + more)[n - 1] == reqs[n - 1];
    }
  }

  /** The staged request becomes the last of those posted. */
  lemma AgreesPublish(b: Blk, image0: seq<u8>, reqs: seq<Request>, lo: nat, r: Request, n: nat, k: nat)
    requires Agrees(b, image0, reqs, lo, [r], n, k) && lo <= |reqs|
    requires r.op == TYPE_OUT ==> |r.payload| == |r.segs|
    ensures Agrees(b, image0, reqs + [r], lo, [], n, k)
  {
    var reqs' := reqs + [r];
    assert reqs'[|reqs|] == r && forall j | 0 <= j < |reqs| :: reqs'[j] == reqs[j];
    assert Paid(reqs');
    forall i, j | lo <= i < j < |reqs'|
      ensures Clear(reqs'[i], reqs'[j])
    {
      assert j == |reqs| ==> Clear(reqs[i], [r][0]);
      assert j < |reqs| ==> Clear(reqs[i], reqs[j]);
    }
    forall j | lo <= j < |reqs'|
      ensures Holds(b.mem, reqs'[j])
    {
      assert j < |reqs| ==> Holds(b.mem, reqs[j]);
    }
    forall j | lo <= j < n
      ensures Answered(b.mem, reqs'[j], Disk(image0, reqs', j))
    {
      DiskSnoc(image0, reqs, [r], j);
    }
    DiskSnoc(image0, reqs, [r], n);
  }

  lemma AllPlacedSnoc(cfg: Config, posted: seq<Posted>, reqs: seq<Request>, p: Posted, r: Request,
                      memLen: nat, imageLen: nat)
    requires AllPlaced(cfg, posted, reqs, memLen, imageLen) && Placed(cfg, p.descs, r, memLen, imageLen)
    ensures AllPlaced(cfg, posted + [p], reqs + [r], memLen, imageLen)
  {
    hide Placed;
    forall j | 0 <= j < |reqs| + 1
      ensures Placed(cfg, (posted + [p])[j].descs, (reqs + [r])[j], memLen, imageLen)
    {
      assert j < |reqs| ==> (reqs + [r])[j] == reqs[j] && (posted + [p])[j] == posted[j];
    }
  }

  lemma PlacedPaid(cfg: Config, descs: seq<Desc>, r: Request, memLen: nat, imageLen: nat)
    requires Placed(cfg, descs, r, memLen, imageLen)
    ensures r.op == TYPE_OUT ==> |r.payload| == |r.segs|
  {
  }

  lemma PostContent(cfg: Config, image0: seq<u8>, s: BlkSys)
    requires Content(cfg, image0, s) && BlkEnabled(cfg, s, Other(Publish))
    requires |s.q.collected| <= |s.q.posted| && (s.pc.Walking? ==> s.q.served < |s.q.posted|)
    ensures Content(cfg, image0, BlkStep(cfg, s, Other(Publish)))
  {
    var q, pc := s.q, s.pc;
    var r, p := s.stagedReq[0], Posted(q.staged, Descs(q.table, q.staged));
    hide Agrees, AllPlaced, Placed;
    assert s.stagedReq == [r] && Placed(cfg, p.descs, r, |s.blk.mem|, |image0|);
    PlacedPaid(cfg, p.descs, r, |s.blk.mem|, |image0|);
    RequestCount(cfg, image0, s);
    AgreesPublish(s.blk, image0, s.reqs, |q.collected|, r, WalkedCount(q, pc), SegsDone(pc));
    AllPlacedSnoc(cfg, q.posted, s.reqs, p, r, |s.blk.mem|, |image0|);
  }

  lemma AgreesCollect(b: Blk, image0: seq<u8>, reqs: seq<Request>, lo: nat, staged: seq<Request>, n: nat, k: nat)
    ensures Agrees(b, image0, reqs, lo, staged, n, k) ==> Agrees(b, image0, reqs, lo + 1, staged, n, k)
  {
  }

  lemma ObserveContent(cfg: Config, image0: seq<u8>, s: BlkSys, m: DriverMove)
    requires Content(cfg, image0, s) && (m.Collect? || m.Observe?) && BlkEnabled(cfg, s, Other(m))
    ensures Content(cfg, image0, BlkStep(cfg, s, Other(m)))
  {
    hide Agrees, AllPlaced, StagedPlaced;
    AgreesCollect(s.blk, image0, s.reqs, |s.q.collected|, s.stagedReq, WalkedCount(s.q, s.pc), SegsDone(s.pc));
  }

  /** Rewriting a descriptor outside the staged chain leaves the staged request in place. */
  lemma RewriteContent(cfg: Config, image0: seq<u8>, s: BlkSys, m: DriverMove)
    requires Content(cfg, image0, s) && m.WriteDesc? && BlkEnabled(cfg, s, Other(m))
    requires s.q.staged != [] ==> IsChain(s.q.table, s.q.staged)
    ensures Content(cfg, image0, BlkStep(cfg, s, Other(m)))
  {
    hide Agrees, AllPlaced, Placed;
    if s.q.staged != [] {
      ChainFrame(s.q.table, s.q.table[m.i := m.d], s.q.staged);
    }
  }

  lemma ContentStep(cfg: Config, image0: seq<u8>, s: BlkSys, a: BlkAction)
    requires BlkInv(cfg, image0, s) && BlkEnabled(cfg, s, a) && !a.Dev?
    ensures Content(cfg, image0, BlkStep(cfg, s, a))
  {
    assert |s.q.collected| <= WalkedCount(s.q, s.pc) && |s.q.collected| <= |s.q.posted|;
    assert s.pc.Walking? ==> s.q.served < |s.q.posted|;
    assert s.q.staged != [] ==> IsChain(s.q.table, s.q.staged);
    hide QueueInv, Content, IsChain;
    match a
    case Poke(_, _) => PokeContent(cfg, image0, s, a);
    case Submit(_, _) => SubmitContent(cfg, image0, s, a);
    case Other(m) =>
      if m.WriteDesc? {
        RewriteContent(cfg, image0, s, m);
      } else if m.Publish? {
        PostContent(cfg, image0, s);
      } else {
        ObserveContent(cfg, image0, s, m);
      }
  }

  lemma BlkStepPreserves(cfg: Config, image0: seq<u8>, s: BlkSys, a: BlkAction)
    requires BlkInv(cfg, image0, s) && BlkEnabled(cfg, s, a)
    ensures BlkInv(cfg, image0, BlkStep(cfg, s, a))
  {
    hide QueueInv, Content;
    if a.Dev? {
      DevPreserves(cfg, image0, s);
    } else {
      ContentStep(cfg, image0, s, a);
      if a.Submit? {
        DriverStepInv(s.q, s.pc, Stage(a.chain));
      } else if a.Other? {
        DriverStepInv(s.q, s.pc, a.move);
      }
    }
  }

  // ---------------------------------------------------------------- every run

  ghost predicate BlkInitial(cfg: Config, s: BlkSys) {
    && cfg.headerSize == 16
    && Fresh(s.q) && s.pc.Idle?
    && s.reqs == [] && s.stagedReq == []
    && |s.blk.image| < 0x1_0000_0000_0000_0000
  }

  ghost predicate BlkMove(cfg: Config, trace: seq<BlkSys>, acts: seq<BlkAction>, i: nat)
    requires i < |acts| && |trace| == |acts| + 1
  {
    BlkEnabled(cfg, trace[i], acts[i]) && trace[i + 1] == BlkStep(cfg, trace[i], acts[i])
  }

  ghost predicate IsBlkRun(cfg: Config, trace: seq<BlkSys>, acts: seq<BlkAction>) {
    && |trace| == |acts| + 1
    && BlkInitial(cfg, trace[0])
    && forall i | 0 <= i < |acts| :: BlkMove(cfg, trace, acts, i)
  }

  lemma InitialBlkInv(cfg: Config, s: BlkSys)
    requires BlkInitial(cfg, s)
    ensures BlkInv(cfg, s.blk.image, s)
  {
  }

  lemma {:induction false} BlkRunInv(cfg: Config, trace: seq<BlkSys>, acts: seq<BlkAction>, k: nat)
    requires IsBlkRun(cfg, trace, acts) && k < |trace|
    ensures BlkInv(cfg, trace[0].blk.image, trace[k])
  {
    hide BlkInv, BlkInitial, BlkEnabled, BlkStep;
    if k == 0 {
      InitialBlkInv(cfg, trace[0]);
    } else {
      BlkRunInv(cfg, trace, acts, k - 1);
      assert BlkMove(cfg, trace, acts, k - 1);
      BlkStepPreserves(cfg, trace[0].blk.image, trace[k - 1], acts[k - 1]);
    }
  }

  /**
   The refinement: in every state of every run, whenever the device is between requests the
   image is exactly the abstract disk after the requests served so far, in available-ring
   order; and every answered request that the driver has not yet collected has status byte 0
   and, if it is a read, buffers that hold the abstract disk's bytes as of its turn.
   */
  lemma RunsRefineDisk(cfg: Config, trace: seq<BlkSys>, acts: seq<BlkAction>, k: nat)
    requires IsBlkRun(cfg, trace, acts) && k < |trace|
    ensures Paid(trace[k].reqs)
    ensures var s, image0 := trace[k], trace[0].blk.image;
      var n := WalkedCount(s.q, s.pc);
      && |s.q.published| <= n <= |s.q.posted| == |s.reqs|
      && (s.pc.Idle? ==> n == |s.q.published|)
      && (!s.pc.Walking? ==> s.blk.image == Disk(image0, s.reqs, n))
      && (forall j | |s.q.collected| <= j < n :: Peek(s.blk.mem, s.reqs[j].status) == 0)
      && (forall j, i | |s.q.collected| <= j < n && s.reqs[j].op == TYPE_IN && 0 <= i < |s.reqs[j].segs| ::
            Slice(s.blk.mem, s.reqs[j].segs[i].addr, s.reqs[j].segs[i].len)
            == Slice(Disk(image0, s.reqs, j), 512 * s.reqs[j].sector, s.reqs[j].segs[i].len))
  {
    BlkRunInv(cfg, trace, acts, k);
    var s, image0 := trace[k], trace[0].blk.image;
    var n := WalkedCount(s.q, s.pc);
    assert |s.q.published| <= n <= |s.q.posted| == |s.reqs|;
    forall j | |s.q.collected| <= j < n
      ensures Answered(s.blk.mem, s.reqs[j], Disk(image0, s.reqs, j))
    {
      assert s.reqs[j] == s.reqs[j];
    }
  }

  /** The buffers of a read, in order, hold the disk's bytes from the sector on, end to end. */
  ghost predicate BuffersFlat(mem: seq<u8>, r: Request, disk: seq<u8>) {
    forall i {:trigger r.segs[i]} | 0 <= i < |r.segs| ::
      Slice(mem, r.segs[i].addr, r.segs[i].len) == Slice(disk, 512 * r.sector + Before(r.segs, i), r.segs[i].len)
  }

  lemma AnsweredFlat(mem: seq<u8>, r: Request, disk: seq<u8>)
    requires Answered(mem, r, disk) && r.op == TYPE_IN
    ensures BuffersFlat(mem, r, disk) <==> ReadsFlat(disk, r.sector, r.segs)
    ensures AtMostOneFilled(r.segs) ==> BuffersFlat(mem, r, disk)
  {
    hide Slice, Before;
    if AtMostOneFilled(r.segs) {
      OneSegmentReadsFlat(disk, r.sector, r.segs);
    }
    assert forall i {:trigger r.segs[i]} | 0 <= i < |r.segs| ::
      Slice(mem, r.segs[i].addr, r.segs[i].len) == Slice(disk, 512 * r.sector, r.segs[i].len);
  }

  lemma AnsweredInRun(cfg: Config, trace: seq<BlkSys>, acts: seq<BlkAction>, k: nat, j: nat)
    requires IsBlkRun(cfg, trace, acts) && k < |trace| && Paid(trace[k].reqs)
    requires |trace[k].q.collected| <= j < WalkedCount(trace[k].q, trace[k].pc) <= |trace[k].reqs|
    ensures Answered(trace[k].blk.mem, trace[k].reqs[j], Disk(trace[0].blk.image, trace[k].reqs, j))
  {
    BlkRunInv(cfg, trace, acts, k);
    hide IsBlkRun, QueueInv, AllPlaced, StagedPlaced, Answered;
  }

  /**
   In every run, the buffers of an answered read hold consecutive bytes of the disk exactly when
   the disk happens to look the same at all the places they should come from; with at most one
   non-empty data segment they always do.
   */
  lemma AnsweredReadFlat(cfg: Config, trace: seq<BlkSys>, acts: seq<BlkAction>, k: nat, j: nat)
    requires IsBlkRun(cfg, trace, acts) && k < |trace| && Paid(trace[k].reqs)
    requires |trace[k].q.collected| <= j < WalkedCount(trace[k].q, trace[k].pc) <= |trace[k].reqs|
    requires trace[k].reqs[j].op == TYPE_IN
    ensures var r, disk := trace[k].reqs[j], Disk(trace[0].blk.image, trace[k].reqs, j);
      && (BuffersFlat(trace[k].blk.mem, r, disk) <==> ReadsFlat(disk, r.sector, r.segs))
      && (AtMostOneFilled(r.segs) ==> BuffersFlat(trace[k].blk.mem, r, disk))
  {
    hide IsBlkRun, Answered, BuffersFlat, ReadsFlat, AtMostOneFilled;
    AnsweredInRun(cfg, trace, acts, k, j);
    AnsweredFlat(trace[k].blk.mem, trace[k].reqs[j], Disk(trace[0].blk.image, trace[k].reqs, j));
  }

  lemma PlacedShape(cfg: Config, descs: seq<Desc>, r: Request, memLen: nat, imageLen: nat)
    requires Placed(cfg, descs, r, memLen, imageLen) && r.op == TYPE_OUT
    ensures FitsShape(r)
  {
  }

  /** In every run, a posted write with at most one non-empty data segment puts its payload on the disk end to end. */
  lemma PostedWriteFlat(cfg: Config, trace: seq<BlkSys>, acts: seq<BlkAction>, k: nat, j: nat)
    requires IsBlkRun(cfg, trace, acts) && k < |trace| && Paid(trace[k].reqs) && j < |trace[k].reqs|
    requires trace[k].reqs[j].op == TYPE_OUT && AtMostOneFilled(trace[k].reqs[j].segs)
    ensures var reqs, image0 := trace[k].reqs, trace[0].blk.image;
      Disk(image0, reqs, j + 1) == Blit(Disk(image0, reqs, j), 512 * reqs[j].sector, Flat(reqs[j].payload))
  {
    BlkRunInv(cfg, trace, acts, k);
    var s, image0 := trace[k], trace[0].blk.image;
    hide IsBlkRun, QueueInv, Agrees, StagedPlaced;
    PlacedAt(cfg, s.q.posted, s.reqs, |s.blk.mem|, |image0|, j);
    PlacedShape(cfg, s.q.posted[j].descs, s.reqs[j], |s.blk.mem|, |image0|);
    OneSegmentWritesFlat(Disk(image0, s.reqs, j), s.reqs[j]);
  }

  lemma WalkWrites(cfg: Config, image0: seq<u8>, s: BlkSys, x: int)
    requires BlkInv(cfg, image0, s) && BlkEnabled(cfg, s, Dev)
    requires Peek(BlkStep(cfg, s, Dev).blk.mem, x) != Peek(s.blk.mem, x)
    ensures s.pc.Walking? && s.q.served < |s.reqs| && Writable(s.reqs[s.q.served], x)
  {
    hide Owned, Booked, AvailHolds, UsedHolds, Reported, PrefixOf;
    assert s.pc.Walking?;
    WalkCall(cfg, s.q, s.pc);
    var n, pos := s.q.served, s.pc.pos;
    var r := s.reqs[n];
    assert Placed(cfg, s.q.posted[n].descs, r, |s.blk.mem|, |image0|);
    DueOf(cfg, s.q.posted[n].descs, r, pos);
    assert Holds(s.blk.mem, r);
    if 0 < pos <= |r.segs| {
      if r.op == TYPE_IN || r.op == TYPE_OUT {
        HandleData(s.blk, r, pos - 1, |image0|);
      }
      assert InSeg(r.segs[pos - 1], x);
    }
  }

  /** The device writes guest memory only inside the data buffers and status byte of the request it serves. */
  lemma OnlyOwnBuffersWritten(cfg: Config, trace: seq<BlkSys>, acts: seq<BlkAction>, k: nat, x: int)
    requires IsBlkRun(cfg, trace, acts) && k < |acts| && acts[k].Dev?
    requires Peek(trace[k + 1].blk.mem, x) != Peek(trace[k].blk.mem, x)
    ensures var s := trace[k];
      s.pc.Walking? && s.q.served < |s.reqs| && Writable(s.reqs[s.q.served], x)
  {
    BlkRunInv(cfg, trace, acts, k);
    assert BlkMove(cfg, trace, acts, k);
    WalkWrites(cfg, trace[0].blk.image, trace[k], x);
  }

  lemma HeldAt(b: Blk, image0: seq<u8>, reqs: seq<Request>, lo: nat, staged: seq<Request>, n: nat, k: nat)
    requires Agrees(b, image0, reqs, lo, staged, n, k) && lo <= n < |reqs|
    ensures Holds(b.mem, reqs[n])
  {
    hide Holds;
  }

  lemma DataInBounds(cfg: Config, descs: seq<Desc>, b: Blk, r: Request, pos: nat, addr: int, len: u32)
    requires cfg.headerSize == 16 && Placed(cfg, descs, r, |b.mem|, |b.image|) && Holds(b.mem, r)
    requires pos < |descs| && (pos > 0 ==> b.req == r.hdr) && Due(cfg, descs, pos) == Data(addr, len)
    ensures 0 <= b.req && b.req + 16 <= |b.mem| && 0 <= addr && addr + len <= |b.mem|
    ensures var h := Slice(b.mem, b.req, 16);
      HeaderType(h) == TYPE_IN || HeaderType(h) == TYPE_OUT ==> Wrap64(512 * HeaderSector(h)) + len <= |b.image|
  {
    DueOf(cfg, descs, r, pos);
    if r.op == TYPE_IN || r.op == TYPE_OUT {
      HandleData(b, r, pos - 1, |b.image|);
    }
  }

  /** Every transfer of a run stays inside guest memory and inside the mapped image. */
  lemma TransfersInBounds(cfg: Config, trace: seq<BlkSys>, acts: seq<BlkAction>, k: nat, addr: int, len: u32)
    requires IsBlkRun(cfg, trace, acts) && k < |trace| && Sized(trace[k].q)
    requires Callbacks(cfg, trace[k].q, trace[k].pc) == [Data(addr, len)]
    ensures var b := trace[k].blk;
      && 0 <= b.req && b.req + 16 <= |b.mem| && 0 <= addr && addr + len <= |b.mem|
      && var h := Slice(b.mem, b.req, 16);
      HeaderType(h) == TYPE_IN || HeaderType(h) == TYPE_OUT ==> Wrap64(512 * HeaderSector(h)) + len <= |b.image|
  {
    var s, image0 := trace[k], trace[0].blk.image;
    BlkRunInv(cfg, trace, acts, k);
    hide IsBlkRun, Owned, Booked, AvailHolds, UsedHolds, Reported, PrefixOf, AllPlaced, StagedPlaced, Agrees;
    WalkCall(cfg, s.q, s.pc);
    PlacedAt(cfg, s.q.posted, s.reqs, |s.blk.mem|, |image0|, s.q.served);
    HeldAt(s.blk, image0, s.reqs, |s.q.collected|, s.stagedReq, WalkedCount(s.q, s.pc), SegsDone(s.pc));
    DataInBounds(cfg, s.q.posted[s.q.served].descs, s.blk, s.reqs[s.q.served], s.pc.pos, addr, len);
  }

  // ---------------------------------------------------------------- bounded service of a block request

  /** The block device as the whole loop over its one queue. */
  function AsLoop(s: BlkSys): Sys { Sys([s.q], 0, s.pc) }

  /** The loop's action behind a block action; a driver store to its own memory is none. */
  function AsAction(a: BlkAction): Action
    requires !a.Poke?
  {
    match a
    case Dev => Device(true)
    case Submit(c, _) => Driver(0, Stage(c))
    case Other(m) => Driver(0, m)
  }

  lemma StepProjects(cfg: Config, s: BlkSys, a: BlkAction)
    requires BlkEnabled(cfg, s, a)
    ensures a.Poke? ==> AsLoop(BlkStep(cfg, s, a)) == AsLoop(s)
    ensures !a.Poke? ==> Enabled(AsLoop(s), AsAction(a)) && Step(AsLoop(s), AsAction(a)) == AsLoop(BlkStep(cfg, s, a))
  {
    var s' := BlkStep(cfg, s, a);
    assert [s.q][0 := s'.q] == [s'.q];
  }

  /** `loop` and `loopActs` are a run of the loop in which state `at[i]` is that of block state `i`. */
  ghost predicate Projection(trace: seq<BlkSys>, loop: seq<Sys>, loopActs: seq<Action>, at: seq<nat>, k: nat) {
    && IsRun(loop, loopActs) && AlwaysServes(loop, loopActs, 0)
    && k < |trace| && |at| == k + 1 && at[k] + 1 == |loop|
    && (forall i | 0 <= i <= k :: at[i] < |loop| && loop[at[i]] == AsLoop(trace[i]))
    && forall i, j | 0 <= i <= j <= k :: at[i] <= at[j]
  }

  lemma ProjectionExtends(trace: seq<BlkSys>, loop: seq<Sys>, loopActs: seq<Action>, at: seq<nat>, k: nat, a: Action)
    requires Projection(trace, loop, loopActs, at, k) && k + 1 < |trace| && |loop| == |loopActs| + 1
    requires Enabled(AsLoop(trace[k]), a) && (a.Device? ==> a.hasData)
    requires Step(AsLoop(trace[k]), a) == AsLoop(trace[k + 1])
    ensures Projection(trace, loop + [AsLoop(trace[k + 1])], loopActs + [a], at + [|loop|], k + 1)
  {
    hide IsRun, Step, Enabled, AsLoop;
    RunExtends(loop, loopActs, a);
    forall i | 0 <= i < |loopActs| + 1
      ensures Serves((loop + [AsLoop(trace[k + 1])])[i], (loopActs + [a])[i], 0)
    {
      assert i < |loopActs| ==> Serves(loop[i], loopActs[i], 0);
    }
  }

  /** Every run of the block device, its driver's stores apart, is a run of the loop. */
  lemma {:induction false} RunProjects(cfg: Config, trace: seq<BlkSys>, acts: seq<BlkAction>, k: nat)
    returns (loop: seq<Sys>, loopActs: seq<Action>, at: seq<nat>)
    requires IsBlkRun(cfg, trace, acts) && k < |trace|
    ensures Projection(trace, loop, loopActs, at, k) && |loop| == |loopActs| + 1
  {
    hide Step, BlkStep, Enabled, BlkEnabled;
    if k == 0 {
      loop, loopActs, at := [AsLoop(trace[0])], [], [0];
    } else {
      loop, loopActs, at := RunProjects(cfg, trace, acts, k - 1);
      assert BlkMove(cfg, trace, acts, k - 1);
      StepProjects(cfg, trace[k - 1], acts[k - 1]);
      if acts[k - 1].Poke? {
        at := at + [|loop| - 1];
      } else {
        ProjectionExtends(trace, loop, loopActs, at, k - 1, AsAction(acts[k - 1]));
        loop, loopActs, at := loop + [AsLoop(trace[k])], loopActs + [AsAction(acts[k - 1])], at + [|loop|];
      }
    }
  }

  /**
   A block request with `n` requests ahead of it is completed by the end of the (n+1)-th pass of the
   device that ends from any moment on, or of the (n+2)-th if at that moment the device has looked
   and seen nothing: it is then answered on the used ring and, until the driver collects it, its status
   byte is 0 and, if it is a read, its buffers hold the disk's bytes as of its turn.
   */
  lemma RequestCompletes(cfg: Config, trace: seq<BlkSys>, acts: seq<BlkAction>, r: nat, i: nat, k: nat)
    requires IsBlkRun(cfg, trace, acts) && i <= k < |trace|
    requires trace[i].q.served <= r < |trace[i].q.posted|
    requires trace[k].q.visits >= trace[i].q.visits + PassesNeeded(AsLoop(trace[i]), 0, r - trace[i].q.served)
    ensures var s := trace[k];
      && r < |s.q.published| <= |s.q.posted| == |s.reqs| && Paid(s.reqs) && s.q.posted[r].chain != []
      && s.q.published[r].id == s.q.posted[r].chain[0]
      && (|s.q.collected| <= r ==> Answered(s.blk.mem, s.reqs[r], Disk(trace[0].blk.image, s.reqs, r)))
  {
    hide IsBlkRun, Answered;
    var loop, loopActs, at := RunProjects(cfg, trace, acts, k);
    assert loop[at[i]] == AsLoop(trace[i]) && loop[at[k]] == AsLoop(trace[k]) && at[i] <= at[k];
    hide IsRun, AlwaysServes;
    BoundedService(loop, loopActs, 0, r, at[i], at[k]);
    RunsRefineDisk(cfg, trace, acts, k);
    if |trace[k].q.collected| <= r {
      AnsweredInRun(cfg, trace, acts, k, r);
    }
  }
}

/**
 The device half of the split virtqueues against a concurrent driver, as a transition system. One
 action is one move of the driver or one step of the device loop. Each load or store of an index,
 an available slot or a field of a used entry is a step of its own; a step of the chain walk loads
 all fields of one descriptor, which the device owns at that time, and makes the callback.
 */
module VirtQueue {
  import opened Words

  datatype Desc = Desc(addr: u64, len: u32, flags: u16, next: u16)

  datatype UsedElem = UsedElem(id: u32, len: u32)

  /** A request as the driver made it available: its descriptors' indices in order, and their contents. */
  datatype Posted = Posted(chain: seq<nat>, descs: seq<Desc>)

  /**
   One virtqueue. The first group of fields is shared memory, `processed` belongs to the
   device, the third group to the driver. The fields from `posted` on are history: no step
   reads them to decide anything or to compute the other fields.
   */
  datatype Queue = Queue(
    table: seq<Desc>,
    availRing: seq<u16>,
    availIdx: u16,
    usedRing: seq<UsedElem>,
    usedIdx: u16,

    processed: u16,

    staged: seq<nat>,               // chain whose head is in its slot but not yet published
    inflight: map<nat, seq<nat>>,   // published chains by head, until collected
    lastUsed: u16,
    seenUsed: u16,                  // the used index as last read, possibly stale

    posted: seq<Posted>,
    published: seq<UsedElem>,
    collected: seq<UsedElem>,
    seen: nat,                      // unbounded counter behind seenUsed
    served: nat,                    // unbounded counter behind processed
    visits: nat                     // completed loop passes over this queue
  )

  /** Where the device is within one pass over a queue, with its local variables. */
  datatype Pc =
    | Idle
    | Polled(availSeen: u16)
    | Walking(first: u16, cur: u16, bytes: u64, pos: nat)  // pos is history
    | Walked(first: u16, bytes: u64)
    | HaveUsed(first: u16, bytes: u64, used: u16)
    | IdWritten(first: u16, bytes: u64, used: u16)
    | LenWritten(used: u16)
    | IdxWritten

  datatype Callback =
    | Start(addr: int, len: u32)
    | Data(addr: int, len: u32)
    | Complete(addr: int, len: u32)

  /** `queue_header_size` and `starting_address`. */
  datatype Config = Config(headerSize: nat, base: int)

  predicate HasNext(d: Desc) { d.flags % 2 == 1 }

  /**
   The test is `flags & VRING_DESC_F_NEXT`: the lowest bit, whatever the others are, such as the write
   flag 2 of a buffer that the device is to fill.
   */
  lemma NextFlag(d: Desc)
    ensures d.flags in {0, 2} ==> !HasNext(d)
    ensures d.flags in {1, 3} ==> HasNext(d)
    ensures d.flags < 0xFFFF ==> HasNext(d.(flags := d.flags + 1)) == !HasNext(d)
    ensures d.flags < 0xFFFE ==> HasNext(d.(flags := d.flags + 2)) == HasNext(d)
  {
  }

  // ---------------------------------------------------------------- chains

  ghost predicate Linked(table: seq<Desc>, c: seq<nat>, i: nat)
    requires i + 1 < |c| && c[i] < |table|
  {
    Slot(table[c[i]].next) == c[i + 1]
  }

  ghost predicate IsChain(table: seq<Desc>, c: seq<nat>) {
    && |c| > 0
    && (forall i | 0 <= i < |c| :: c[i] < |table| && (HasNext(table[c[i]]) <==> i < |c| - 1))
    && (forall i, j | 0 <= i < j < |c| :: c[i] != c[j])
    && (forall i | 0 <= i < |c| - 1 :: Linked(table, c, i))
  }

  lemma ChainInTable(table: seq<Desc>, c: seq<nat>)
    requires IsChain(table, c)
    ensures c != [] && forall i | 0 <= i < |c| :: c[i] < |table|
  {
  }

  function Descs(table: seq<Desc>, c: seq<nat>): (r: seq<Desc>)
    requires forall i | 0 <= i < |c| :: c[i] < |table|
    ensures |r| == |c| && forall i | 0 <= i < |c| :: r[i] == table[c[i]]
  {
    seq(|c|, i requires 0 <= i < |c| => table[c[i]])
  }

  /** Bytes described by the first `k` descriptors. */
  function Total(descs: seq<Desc>, k: nat): (r: nat)
    requires k <= |descs|
    ensures r <= k * 0xFFFF_FFFF
  {
    if k == 0 then 0 else Total(descs, k - 1) + descs[k - 1].len
  }

  ghost predicate Apart(c: seq<nat>, d: seq<nat>) {
    forall x :: x in c ==> x !in d
  }

  /** Distinct numbers below `n` are at most `n` many. */
  lemma {:induction false} Pigeonhole(s: seq<nat>, n: nat)
    requires forall i | 0 <= i < |s| :: s[i] < n
    requires forall i, j | 0 <= i < j < |s| :: s[i] != s[j]
    ensures |s| <= n
  {
    if s == [] {
    } else {
      assert s[0] < n;
      if k :| 0 <= k < |s| && s[k] == n - 1 {
        var rest := s[..k] + s[k + 1..];
        assert forall i | 0 <= i < |rest| :: rest[i] == s[if i < k then i else i + 1];
        Pigeonhole(rest, n - 1);
      } else {
        Pigeonhole(s, n - 1);
      }
    }
  }

  /** Pairwise disjoint non-empty chains are no more than there are descriptors. */
  lemma DisjointChains(chains: seq<seq<nat>>)
    requires forall i | 0 <= i < |chains| :: chains[i] != [] && chains[i][0] < 16384
    requires forall i, j | 0 <= i < j < |chains| :: Apart(chains[i], chains[j])
    ensures |chains| <= 16384
  {
    var heads := seq(|chains|, i requires 0 <= i < |chains| => chains[i][0]);
    forall i, j | 0 <= i < j < |heads|
      ensures heads[i] != heads[j]
    {
      assert Apart(chains[i], chains[j]);
      assert heads[i] in chains[i] && heads[j] in chains[j];
    }
    Pigeonhole(heads, 16384);
  }

  lemma ChainBytes(table: seq<Desc>, c: seq<nat>, k: nat)
    requires |table| == 16384 && IsChain(table, c) && k <= |c|
    ensures Total(Descs(table, c), k) < 0x1_0000_0000_0000
  {
    Pigeonhole(c, 16384);
    assert k * 0xFFFF_FFFF <= 16384 * 0xFFFF_FFFF;
  }

  // ---------------------------------------------------------------- device

  /** One step of the device at program point `pc` of its pass over queue `q`. */
  function DeviceStep(q: Queue, pc: Pc, hasData: bool): (r: (Queue, Pc))
    requires |q.table| == |q.availRing| == |q.usedRing| == 16384
    ensures |r.0.table| == |r.0.availRing| == |r.0.usedRing| == 16384
  {
    match pc
    case Idle => (q, Polled(q.availIdx))
    case Polled(seen) =>
      if q.processed != seen && hasData then
        var head := q.availRing[Slot(q.processed)];
        (q, Walking(head, head, 0, 0))
      else
        (q.(visits := q.visits + 1), Idle)
    case Walking(first, cur, bytes, pos) =>
      var d := q.table[Slot(cur)];
      if HasNext(d) then (q, Walking(first, d.next, Wrap64(bytes + d.len), pos + 1))
      else (q, Walked(first, Wrap64(bytes + d.len)))
    case Walked(first, bytes) => (q, HaveUsed(first, bytes, q.usedIdx))
    case HaveUsed(first, bytes, used) =>
      var e := q.usedRing[Slot(used)];
      (q.(usedRing := q.usedRing[Slot(used) := e.(id := first)]), IdWritten(first, bytes, used))
    case IdWritten(first, bytes, used) =>
      var e := q.usedRing[Slot(used)];
      (q.(usedRing := q.usedRing[Slot(used) := e.(len := Wrap32(bytes))]), LenWritten(used))
    case LenWritten(used) =>
      (q.(usedIdx := Wrap16(used + 1), published := q.published + [q.usedRing[Slot(used)]]), IdxWritten)
    case IdxWritten =>
      (q.(processed := Wrap16(q.processed + 1), served := q.served + 1, visits := q.visits + 1), Idle)
  }

  /** The callback for a descriptor that comes after `bytes` bytes of its chain. */
  function CallbackFor(cfg: Config, d: Desc, bytes: u64): Callback {
    var a := d.addr - cfg.base;
    if !HasNext(d) then Complete(a, d.len)
    else if bytes < cfg.headerSize then Start(a, d.len)
    else Data(a, d.len)
  }

  /** The device callback made by the step at `pc`, if any. */
  function Callbacks(cfg: Config, q: Queue, pc: Pc): (r: seq<Callback>)
    requires |q.table| == 16384
  {
    if pc.Walking? then [CallbackFor(cfg, q.table[Slot(pc.cur)], pc.bytes)] else []
  }

  // ---------------------------------------------------------------- driver

  datatype DriverMove =
    | WriteDesc(i: nat, d: Desc)
    | Stage(chain: seq<nat>)
    | Publish
    | Observe
    | Collect

  /** What descriptor ownership lets the driver do; it looks only at its own bookkeeping. */
  ghost predicate DriverMay(q: Queue, m: DriverMove) {
    match m
    case WriteDesc(i, d) => i < 16384 && i !in q.staged && forall h | h in q.inflight :: i !in q.inflight[h]
    case Stage(c) => q.staged == [] && IsChain(q.table, c) && forall h | h in q.inflight :: Apart(q.inflight[h], c)
    case Publish => q.staged != []
    case Observe => true
    case Collect => q.lastUsed != q.seenUsed
  }

  /** A move the driver may make on arrays of their fixed sizes. */
  ghost predicate DriverReady(q: Queue, m: DriverMove) {
    && |q.table| == |q.availRing| == |q.usedRing| == 16384
    && DriverMay(q, m)
    && forall i | 0 <= i < |q.staged| :: q.staged[i] < 16384
  }

  ghost function DriverStep(q: Queue, m: DriverMove): (r: Queue)
    requires DriverReady(q, m)
  {
    match m
    case WriteDesc(i, d) => q.(table := q.table[i := d])
    case Stage(c) => q.(availRing := q.availRing[Slot(q.availIdx) := c[0]], staged := c)
    case Publish =>
      var c := q.staged;
      q.(availIdx := Wrap16(q.availIdx + 1), staged := [], inflight := q.inflight[c[0] := c],
         posted := q.posted + [Posted(c, Descs(q.table, c))])
    case Observe => q.(seenUsed := q.usedIdx, seen := |q.published|)
    case Collect =>
      var e := q.usedRing[Slot(q.lastUsed)];
      q.(lastUsed := Wrap16(q.lastUsed + 1), inflight := q.inflight - {e.id}, collected := q.collected + [e])
  }

  // ---------------------------------------------------------------- invariant

  ghost predicate Sized(q: Queue) {
    |q.table| == |q.availRing| == |q.usedRing| == 16384
  }

  /** The unbounded counters, and the 16-bit indices that stand for them. */
  ghost predicate Counters(q: Queue, pc: Pc) {
    && |q.collected| <= q.seen <= |q.published| <= |q.posted|
    && q.served == (if pc.IdxWritten? then |q.published| - 1 else |q.published|)
    && q.availIdx == Wrap16(|q.posted|)
    && q.usedIdx == Wrap16(|q.published|)
    && q.lastUsed == Wrap16(|q.collected|)
    && q.seenUsed == Wrap16(q.seen)
    && q.processed == Wrap16(q.served)
  }

  ghost predicate Headed(posted: seq<Posted>) {
    forall j | 0 <= j < |posted| :: posted[j].chain != [] && posted[j].chain[0] < 16384
  }

  ghost predicate OwnedChain(table: seq<Desc>, p: Posted) {
    IsChain(table, p.chain) && p.descs == Descs(table, p.chain)
  }

  /** The chains that the driver has handed over and not got back are intact and disjoint. */
  ghost predicate Owned(table: seq<Desc>, posted: seq<Posted>, lo: nat, staged: seq<nat>) {
    && (forall j {:trigger OwnedChain(table, posted[j])} | lo <= j < |posted| :: OwnedChain(table, posted[j]))
    && (forall i, j {:trigger Apart(posted[i].chain, posted[j].chain)} | lo <= i < j < |posted| ::
          Apart(posted[i].chain, posted[j].chain))
    && (staged != [] ==>
          && IsChain(table, staged)
          && forall j {:trigger Apart(posted[j].chain, staged)} | lo <= j < |posted| :: Apart(posted[j].chain, staged))
  }

  ghost predicate HeadAmong(posted: seq<Posted>, lo: nat, h: nat) {
    exists j :: lo <= j < |posted| && posted[j].chain != [] && posted[j].chain[0] == h
  }

  ghost predicate Filed(inflight: map<nat, seq<nat>>, c: seq<nat>) {
    c != [] && c[0] in inflight && inflight[c[0]] == c
  }

  /** The driver's own record of the chains in flight is exact. */
  ghost predicate Booked(inflight: map<nat, seq<nat>>, posted: seq<Posted>, lo: nat) {
    && (forall h | h in inflight :: HeadAmong(posted, lo, h))
    && (forall j {:trigger Filed(inflight, posted[j].chain)} | lo <= j < |posted| :: Filed(inflight, posted[j].chain))
  }

  ghost predicate AvailHolds(ring: seq<u16>, posted: seq<Posted>, lo: nat, staged: seq<nat>)
    requires |ring| == 16384 && Headed(posted)
  {
    && (forall j | lo <= j < |posted| :: ring[Slot(j)] == posted[j].chain[0])
    && (staged != [] ==> ring[Slot(|posted|)] == staged[0])
  }

  ghost predicate UsedHolds(ring: seq<UsedElem>, published: seq<UsedElem>, lo: nat)
    requires |ring| == 16384
  {
    forall j | lo <= j < |published| :: ring[Slot(j)] == published[j]
  }

  /** The used entry that answers a request. */
  ghost function Report(p: Posted): UsedElem
    requires p.chain != [] && p.chain[0] < 16384
  {
    UsedElem(p.chain[0], Wrap32(Total(p.descs, |p.descs|)))
  }

  ghost predicate Reported(published: seq<UsedElem>, posted: seq<Posted>)
    requires Headed(posted)
  {
    |published| <= |posted| && forall j | 0 <= j < |published| :: published[j] == Report(posted[j])
  }

  ghost predicate PrefixOf(s: seq<UsedElem>, t: seq<UsedElem>) {
    |s| <= |t| && forall j | 0 <= j < |s| :: s[j] == t[j]
  }

  ghost predicate AtDesc(p: Posted, first: u16, cur: u16, bytes: u64, pos: nat) {
    && pos < |p.chain| == |p.descs|
    && first == p.chain[0] && Slot(cur) == p.chain[pos]
    && bytes == Total(p.descs, pos)
  }

  ghost predicate InHand(q: Queue, first: u16, bytes: u64)
    requires Headed(q.posted)
  {
    && q.served < |q.posted|
    && first == q.posted[q.served].chain[0] && bytes == Total(q.posted[q.served].descs, |q.posted[q.served].descs|)
  }

  /** What the device's local variables mean at each program point. */
  ghost predicate Local(q: Queue, pc: Pc)
    requires Sized(q) && Headed(q.posted)
  {
    match pc
    case Idle => true
    case Polled(seen) => seen != q.processed ==> q.served < |q.posted|
    case Walking(first, cur, bytes, pos) =>
      q.served < |q.posted| && AtDesc(q.posted[q.served], first, cur, bytes, pos)
    case Walked(first, bytes) => InHand(q, first, bytes)
    case HaveUsed(first, bytes, used) => InHand(q, first, bytes) && used == q.usedIdx
    case IdWritten(first, bytes, used) =>
      InHand(q, first, bytes) && used == q.usedIdx && q.usedRing[Slot(used)].id == first
    case LenWritten(used) =>
      && q.served < |q.posted|
      && used == q.usedIdx && q.usedRing[Slot(used)] == Report(q.posted[q.served])
    case IdxWritten => |q.published| > 0
  }

  ghost predicate QueueInv(q: Queue, pc: Pc) {
    && Sized(q)
    && Counters(q, pc)
    && Headed(q.posted)
    && Owned(q.table, q.posted, |q.collected|, q.staged)
    && Booked(q.inflight, q.posted, |q.collected|)
    && AvailHolds(q.availRing, q.posted, |q.collected|, q.staged)
    && UsedHolds(q.usedRing, q.published, |q.collected|)
    && Reported(q.published, q.posted)
    && PrefixOf(q.collected, q.published)
    && Local(q, pc)
  }

  lemma InvSized(q: Queue, pc: Pc)
    requires QueueInv(q, pc)
    ensures Sized(q)
  {
  }

  // ---------------------------------------------------------------- what ownership gives

  ghost function ChainsFrom(posted: seq<Posted>, lo: nat): (r: seq<seq<nat>>)
    requires lo <= |posted|
    ensures |r| == |posted| - lo
    ensures forall i | 0 <= i < |r| :: r[i] == posted[lo + i].chain
  {
    seq(|posted| - lo, i requires 0 <= i < |posted| - lo => posted[lo + i].chain)
  }

  /** Ownership of disjoint non-empty chains bounds the number of outstanding requests. */
  lemma OutstandingBound(table: seq<Desc>, posted: seq<Posted>, lo: nat, staged: seq<nat>)
    requires |table| == 16384 && lo <= |posted| && Headed(posted) && Owned(table, posted, lo, staged)
    ensures |posted| - lo <= 16384
    ensures staged != [] ==> |posted| - lo < 16384
  {
    var chains := ChainsFrom(posted, lo);
    DisjointChains(chains);
    if staged != [] {
      DisjointChains(chains + [staged]);
    }
  }

  // ---------------------------------------------------------------- preservation

  /** One turn of the chain walk moves to the next descriptor, or ends it with the full total. */
  lemma NextDesc(table: seq<Desc>, p: Posted, first: u16, cur: u16, bytes: u64, pos: nat)
    requires |table| == 16384 && OwnedChain(table, p) && AtDesc(p, first, cur, bytes, pos)
    ensures var d := table[Slot(cur)];
      if HasNext(d) then AtDesc(p, first, d.next, Wrap64(bytes + d.len), pos + 1)
      else pos == |p.chain| - 1 && Wrap64(bytes + d.len) == Total(p.descs, |p.descs|)
  {
    ChainBytes(table, p.chain, pos + 1);
    assert pos + 1 < |p.chain| ==> Linked(table, p.chain, pos);
  }

  lemma WalkStepInv(q: Queue, pc: Pc)
    requires QueueInv(q, pc) && pc.Walking?
    ensures QueueInv(q, DeviceStep(q, pc, true).1)
  {
    NextDesc(q.table, q.posted[q.served], pc.first, pc.cur, pc.bytes, pc.pos);
  }

  lemma FetchInv(q: Queue, pc: Pc, hasData: bool)
    requires QueueInv(q, pc) && (pc.Idle? || pc.Polled?)
    ensures var (q', pc') := DeviceStep(q, pc, hasData); QueueInv(q', pc')
  {
    hide Booked, UsedHolds, Apart;
    OutstandingBound(q.table, q.posted, |q.collected|, q.staged);
    WrappedEqual(q.served, |q.posted|);
    SlotOfWrapped(q.served);
    if q.served < |q.posted| {
      assert OwnedChain(q.table, q.posted[q.served]);
    }
  }

  /** The slot that the device fills is not one the driver has yet to collect. */
  lemma UsedSlotFree(q: Queue, pc: Pc)
    requires QueueInv(q, pc) && q.served < |q.posted| && !pc.IdxWritten?
    ensures Slot(q.usedIdx) == Slot(|q.published|)
    ensures forall j | |q.collected| <= j < |q.published| :: Slot(j) != Slot(q.usedIdx)
  {
    OutstandingBound(q.table, q.posted, |q.collected|, q.staged);
    SlotOfWrapped(|q.published|);
    forall j | |q.collected| <= j < |q.published|
      ensures Slot(j) != Slot(q.usedIdx)
    {
      DistinctSlots(j, |q.published|);
    }
  }

  lemma FillInv(q: Queue, pc: Pc)
    requires QueueInv(q, pc) && (pc.Walked? || pc.HaveUsed? || pc.IdWritten?)
    ensures var (q', pc') := DeviceStep(q, pc, true); QueueInv(q', pc')
  {
    UsedSlotFree(q, pc);
  }

  lemma PublishUsedInv(q: Queue, pc: Pc)
    requires QueueInv(q, pc) && pc.LenWritten?
    ensures var (q', pc') := DeviceStep(q, pc, true); QueueInv(q', pc')
  {
    var q', n := DeviceStep(q, pc, true).0, |q.published|;
    assert Slot(q.usedIdx) == Slot(n) by { UsedSlotFree(q, pc); }
    WrapNext(n);
    assert UsedHolds(q'.usedRing, q'.published, |q.collected|) by {
      forall j | |q.collected| <= j < n + 1
        ensures q'.usedRing[Slot(j)] == q'.published[j]
      {
        assert j < n ==> q'.published[j] == q.published[j];
      }
    }
    assert Reported(q'.published, q.posted);
    assert PrefixOf(q.collected, q'.published);
  }

  lemma BumpInv(q: Queue, pc: Pc)
    requires QueueInv(q, pc) && pc.IdxWritten?
    ensures var (q', pc') := DeviceStep(q, pc, true); QueueInv(q', pc')
  {
    WrapNext(q.served);
  }

  lemma DeviceStepInv(q: Queue, pc: Pc, hasData: bool)
    requires QueueInv(q, pc)
    ensures var (q', pc') := DeviceStep(q, pc, hasData); QueueInv(q', pc')
  {
    hide QueueInv;
    match pc
    case Idle => FetchInv(q, pc, hasData);
    case Polled(_) => FetchInv(q, pc, hasData);
    case Walking(_, _, _, _) => WalkStepInv(q, pc);
    case LenWritten(_) => PublishUsedInv(q, pc);
    case IdxWritten => BumpInv(q, pc);
    case _ => FillInv(q, pc);
  }

  /** Rewriting a descriptor outside a chain leaves the chain as it was. */
  lemma ChainFrame(t: seq<Desc>, t': seq<Desc>, c: seq<nat>)
    requires |t| == |t'| && IsChain(t, c) && forall i | 0 <= i < |c| :: t[c[i]] == t'[c[i]]
    ensures IsChain(t', c) && Descs(t', c) == Descs(t, c)
  {
    forall i | 0 <= i < |c| - 1
      ensures Linked(t', c, i)
    {
      assert Linked(t, c, i);
    }
  }

  lemma WriteDescInv(q: Queue, pc: Pc, m: DriverMove)
    requires QueueInv(q, pc) && m.WriteDesc? && DriverReady(q, m)
    ensures QueueInv(DriverStep(q, m), pc)
  {
    var q' := DriverStep(q, m);
    forall j | |q.collected| <= j < |q.posted|
      ensures OwnedChain(q'.table, q.posted[j])
    {
      assert OwnedChain(q.table, q.posted[j]) && Filed(q.inflight, q.posted[j].chain);
      ChainFrame(q.table, q'.table, q.posted[j].chain);
    }
    if q.staged != [] {
      ChainFrame(q.table, q'.table, q.staged);
    }
  }

  /** A chain apart from everything in flight leaves room for itself in the available ring. */
  lemma StageBound(q: Queue, pc: Pc, c: seq<nat>)
    requires QueueInv(q, pc) && DriverMay(q, Stage(c))
    ensures |q.posted| - |q.collected| < 16384
    ensures forall j | |q.collected| <= j < |q.posted| :: Apart(q.posted[j].chain, c)
    ensures Slot(q.availIdx) == Slot(|q.posted|)
    ensures forall j | |q.collected| <= j < |q.posted| :: Slot(j) != Slot(q.availIdx)
  {
    forall j | |q.collected| <= j < |q.posted|
      ensures Apart(q.posted[j].chain, c)
    {
      assert Filed(q.inflight, q.posted[j].chain);
    }
    OutstandingBound(q.table, q.posted, |q.collected|, c);
    SlotOfWrapped(|q.posted|);
    forall j | |q.collected| <= j < |q.posted|
      ensures Slot(j) != Slot(q.availIdx)
    {
      DistinctSlots(j, |q.posted|);
    }
  }

  lemma StageInv(q: Queue, pc: Pc, m: DriverMove)
    requires QueueInv(q, pc) && m.Stage? && DriverReady(q, m)
    ensures QueueInv(DriverStep(q, m), pc)
  {
    StageBound(q, pc, m.chain);
  }

  lemma OwnedSnoc(table: seq<Desc>, posted: seq<Posted>, lo: nat, c: seq<nat>)
    requires c != [] && lo <= |posted| && Owned(table, posted, lo, c)
    ensures Owned(table, posted + [Posted(c, Descs(table, c))], lo, [])
    ensures forall j | lo <= j < |posted| :: Apart(posted[j].chain, c)
  {
    var posted' := posted + [Posted(c, Descs(table, c))];
    forall i, j | lo <= i < j < |posted'|
      ensures Apart(posted'[i].chain, posted'[j].chain)
    {
      assert posted'[i] == posted[i];
    }
  }

  lemma BookedSnoc(inflight: map<nat, seq<nat>>, posted: seq<Posted>, lo: nat, p: Posted)
    requires lo <= |posted| && Booked(inflight, posted, lo)
    requires p.chain != [] && forall j | lo <= j < |posted| :: Apart(posted[j].chain, p.chain)
    ensures Booked(inflight[p.chain[0] := p.chain], posted + [p], lo)
  {
    var posted' := posted + [p];
    assert posted'[|posted|] == p;
    forall h | h in inflight
      ensures HeadAmong(posted', lo, h)
    {
      assert HeadAmong(posted, lo, h);
      var j :| lo <= j < |posted| && posted[j].chain != [] && posted[j].chain[0] == h;
      assert posted'[j] == posted[j];
    }
    forall j | lo <= j < |posted|
      ensures Filed(inflight[p.chain[0] := p.chain], posted'[j].chain)
    {
      assert posted'[j] == posted[j] && Filed(inflight, posted[j].chain);
      assert Apart(posted[j].chain, p.chain) && posted[j].chain[0] in posted[j].chain;
    }
  }

  lemma HeadedSnoc(posted: seq<Posted>, published: seq<UsedElem>, p: Posted)
    requires Headed(posted) && p.chain != [] && p.chain[0] < 16384 && Reported(published, posted)
    ensures Headed(posted + [p]) && Reported(published, posted + [p])
  {
  }

  lemma AvailSnoc(ring: seq<u16>, posted: seq<Posted>, lo: nat, c: seq<nat>, p: Posted)
    requires |ring| == 16384 && Headed(posted) && Headed(posted + [p]) && c != [] && p.chain == c
    requires lo <= |posted| && AvailHolds(ring, posted, lo, c)
    ensures AvailHolds(ring, posted + [p], lo, [])
  {
    forall j | lo <= j < |posted| + 1
      ensures ring[Slot(j)] == (posted + [p])[j].chain[0]
    {
      assert j < |posted| ==> (posted + [p])[j] == posted[j];
    }
  }

  lemma LocalSnoc(q: Queue, q': Queue, pc: Pc, p: Posted)
    requires Sized(q) && Headed(q.posted) && Local(q, pc) && q'.posted == q.posted + [p] && Headed(q'.posted)
    requires q'.table == q.table && q'.usedRing == q.usedRing && q'.usedIdx == q.usedIdx && q'.published == q.published
    requires q'.processed == q.processed && q'.served == q.served && Sized(q')
    ensures Local(q', pc)
  {
    assert q.served < |q.posted| ==> q'.posted[q.served] == q.posted[q.served];
  }

  lemma PublishInv(q: Queue, pc: Pc, m: DriverMove)
    requires QueueInv(q, pc) && m.Publish? && DriverReady(q, m)
    ensures QueueInv(DriverStep(q, m), pc)
  {
    hide IsChain, Apart, Booked, AvailHolds, UsedHolds, Reported, PrefixOf, Local;
    var q', lo := DriverStep(q, m), |q.collected|;
    var p := Posted(q.staged, Descs(q.table, q.staged));
    assert q'.posted == q.posted + [p];
    ChainInTable(q.table, q.staged);
    WrapNext(|q.posted|);
    HeadedSnoc(q.posted, q.published, p);
    OwnedSnoc(q.table, q.posted, lo, q.staged);
    hide Owned;
    BookedSnoc(q.inflight, q.posted, lo, p);
    AvailSnoc(q.availRing, q.posted, lo, q.staged, p);
    LocalSnoc(q, q', pc, p);
  }

  lemma ObserveInv(q: Queue, pc: Pc, m: DriverMove)
    requires QueueInv(q, pc) && m.Observe? && DriverReady(q, m)
    ensures QueueInv(DriverStep(q, m), pc)
  {
  }

  /** The entry the driver collects next answers the oldest request it has not got back. */
  lemma CollectsOldest(q: Queue, pc: Pc)
    requires QueueInv(q, pc) && DriverMay(q, Collect)
    ensures |q.collected| < q.seen <= |q.published|
    ensures q.usedRing[Slot(q.lastUsed)] == Report(q.posted[|q.collected|])
  {
    OutstandingBound(q.table, q.posted, |q.collected|, q.staged);
    WrappedEqual(|q.collected|, q.seen);
    SlotOfWrapped(|q.collected|);
  }

  lemma BookedDrop(inflight: map<nat, seq<nat>>, posted: seq<Posted>, lo: nat)
    requires lo < |posted| && Booked(inflight, posted, lo) && posted[lo].chain != []
    requires forall j | lo < j < |posted| :: Apart(posted[lo].chain, posted[j].chain)
    ensures Booked(inflight - {posted[lo].chain[0]}, posted, lo + 1)
  {
    var inflight' := inflight - {posted[lo].chain[0]};
    forall j | lo < j < |posted|
      ensures Filed(inflight', posted[j].chain)
    {
      assert Filed(inflight, posted[j].chain);
      assert Apart(posted[lo].chain, posted[j].chain) && posted[j].chain[0] in posted[j].chain;
    }
    forall h | h in inflight'
      ensures HeadAmong(posted, lo + 1, h)
    {
      assert HeadAmong(posted, lo, h);
    }
  }

  lemma OwnedDrop(table: seq<Desc>, posted: seq<Posted>, lo: nat, staged: seq<nat>)
    requires lo < |posted| && Owned(table, posted, lo, staged)
    ensures Owned(table, posted, lo + 1, staged)
    ensures forall j | lo < j < |posted| :: Apart(posted[lo].chain, posted[j].chain)
  {
    hide OwnedChain, Apart, IsChain;
  }

  lemma CollectInv(q: Queue, pc: Pc, m: DriverMove)
    requires QueueInv(q, pc) && m.Collect? && DriverReady(q, m)
    ensures QueueInv(DriverStep(q, m), pc)
  {
    hide Owned, Apart, IsChain, Booked;
    CollectsOldest(q, pc);
    var q', lo := DriverStep(q, m), |q.collected|;
    WrapNext(lo);
    OwnedDrop(q.table, q.posted, lo, q.staged);
    BookedDrop(q.inflight, q.posted, lo);
    assert PrefixOf(q'.collected, q.published);
  }

  lemma DriverStepInv(q: Queue, pc: Pc, m: DriverMove)
    requires QueueInv(q, pc) && DriverReady(q, m)
    ensures QueueInv(DriverStep(q, m), pc)
  {
    match m
    case WriteDesc(_, _) => WriteDescInv(q, pc, m);
    case Stage(_) => StageInv(q, pc, m);
    case Publish => PublishInv(q, pc, m);
    case Observe => ObserveInv(q, pc, m);
    case Collect => CollectInv(q, pc, m);
  }
}

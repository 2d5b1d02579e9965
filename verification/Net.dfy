/** The network device: its `header_processed` flag across the chains of its two queues, and the packets it moves. */
module Net {
  import opened Words
  import opened Bytes
  import opened VirtQueue
  import opened Engine

  /** `sizeof(struct virtio_net_hdr_mrg_rxbuf)` */
  const HEADER_SIZE: nat := 12
  const PACKET_SIZE: nat := 1514

  /** The flag, and how often the header step has run and how many chains have completed. */
  datatype NetState = NetState(headerProcessed: bool, headerSteps: nat, chains: nat)

  /** The three callbacks; completing a chain runs the header step itself if nothing else has. */
  function HandleNet(s: NetState, cb: Callback): NetState {
    match cb
    case Start(_, _) => s.(headerProcessed := true, headerSteps := s.headerSteps + 1)
    case Data(_, _) => s
    case Complete(_, _) =>
      s.(headerProcessed := false, chains := s.chains + 1,
         headerSteps := if s.headerProcessed then s.headerSteps else s.headerSteps + 1)
  }

  /** The state after the first `n` callbacks. */
  function HandleMany(s: NetState, calls: seq<Callback>, n: nat): NetState
    requires n <= |calls|
  {
    if n == 0 then s else HandleNet(HandleMany(s, calls, n - 1), calls[n - 1])
  }

  /** Descriptors before descriptor `k` that the header step is called on. */
  function Starts(cfg: Config, descs: seq<Desc>, k: nat): (n: nat)
    requires k < |descs|
    ensures n <= k
  {
    if k == 0 then 0
    else Starts(cfg, descs, k - 1) + if Total(descs, k - 1) < cfg.headerSize then 1 else 0
  }

  /** The shapes of chain on which the header step runs once. */
  predicate OneHeader(cfg: Config, descs: seq<Desc>) {
    |descs| <= 2 || descs[0].len >= cfg.headerSize
  }

  lemma {:induction false} StartsBounds(cfg: Config, descs: seq<Desc>, k: nat)
    requires cfg.headerSize > 0 && k < |descs|
    ensures k > 0 ==> Starts(cfg, descs, k) >= 1
    ensures k <= 1 || descs[0].len >= cfg.headerSize ==> Starts(cfg, descs, k) <= 1
    ensures k > 1 && descs[0].len < cfg.headerSize ==> Starts(cfg, descs, k) >= 2
  {
    if k == 0 {
    } else {
      StartsBounds(cfg, descs, k - 1);
      if k > 1 {
        TotalMonotone(descs, 1, k - 1);
        assert Total(descs, 1) == Total(descs, 0) + descs[0].len;
      }
    }
  }

  /** Part way through a chain the flag is set, and the header step has run on the starts so far. */
  lemma {:induction false} PartWay(cfg: Config, s: NetState, descs: seq<Desc>, k: nat)
    requires cfg.headerSize > 0 && !s.headerProcessed && k < |descs|
    ensures HandleMany(s, DueAll(cfg, descs), k)
         == NetState(k > 0, s.headerSteps + Starts(cfg, descs, k), s.chains)
  {
    if k == 0 {
    } else {
      PartWay(cfg, s, descs, k - 1);
      StartsBounds(cfg, descs, k);
    }
  }

  /**
   Whatever the chain, the flag is clear again after it; and its header step runs exactly once
   if and only if the chain has at most two descriptors or its first one covers the header.
   */
  lemma ChainHeader(cfg: Config, s: NetState, descs: seq<Desc>)
    requires cfg.headerSize > 0 && !s.headerProcessed && descs != []
    ensures var s' := HandleMany(s, DueAll(cfg, descs), |descs|);
      && !s'.headerProcessed && s'.chains == s.chains + 1 && s'.headerSteps >= s.headerSteps + 1
      && (s'.headerSteps == s.headerSteps + 1 <==> OneHeader(cfg, descs))
  {
    PartWay(cfg, s, descs, |descs| - 1);
    StartsBounds(cfg, descs, |descs| - 1);
  }

  /** A chain that gets two header steps: a 4-byte piece of the header, then the rest of it, then data. */
  lemma SplitHeaderRunsTwice(s: NetState)
    requires !s.headerProcessed
    ensures var descs := [Desc(0, 4, 1, 1), Desc(4, 8, 1, 2), Desc(16, 60, 0, 0)];
      HandleMany(s, DueAll(Config(HEADER_SIZE, 0), descs), 3).headerSteps == s.headerSteps + 2
  {
    var cfg, descs := Config(HEADER_SIZE, 0), [Desc(0, 4, 1, 1), Desc(4, 8, 1, 2), Desc(16, 60, 0, 0)];
    assert Total(descs, 1) == Total(descs, 0) + 4;
    PartWay(cfg, s, descs, 2);
    assert Starts(cfg, descs, 2) == Starts(cfg, descs, 1) + 1;
  }

  // ---------------------------------------------------------------- over whole runs

  ghost function NetAct(cfg: Config, n: NetState, s: Sys, a: Action): NetState
    requires Enabled(s, a)
  {
    if a.Device? && s.pc.Walking? then HandleNet(n, Callbacks(cfg, s.queues[s.cur], s.pc)[0]) else n
  }

  /** The flag and counters after `k` steps of a run of the device loop, over all its queues. */
  ghost function NetAfter(cfg: Config, trace: seq<Sys>, acts: seq<Action>, k: nat): NetState
    requires IsRun(trace, acts) && k < |trace|
  {
    if k == 0 then NetState(false, 0, 0)
    else
      assert Move(trace, acts, k - 1);
      NetAct(cfg, NetAfter(cfg, trace, acts, k - 1), trace[k - 1], acts[k - 1])
  }

  /** The chains of a queue that the device has begun, the one it is on as far as it has got, take one header step. */
  ghost predicate BegunRight(cfg: Config, q: Queue, pc: Pc) {
    && (forall j | 0 <= j < WalkedCount(q, pc) && j < |q.posted| :: OneHeader(cfg, q.posted[j].descs))
    && (pc.Walking? && pc.pos > 1 && q.served < |q.posted| && q.posted[q.served].descs != [] ==>
          q.posted[q.served].descs[0].len >= cfg.headerSize)
  }

  ghost predicate AllBegunRight(cfg: Config, s: Sys) {
    forall i | 0 <= i < |s.queues| :: BegunRight(cfg, s.queues[i], PcOf(s, i))
  }

  /** Header steps beyond one for each chain begun. */
  function Surplus(n: NetState): int { n.headerSteps - n.chains - if n.headerProcessed then 1 else 0 }

  /** The flag says whether the device is past the first descriptor of a chain. */
  ghost predicate FlagRight(n: NetState, s: Sys) {
    n.headerProcessed == (s.pc.Walking? && s.pc.pos > 0)
  }

  lemma NetWalk(cfg: Config, n: NetState, q: Queue, pc: Pc)
    requires cfg.headerSize > 0 && QueueInv(q, pc) && pc.Walking? && n.headerProcessed == (pc.pos > 0)
    ensures var n', pc' := HandleNet(n, Callbacks(cfg, q, pc)[0]), DeviceStep(q, pc, true).1;
      && n'.headerProcessed == (pc'.Walking? && pc'.pos > 0)
      && Surplus(n') >= Surplus(n) && (BegunRight(cfg, q, pc') ==> BegunRight(cfg, q, pc))
      && (Surplus(n') == Surplus(n) || !BegunRight(cfg, q, pc'))
      && (BegunRight(cfg, q, pc') || Surplus(n') > Surplus(n) || !BegunRight(cfg, q, pc))
  {
    hide Owned, Booked, AvailHolds, UsedHolds, Reported, PrefixOf;
    WalkCall(cfg, q, pc);
    var descs := q.posted[q.served].descs;
    if pc.pos > 0 && pc.pos < |descs| - 1 {
      TotalMonotone(descs, 1, pc.pos);
      assert Total(descs, 1) == Total(descs, 0) + descs[0].len;
    }
  }

  /** No other step of the device, and no move of the driver, begins a descriptor. */
  lemma BegunSame(cfg: Config, q: Queue, pc: Pc, hasData: bool)
    requires QueueInv(q, pc) && !pc.Walking?
    ensures var (q', pc') := DeviceStep(q, pc, hasData); BegunRight(cfg, q', pc') <==> BegunRight(cfg, q, pc)
  {
    hide Owned, Booked, AvailHolds, UsedHolds, Reported, PrefixOf, OneHeader;
    var (q', pc') := DeviceStep(q, pc, hasData);
    assert q'.posted == q.posted && WalkedCount(q', pc') == WalkedCount(q, pc);
  }

  lemma PostedStays(q: Queue, m: DriverMove)
    requires DriverReady(q, m)
    ensures var q' := DriverStep(q, m);
      && q'.served == q.served && |q.posted| <= |q'.posted|
      && forall j | 0 <= j < |q.posted| :: q'.posted[j] == q.posted[j]
  {
  }

  lemma BegunPosted(cfg: Config, q: Queue, pc: Pc, m: DriverMove)
    requires QueueInv(q, pc) && DriverReady(q, m)
    ensures BegunRight(cfg, DriverStep(q, m), pc) <==> BegunRight(cfg, q, pc)
  {
    hide QueueInv, OneHeader, DriverReady, DriverStep;
    ExpectedDefined(q, pc);
    PostedStays(q, m);
    var q' := DriverStep(q, m);
    assert WalkedCount(q', pc) == WalkedCount(q, pc);
    assert forall j {:trigger q.posted[j]} | 0 <= j < |q.posted| :: q'.posted[j] == q.posted[j];
  }

  lemma WalkKeepsQueue(q: Queue, pc: Pc, hasData: bool)
    requires Sized(q) && pc.Walking?
    ensures DeviceStep(q, pc, hasData).0 == q
  {
  }

  lemma FlagStep(s: Sys, a: Action)
    requires Inv(s) && Enabled(s, a)
    ensures a.Device? && s.pc.Walking? ==>
      QueueInv(s.queues[s.cur], s.pc) && Step(s, a).pc == DeviceStep(s.queues[s.cur], s.pc, true).1
    ensures !(a.Device? && s.pc.Walking?) ==>
      (Step(s, a).pc.Walking? && Step(s, a).pc.pos > 0) == (s.pc.Walking? && s.pc.pos > 0)
  {
    assert QueueInv(s.queues[s.cur], PcOf(s, s.cur));
    hide QueueInv;
  }

  /** A step leaves what is begun of every queue alone, but for the walked one. */
  lemma BegunStep(cfg: Config, s: Sys, a: Action, i: nat)
    requires Inv(s) && Enabled(s, a) && i < |s.queues|
    requires !(a.Device? && s.pc.Walking? && i == s.cur)
    ensures i < |Step(s, a).queues|
    ensures BegunRight(cfg, Step(s, a).queues[i], PcOf(Step(s, a), i)) <==> BegunRight(cfg, s.queues[i], PcOf(s, i))
  {
    assert QueueInv(s.queues[i], PcOf(s, i));
    hide QueueInv, BegunRight, DeviceStep, DriverStep;
    if a.Device? && i == s.cur {
      BegunSame(cfg, s.queues[i], s.pc, a.hasData);
    } else if a.Driver? && i == a.qi {
      BegunPosted(cfg, s.queues[i], PcOf(s, i), a.move);
    }
  }

  lemma HeaderStep(cfg: Config, n: NetState, s: Sys, a: Action)
    requires cfg.headerSize > 0 && Inv(s) && Enabled(s, a) && FlagRight(n, s)
    requires Surplus(n) >= 0 && (Surplus(n) == 0 <==> AllBegunRight(cfg, s))
    ensures var n', s' := NetAct(cfg, n, s, a), Step(s, a);
      FlagRight(n', s') && Surplus(n') >= 0 && (Surplus(n') == 0 <==> AllBegunRight(cfg, s'))
  {
    hide Inv, QueueInv, Callbacks, DeviceStep, DriverStep, HandleNet, BegunRight, Surplus;
    FlagStep(s, a);
    var s' := Step(s, a);
    assert |s'.queues| == |s.queues|;
    forall i | 0 <= i < |s.queues| && !(a.Device? && s.pc.Walking? && i == s.cur)
      ensures BegunRight(cfg, s'.queues[i], PcOf(s', i)) <==> BegunRight(cfg, s.queues[i], PcOf(s, i))
    {
      BegunStep(cfg, s, a, i);
    }
    if a.Device? && s.pc.Walking? {
      var q := s.queues[s.cur];
      assert s'.queues[s.cur] == q by { WalkKeepsQueue(q, s.pc, a.hasData); }
      NetWalk(cfg, n, q, s.pc);
      assert BegunRight(cfg, q, PcOf(s, s.cur)) <==> BegunRight(cfg, q, s.pc);
      assert BegunRight(cfg, s'.queues[s.cur], PcOf(s', s.cur)) <==> BegunRight(cfg, q, s'.pc);
    }
  }

  /**
   In every run over any number of queues, the flag is set exactly while the device is past the
   first descriptor of a chain, so it is clear between chains. The header step has run at least
   once for each chain begun, and exactly once for each if and only if all of them, the current one
   as far as it has got, are of a shape with one header step.
   */
  lemma {:induction false} HeaderOncePerChain(cfg: Config, trace: seq<Sys>, acts: seq<Action>, k: nat)
    requires cfg.headerSize == 12 && IsRun(trace, acts) && k < |trace|
    ensures var n, s := NetAfter(cfg, trace, acts, k), trace[k];
      FlagRight(n, s) && Surplus(n) >= 0 && (Surplus(n) == 0 <==> AllBegunRight(cfg, s))
  {
    if k == 0 {
      assert forall i | 0 <= i < |trace[0].queues| :: Fresh(trace[0].queues[i]);
    } else {
      HeaderOncePerChain(cfg, trace, acts, k - 1);
      RunInv(trace, acts, k - 1);
      assert Move(trace, acts, k - 1);
      hide IsRun, Inv, QueueInv, Step, HandleNet, Callbacks, BegunRight;
      HeaderStep(cfg, NetAfter(cfg, trace, acts, k - 1), trace[k - 1], acts[k - 1]);
    }
  }

  // ---------------------------------------------------------------- packets

  /** Where `process_queue_complete` looks for the packet. */
  function PacketAt(headerProcessed: bool, addr: int): int {
    if headerProcessed then addr else addr + HEADER_SIZE
  }

  /** What becomes of the copy into `buffer`: nothing in the code checks that the bytes fit. */
  datatype Transmission = Sent(packet: seq<u8>) | Overrun

  /** What `process_queue_complete` sends: as many bytes as its descriptor has, wherever the packet starts. */
  function Transmit(mem: seq<u8>, headerProcessed: bool, addr: int, len: u32): Transmission {
    if len <= PACKET_SIZE then Sent(Slice(mem, PacketAt(headerProcessed, addr), len)) else Overrun
  }

  /** What is sent for a chain, from the flag as the chain's earlier descriptors have left it. */
  function TransmitChain(cfg: Config, mem: seq<u8>, s: NetState, descs: seq<Desc>): Transmission
    requires descs != []
  {
    var n := |descs| - 1;
    var flag := HandleMany(s, DueAll(cfg, descs), n).headerProcessed;
    Transmit(mem, flag, descs[n].addr - cfg.base, descs[n].len)
  }

  /** The contents of the first `n` buffers of a chain, end to end. */
  function ChainContents(cfg: Config, mem: seq<u8>, descs: seq<Desc>, n: nat): (r: seq<u8>)
    requires n <= |descs|
    ensures |r| == Total(descs, n)
  {
    if n == 0 then []
    else ChainContents(cfg, mem, descs, n - 1) + Slice(mem, descs[n - 1].addr - cfg.base, descs[n - 1].len)
  }

  /** A transmit chain as the standard means it: a header, and the packet after it. */
  function MeantPacket(cfg: Config, mem: seq<u8>, descs: seq<Desc>): seq<u8>
    requires Total(descs, |descs|) >= HEADER_SIZE
  {
    ChainContents(cfg, mem, descs, |descs|)[HEADER_SIZE..]
  }

  /**
   Whatever memory holds, the copy stays in bounds and the packet sent is the one meant exactly when
   the descriptors before the last describe as many bytes as the header has and the last one no
   more than a packet.
   */
  lemma {:induction false} SentIsMeantIff(cfg: Config, mem: seq<u8>, s: NetState, descs: seq<Desc>)
    requires cfg.headerSize == 12 && !s.headerProcessed
    requires descs != [] && Total(descs, |descs|) >= 12
    ensures TransmitChain(cfg, mem, s, descs) == Sent(MeantPacket(cfg, mem, descs))
            <==> Total(descs, |descs| - 1) == 12 && descs[|descs| - 1].len <= 1514
  {
    var n := |descs| - 1;
    PartWay(cfg, s, descs, n);
    var before := ChainContents(cfg, mem, descs, n);
    var last := Slice(mem, descs[n].addr - cfg.base, descs[n].len);
    assert ChainContents(cfg, mem, descs, |descs|) == before + last;
    if Total(descs, n) == HEADER_SIZE {
      assert (before + last)[HEADER_SIZE..] == last;
    } else {
      assert |MeantPacket(cfg, mem, descs)| == Total(descs, n) + |last| - HEADER_SIZE != |last|;
    }
  }

  /**
   Header and packet together in one descriptor: a packet of up to 1502 bytes is sent with the 12
   bytes that follow the descriptor, a longer one does not fit.
   */
  lemma OneDescriptorSent(cfg: Config, mem: seq<u8>, s: NetState, d: Desc)
    requires cfg.headerSize == 12 && !s.headerProcessed && d.len >= 12
    ensures Total([d], 1) == d.len && |MeantPacket(cfg, mem, [d])| == d.len as int - 12
    ensures TransmitChain(cfg, mem, s, [d]) ==
      if d.len <= 1514 then Sent(MeantPacket(cfg, mem, [d]) + Slice(mem, d.addr - cfg.base + d.len, 12)) else Overrun
  {
    var a := d.addr - cfg.base;
    assert Total([d], 1) == Total([d], 0) + d.len;
    assert ChainContents(cfg, mem, [d], 1) == ChainContents(cfg, mem, [d], 0) + Slice(mem, a, d.len);
    assert MeantPacket(cfg, mem, [d]) == Slice(mem, a + HEADER_SIZE, d.len - HEADER_SIZE);
    assert Slice(mem, a + HEADER_SIZE, d.len)
        == Slice(mem, a + HEADER_SIZE, d.len - HEADER_SIZE) + Slice(mem, a + d.len, HEADER_SIZE);
  }

  /** Two chains that overrun: a full frame of 1514 bytes with its header, and a long second descriptor. */
  lemma OverrunChains(mem: seq<u8>, s: NetState)
    requires !s.headerProcessed
    ensures var cfg := Config(HEADER_SIZE, 0);
      && TransmitChain(cfg, mem, s, [Desc(0, 1526, 0, 0)]) == Overrun
      && TransmitChain(cfg, mem, s, [Desc(0, 12, 1, 1), Desc(12, 2000, 0, 0)]) == Overrun
  {
  }

  // ---------------------------------------------------------------- the callbacks as code

  /** The header of a receive buffer at `addr`: flags, GSO type and GSO size 0, one buffer, the other six bytes kept. */
  function HeaderFilled(mem: seq<u8>, addr: nat): (r: seq<u8>)
    requires addr + HEADER_SIZE <= |mem|
    ensures |r| == |mem|
    ensures forall i | 0 <= i < |r| ::
              if i in {addr, addr + 1, addr + 4, addr + 5, addr + 11} then r[i] == 0
              else if i == addr + 10 then r[i] == 1
              else r[i] == mem[i]
  {
    mem[addr := 0][addr + 1 := 0][addr + 4 := 0][addr + 5 := 0][addr + 10 := 1][addr + 11 := 0]
  }

  class VirtioNet {
    const memory: array<u8>
    const buffer: array<u8>
    const headerSize: nat
    const numQueues: nat
    const deviceId: nat
    const deviceFeatures: seq<u32>
    var headerProcessed: bool
    var sent: seq<seq<u8>>      // packets handed to the network stack
    ghost var headerSteps: nat
    ghost var chains: nat

    ghost predicate Valid() {
      memory != buffer && buffer.Length == PACKET_SIZE
    }

    ghost function State(): NetState
      reads this
    {
      NetState(headerProcessed, headerSteps, chains)
    }

    /** A network device with two queues, 12-byte headers, and the features GUEST_CSUM and VERSION_1. */
    constructor (memory: array<u8>)
      ensures Valid() && fresh(buffer) && buffer.Length == 1514 && this.memory == memory
      ensures State() == NetState(false, 0, 0) && sent == []
      ensures headerSize == 12 && numQueues == 2 && deviceId == 1 && deviceFeatures == [2, 1]
    {
      headerSize, numQueues, deviceId, deviceFeatures := HEADER_SIZE, 2, 1, [2, 1];
      this.memory, buffer, headerProcessed, sent := memory, new u8[PACKET_SIZE], false, [];
      headerSteps, chains := 0, 0;
    }

    /** Queue 0 is the receive queue, whose header the device fills in: four fields, the rest untouched. */
    method ProcessQueueStart(queueIdx: nat, addr: nat, len: u32)
      requires queueIdx == 0 ==> addr + HEADER_SIZE <= memory.Length
      modifies this`headerProcessed, this`headerSteps, memory
      ensures State() == HandleNet(old(State()), Start(addr, len))
      ensures memory[..] == if queueIdx == 0 then HeaderFilled(old(memory[..]), addr) else old(memory[..])
    {
      headerProcessed, headerSteps := true, headerSteps + 1;
      if queueIdx == 0 {
        memory[addr] := 0;                            // flags
        memory[addr + 10], memory[addr + 11] := 1, 0; // num_buffers
        memory[addr + 1] := 0;                        // gso_type
        memory[addr + 4], memory[addr + 5] := 0, 0;   // gso_size
      }
    }

    /** Does nothing, whatever the descriptor. */
    method ProcessQueueData(queueIdx: nat, addr: nat, len: u32)
      ensures State() == HandleNet(old(State()), Data(addr, len))
    {
    }

    /**
     Runs the header step if nothing else has; then, on queue 0, stores the packet `received` from
     the network stack, if there is one, and on queue 1 sends the descriptor's packet. A packet that
     does not fit `buffer` ends the model's account: what the code then does is undefined.
     */
    method ProcessQueueComplete(queueIdx: nat, addr: nat, len: u32, received: seq<u8>) returns (ok: bool)
      requires Valid() && |received| <= PACKET_SIZE
      requires queueIdx == 0 ==> PacketAt(headerProcessed, addr) + |received| <= memory.Length
      requires queueIdx == 0 && !headerProcessed ==> addr + HEADER_SIZE <= memory.Length
      requires queueIdx == 1 ==> PacketAt(headerProcessed, addr) + len <= memory.Length
      modifies this`headerProcessed, this`headerSteps, this`chains, this`sent, memory, buffer
      ensures !ok <==> queueIdx == 1 && Transmit(old(memory[..]), old(headerProcessed), addr, len) == Overrun
      ensures ok ==> State() == HandleNet(old(State()), Complete(addr, len))
      ensures queueIdx == 0 ==>
        && sent == old(sent)
        && memory[..] == Blit(if old(headerProcessed) then old(memory[..]) else HeaderFilled(old(memory[..]), addr),
                              PacketAt(old(headerProcessed), addr), received)
      ensures queueIdx == 1 && ok ==>
        && memory[..] == old(memory[..]) && sent == old(sent) + [buffer[..len]]
        && Sent(buffer[..len]) == Transmit(memory[..], old(headerProcessed), addr, len)
      ensures queueIdx > 1 ==> memory[..] == old(memory[..]) && sent == old(sent)
    {
      var packet := addr;
      if !headerProcessed {
        ProcessQueueStart(queueIdx, addr, len);
        packet := packet + HEADER_SIZE;
      }
      if queueIdx == 0 {
        forall i | 0 <= i < |received| {
          buffer[i] := received[i];
        }
        if |received| > 0 {
          CopyBytes(memory, packet, buffer, 0, |received|);
        }
      } else if queueIdx == 1 {
        if len > PACKET_SIZE {
          return false;
        }
        CopyBytes(buffer, 0, memory, packet, len);
        assert buffer[..len] == Slice(memory[..], packet, len);
        sent := sent + [buffer[..len]];
      }
      headerProcessed, chains, ok := false, chains + 1, true;
    }
  }
}

/**
 Loading a file over the network: the sender of openblt/util/netboot.c, the loader of openblt/netboot/netboot.c, and
 between them a network that may lose, duplicate, delay and reorder packets.
 */
module NetbootState {

  type Byte = b: int | 0 <= b < 256

  const NETBOOT_BASE := 0x100000
  const BLOCK := 1024
  const NUMBERS := 65536
  const MEMORY := 0x100000 + 65536 * 1024

  const LOAD := 1
  const EXEC := 2
  const ACK := 3

  /** A block number is sixteen bits wide. */
  datatype Packet = Packet(cmd: nat, blk: nat, data: seq<Byte>)

  function Number(i: nat): (n: nat)
    ensures n < NUMBERS
  {
    i % 65536
  }

  function Address(blk: nat): nat { blk * 1024 + NETBOOT_BASE }

  function Min(a: nat, b: nat): nat { if a < b then a else b }

  /** memcpy of a whole block. */
  function Written(mem: seq<Byte>, blk: nat, data: seq<Byte>): (r: seq<Byte>)
    requires |mem| >= MEMORY && blk < NUMBERS && |data| == BLOCK
    ensures |r| == |mem|
  {
    mem[..Address(blk)] + data + mem[Address(blk) + BLOCK..]
  }

  predicate Placed(mem: seq<Byte>, blk: nat, data: seq<Byte>)
    requires |mem| >= MEMORY && blk < NUMBERS
  {
    mem[Address(blk)..Address(blk) + BLOCK] == data
  }

  /** One read(): as much as fits in a block; what was in the rest of the buffer stays. */
  function ReadInto(buf: seq<Byte>, file: seq<Byte>, pos: nat): (r: seq<Byte>)
    requires |buf| == BLOCK && pos <= |file|
    ensures |r| == BLOCK
  {
    var n := Min(BLOCK, |file| - pos);
    file[pos..pos + n] + buf[n..]
  }

  datatype Phase = Reading | Sending | Waiting | Done

  /** The sender, the packets ever sent in either direction, and the target. */
  datatype State = State(phase: Phase, i: nat, pos: nat, buf: seq<Byte>,
                         toTarget: set<Packet>, toSender: set<Packet>, mem: seq<Byte>, started: bool)

  datatype Step =
    | Read
    | Transmit
    | Timeout
    | Hear(reply: Packet)
    | Deliver(packet: Packet)

  /** A packet may arrive at any time after it was sent, any number of times, or never. */
  predicate Enabled(st: State, step: Step) {
    match step
    case Read => st.phase == Reading
    case Transmit => st.phase == Sending
    case Timeout => st.phase == Waiting
    case Hear(p) => st.phase == Waiting && p in st.toSender
    case Deliver(p) => p in st.toTarget && !st.started
  }

  /** handle_udp: a block is stored and acknowledged; EXEC starts the program; anything else is ignored. */
  function Handled(st: State, p: Packet): State
    requires |st.mem| >= MEMORY
  {
    if p.cmd == LOAD && p.blk < NUMBERS && |p.data| == BLOCK then
      st.(mem := Written(st.mem, p.blk, p.data), toSender := st.toSender + {Packet(ACK, p.blk, [])})
    else if p.cmd == EXEC then st.(started := true)
    else st
  }

  function Do(file: seq<Byte>, st: State, step: Step): State
    requires Enabled(st, step) && Shaped(file, st)
  {
    match step
    case Read =>
      if st.pos == |file| then st.(phase := Done, toTarget := st.toTarget + {Packet(EXEC, 0, [])})
      else st.(phase := Sending, pos := st.pos + Min(BLOCK, |file| - st.pos), buf := ReadInto(st.buf, file, st.pos))
    case Transmit => st.(phase := Waiting, toTarget := st.toTarget + {Packet(LOAD, Number(st.i), st.buf)})
    case Timeout => st.(phase := Sending)
    case Hear(p) =>
      if p.cmd == ACK && p.blk == Number(st.i) then st.(phase := Reading, i := st.i + 1) else st.(phase := Sending)
    case Deliver(p) => Handled(st, p)
  }

  predicate Shaped(file: seq<Byte>, st: State) {
    st.pos <= |file| && |st.buf| == BLOCK && |st.mem| >= MEMORY
  }

  /** Nothing read or sent yet.  Buffer and memory may hold anything. */
  predicate Initial(file: seq<Byte>, st: State) {
    && Shaped(file, st)
    && st.phase == Reading && st.i == 0 && st.pos == 0 && st.toTarget == {} && st.toSender == {} && !st.started
  }

  predicate Allowed(file: seq<Byte>, st: State, steps: seq<Step>)
    decreases |steps|
  {
    steps == [] ||
    (Shaped(file, st) && Enabled(st, steps[0]) && Allowed(file, Do(file, st, steps[0]), steps[1..]))
  }

  function Run(file: seq<Byte>, st: State, steps: seq<Step>): State
    requires Allowed(file, st, steps)
    decreases |steps|
  {
    if steps == [] then st else Run(file, Do(file, st, steps[0]), steps[1..])
  }

  // The file in blocks

  function Count(file: seq<Byte>): nat { (|file| + 1023) / 1024 }

  /** The buffer after the read of block i: its part of the file, and behind a short part what the reads before left. */
  function Block(junk: seq<Byte>, file: seq<Byte>, i: nat): (r: seq<Byte>)
    requires |junk| == BLOCK
    ensures |r| == BLOCK
  {
    ReadInto(if i == 0 then junk else Block(junk, file, i - 1), file, Min(i * 1024, |file|))
  }

  /** Blocks with the same number hold the same bytes. */
  predicate NoClash(junk: seq<Byte>, file: seq<Byte>)
    requires |junk| == BLOCK
  {
    forall i: nat, j: nat | i < Count(file) && j < Count(file) && Number(i) == Number(j) ::
      Block(junk, file, i) == Block(junk, file, j)
  }

  /** Every block is at its address. */
  predicate AllPlaced(junk: seq<Byte>, file: seq<Byte>, mem: seq<Byte>)
    requires |junk| == BLOCK && |mem| >= MEMORY
  {
    forall i: nat | i < Count(file) :: Placed(mem, Number(i), Block(junk, file, i))
  }

  // What every step keeps

  lemma AddressApart(b: nat, c: nat)
    requires b < c < NUMBERS
    ensures Address(b) + BLOCK <= Address(c) && Address(c) + BLOCK <= MEMORY
  {
  }

  /** Storing a block leaves the blocks of all other numbers alone. */
  lemma WrittenPlaced(mem: seq<Byte>, b: nat, data: seq<Byte>, c: nat, other: seq<Byte>)
    requires |mem| >= MEMORY && b < NUMBERS && c < NUMBERS && |data| == BLOCK
    ensures Placed(Written(mem, b, data), b, data)
    ensures b != c && Placed(mem, c, other) ==> Placed(Written(mem, b, data), c, other)
  {
    var e := Written(mem, b, data);
    assert e[Address(b)..Address(b) + BLOCK] == data;
    if b < c {
      AddressApart(b, c);
      assert e[Address(c)..Address(c) + BLOCK] == mem[Address(c)..Address(c) + BLOCK];
    } else if c < b {
      AddressApart(c, b);
      assert e[Address(c)..Address(c) + BLOCK] == mem[Address(c)..Address(c) + BLOCK];
    }
  }

  /** The sender is at block i, and what it holds is block i once it has been read. */
  predicate AtBlock(junk: seq<Byte>, file: seq<Byte>, st: State)
    requires |junk| == BLOCK
  {
    match st.phase
    case Reading =>
      st.i <= Count(file) && st.pos == Min(st.i * 1024, |file|)
      && st.buf == if st.i == 0 then junk else Block(junk, file, st.i - 1)
    case Done => st.i == Count(file) && st.pos == |file| && Packet(EXEC, 0, []) in st.toTarget
    case _ =>
      st.i < Count(file) && st.pos == Min((st.i + 1) * 1024, |file|) && st.buf == Block(junk, file, st.i)
  }

  /** Every LOAD ever sent carries a block of the file under its number, no later than the current one. */
  predicate Genuine(junk: seq<Byte>, file: seq<Byte>, st: State, p: Packet)
    requires |junk| == BLOCK
  {
    || (p.cmd == EXEC && st.phase == Done)
    || exists j: nat :: j < Count(file) && j <= st.i && p == Packet(LOAD, Number(j), Block(junk, file, j))
  }

  /** Every reply acknowledges a block that is in memory. */
  predicate Acknowledged(junk: seq<Byte>, file: seq<Byte>, st: State, p: Packet)
    requires |junk| == BLOCK && |st.mem| >= MEMORY
  {
    && p.cmd == ACK
    && exists j: nat :: j < Count(file) && Number(j) == p.blk && Placed(st.mem, p.blk, Block(junk, file, j))
  }

  predicate Valid(junk: seq<Byte>, file: seq<Byte>, st: State)
    requires |junk| == BLOCK
  {
    && Shaped(file, st)
    && AtBlock(junk, file, st)
    && (forall p | p in st.toTarget :: Genuine(junk, file, st, p))
    && (forall p | p in st.toSender :: Acknowledged(junk, file, st, p))
    && (forall j: nat | j < st.i :: Placed(st.mem, Number(j), Block(junk, file, j)))
    && (st.started ==> st.phase == Done)
  }

  lemma BlockCount(file: seq<Byte>, i: nat)
    ensures i < Count(file) <==> i * 1024 < |file|
  {
  }

  lemma GenuineLater(junk: seq<Byte>, file: seq<Byte>, st: State, t: State, p: Packet)
    requires |junk| == BLOCK && Genuine(junk, file, st, p)
    requires st.i <= t.i && (st.phase == Done ==> t.phase == Done)
    ensures Genuine(junk, file, t, p)
  {
  }

  lemma ReadKeeps(junk: seq<Byte>, file: seq<Byte>, st: State)
    requires |junk| == BLOCK && Valid(junk, file, st) && st.phase == Reading
    ensures Valid(junk, file, Do(file, st, Read))
  {
    hide Placed, Genuine, Acknowledged;
    BlockCount(file, st.i);
    var t := Do(file, st, Read);
    forall p | p in t.toTarget ensures Genuine(junk, file, t, p) {
      if p in st.toTarget { GenuineLater(junk, file, st, t, p); } else { ExecGenuine(junk, file, t, p); }
    }
    forall p | p in t.toSender ensures Acknowledged(junk, file, t, p) {
      SameMemory(junk, file, st, t, p);
    }
  }

  lemma ExecGenuine(junk: seq<Byte>, file: seq<Byte>, st: State, p: Packet)
    requires |junk| == BLOCK && p.cmd == EXEC && st.phase == Done
    ensures Genuine(junk, file, st, p)
  {
  }

  lemma SameMemory(junk: seq<Byte>, file: seq<Byte>, st: State, t: State, p: Packet)
    requires |junk| == BLOCK && |st.mem| >= MEMORY && t.mem == st.mem && Acknowledged(junk, file, st, p)
    ensures Acknowledged(junk, file, t, p)
  {
  }

  lemma LoadGenuine(junk: seq<Byte>, file: seq<Byte>, st: State, p: Packet)
    requires |junk| == BLOCK && st.i < Count(file) && p == Packet(LOAD, Number(st.i), Block(junk, file, st.i))
    ensures Genuine(junk, file, st, p)
  {
  }

  lemma TransmitKeeps(junk: seq<Byte>, file: seq<Byte>, st: State)
    requires |junk| == BLOCK && Valid(junk, file, st) && st.phase == Sending
    ensures Valid(junk, file, Do(file, st, Transmit))
  {
    hide Placed, Genuine, Acknowledged, Block, Number;
    var t := Do(file, st, Transmit);
    forall p | p in t.toTarget ensures Genuine(junk, file, t, p) {
      if p in st.toTarget { GenuineLater(junk, file, st, t, p); } else { LoadGenuine(junk, file, t, p); }
    }
    forall p | p in t.toSender ensures Acknowledged(junk, file, t, p) {
      SameMemory(junk, file, st, t, p);
    }
  }

  lemma AckPlaces(junk: seq<Byte>, file: seq<Byte>, st: State, p: Packet)
    requires |junk| == BLOCK && |st.mem| >= MEMORY && NoClash(junk, file)
    requires Acknowledged(junk, file, st, p) && st.i < Count(file) && p.blk == Number(st.i)
    ensures Placed(st.mem, Number(st.i), Block(junk, file, st.i))
  {
  }

  /** The sender goes on only with its block in place. */
  lemma HearKeeps(junk: seq<Byte>, file: seq<Byte>, st: State, reply: Packet)
    requires |junk| == BLOCK && Valid(junk, file, st) && NoClash(junk, file)
    requires st.phase == Waiting && reply in st.toSender
    ensures Valid(junk, file, Do(file, st, Hear(reply)))
  {
    hide Placed, Genuine, Acknowledged, Block, Number, NoClash;
    var t := Do(file, st, Hear(reply));
    if reply.cmd == ACK && reply.blk == Number(st.i) {
      AckPlaces(junk, file, st, reply);
    }
    forall p | p in t.toTarget ensures Genuine(junk, file, t, p) {
      GenuineLater(junk, file, st, t, p);
    }
    forall p | p in t.toSender ensures Acknowledged(junk, file, t, p) {
      SameMemory(junk, file, st, t, p);
    }
  }

  lemma TimeoutKeeps(junk: seq<Byte>, file: seq<Byte>, st: State)
    requires |junk| == BLOCK && Valid(junk, file, st) && st.phase == Waiting
    ensures Valid(junk, file, Do(file, st, Timeout))
  {
    hide Placed, Genuine, Acknowledged, Block, Number;
    var t := Do(file, st, Timeout);
    forall p | p in t.toTarget ensures Genuine(junk, file, t, p) {
      GenuineLater(junk, file, st, t, p);
    }
    forall p | p in t.toSender ensures Acknowledged(junk, file, t, p) {
      SameMemory(junk, file, st, t, p);
    }
  }

  /** A block that arrives, however late or often, spoils no block in place. */
  lemma StoreKeeps(junk: seq<Byte>, file: seq<Byte>, mem: seq<Byte>, j: nat, k: nat)
    requires |junk| == BLOCK && |mem| >= MEMORY && NoClash(junk, file) && j < Count(file) && k < Count(file)
    ensures var t := Written(mem, Number(j), Block(junk, file, j));
      && Placed(t, Number(j), Block(junk, file, j))
      && (Placed(mem, Number(k), Block(junk, file, k)) ==> Placed(t, Number(k), Block(junk, file, k)))
  {
    hide Written, Placed, Block, Number;
    WrittenPlaced(mem, Number(j), Block(junk, file, j), Number(k), Block(junk, file, k));
  }

  lemma AckKept(junk: seq<Byte>, file: seq<Byte>, st: State, t: State, j: nat, p: Packet)
    requires |junk| == BLOCK && |st.mem| >= MEMORY && NoClash(junk, file) && j < Count(file)
    requires t.mem == Written(st.mem, Number(j), Block(junk, file, j)) && Acknowledged(junk, file, st, p)
    ensures Acknowledged(junk, file, t, p)
  {
    hide Placed, Written, Block, Number, NoClash;
    var k: nat :| k < Count(file) && Number(k) == p.blk && Placed(st.mem, p.blk, Block(junk, file, k));
    StoreKeeps(junk, file, st.mem, j, k);
  }

  lemma AckNew(junk: seq<Byte>, file: seq<Byte>, mem: seq<Byte>, t: State, j: nat)
    requires |junk| == BLOCK && |mem| >= MEMORY && NoClash(junk, file) && j < Count(file)
    requires t.mem == Written(mem, Number(j), Block(junk, file, j))
    ensures Acknowledged(junk, file, t, Packet(ACK, Number(j), []))
  {
    hide Placed, Written, Block, Number, NoClash;
    StoreKeeps(junk, file, mem, j, j);
  }

  lemma DeliverLoad(junk: seq<Byte>, file: seq<Byte>, st: State, j: nat)
    requires |junk| == BLOCK && Valid(junk, file, st) && NoClash(junk, file)
    requires j < Count(file) && !st.started
    ensures Valid(junk, file, Handled(st, Packet(LOAD, Number(j), Block(junk, file, j))))
  {
    hide Placed, Genuine, Acknowledged, Written, Block, Number, NoClash;
    var t := Handled(st, Packet(LOAD, Number(j), Block(junk, file, j)));
    forall p | p in t.toTarget ensures Genuine(junk, file, t, p) {
      GenuineLater(junk, file, st, t, p);
    }
    forall p | p in t.toSender ensures Acknowledged(junk, file, t, p) {
      if p in st.toSender { AckKept(junk, file, st, t, j, p); } else { AckNew(junk, file, st.mem, t, j); }
    }
    forall k: nat | k < t.i ensures Placed(t.mem, Number(k), Block(junk, file, k)) {
      StoreKeeps(junk, file, st.mem, j, k);
    }
  }

  lemma DeliverExec(junk: seq<Byte>, file: seq<Byte>, st: State, packet: Packet)
    requires |junk| == BLOCK && Valid(junk, file, st) && packet.cmd == EXEC && st.phase == Done
    ensures Valid(junk, file, Handled(st, packet))
  {
    hide Placed, Genuine, Acknowledged, Block, Number;
    var t := Handled(st, packet);
    forall p | p in t.toTarget ensures Genuine(junk, file, t, p) {
      GenuineLater(junk, file, st, t, p);
    }
    forall p | p in t.toSender ensures Acknowledged(junk, file, t, p) {
      SameMemory(junk, file, st, t, p);
    }
  }

  lemma DeliverKeeps(junk: seq<Byte>, file: seq<Byte>, st: State, packet: Packet)
    requires |junk| == BLOCK && Valid(junk, file, st) && NoClash(junk, file)
    requires packet in st.toTarget && !st.started
    ensures Valid(junk, file, Do(file, st, Deliver(packet)))
  {
    hide Placed, Acknowledged, Handled, AtBlock, Block, Number, NoClash;
    assert Genuine(junk, file, st, packet);
    if packet.cmd == EXEC && st.phase == Done {
      DeliverExec(junk, file, st, packet);
    } else {
      var j: nat :| j < Count(file) && j <= st.i && packet == Packet(LOAD, Number(j), Block(junk, file, j));
      DeliverLoad(junk, file, st, j);
    }
  }

  lemma StepKeeps(junk: seq<Byte>, file: seq<Byte>, st: State, step: Step)
    requires |junk| == BLOCK && Valid(junk, file, st) && NoClash(junk, file) && Enabled(st, step)
    ensures Valid(junk, file, Do(file, st, step))
  {
    hide Valid, NoClash, Do;
    match step
    case Read => ReadKeeps(junk, file, st);
    case Transmit => TransmitKeeps(junk, file, st);
    case Timeout => TimeoutKeeps(junk, file, st);
    case Hear(reply) => HearKeeps(junk, file, st, reply);
    case Deliver(packet) => DeliverKeeps(junk, file, st, packet);
  }

  // Whole runs

  lemma {:induction false} RunKeeps(junk: seq<Byte>, file: seq<Byte>, st: State, steps: seq<Step>)
    requires |junk| == BLOCK && Valid(junk, file, st) && NoClash(junk, file) && Allowed(file, st, steps)
    ensures Valid(junk, file, Run(file, st, steps))
    decreases |steps|
  {
    hide Valid, NoClash, Do, Enabled;
    if steps != [] {
      StepKeeps(junk, file, st, steps[0]);
      RunKeeps(junk, file, Do(file, st, steps[0]), steps[1..]);
    }
  }

  lemma InitialValid(file: seq<Byte>, st: State)
    requires Initial(file, st)
    ensures Valid(st.buf, file, st)
  {
  }

  lemma {:induction false} RunShaped(file: seq<Byte>, st: State, steps: seq<Step>)
    requires Shaped(file, st) && Allowed(file, st, steps)
    ensures Shaped(file, Run(file, st, steps))
    decreases |steps|
  {
    if steps != [] {
      RunShaped(file, Do(file, st, steps[0]), steps[1..]);
    }
  }

  /**
   Once the sender has emitted EXEC, whatever the network did, every block is at its address exactly when no two
   blocks with the same sixteen-bit number differ.
   */
  lemma ExecMeansLoaded(file: seq<Byte>, st: State, steps: seq<Step>)
    requires Initial(file, st) && Allowed(file, st, steps) && Run(file, st, steps).phase == Done
    ensures |Run(file, st, steps).mem| >= MEMORY
    ensures AllPlaced(st.buf, file, Run(file, st, steps).mem) <==> NoClash(st.buf, file)
  {
    var t := Run(file, st, steps);
    RunShaped(file, st, steps);
    hide Run, Allowed, Block, Number, Genuine, Acknowledged;
    if NoClash(st.buf, file) {
      InitialValid(file, st);
      RunKeeps(st.buf, file, st, steps);
    }
  }

  /** Up to 65536 blocks all numbers are different. */
  lemma SmallFilesNeverClash(junk: seq<Byte>, file: seq<Byte>)
    requires |junk| == BLOCK && |file| <= 65536 * 1024
    ensures NoClash(junk, file)
  {
    hide Block;
    assert Count(file) <= NUMBERS;
  }

  /** Once EXEC has been emitted, a file of up to 64 megabytes is in memory, byte for byte, from NETBOOT_BASE on. */
  lemma FileLoaded(file: seq<Byte>, st: State, steps: seq<Step>)
    requires Initial(file, st) && Allowed(file, st, steps) && Run(file, st, steps).phase == Done
    requires |file| <= 65536 * 1024
    ensures |Run(file, st, steps).mem| >= MEMORY
    ensures Run(file, st, steps).mem[NETBOOT_BASE..NETBOOT_BASE + |file|] == file
  {
    hide Run, Allowed, Block, Number, AllPlaced, NoClash;
    SmallFilesNeverClash(st.buf, file);
    ExecMeansLoaded(file, st, steps);
    var mem := Run(file, st, steps).mem;
    forall k | 0 <= k < |file| ensures mem[NETBOOT_BASE + k] == file[k] {
      ByteLoaded(st.buf, file, mem, k);
    }
  }

  lemma ByteLoaded(junk: seq<Byte>, file: seq<Byte>, mem: seq<Byte>, k: nat)
    requires |junk| == BLOCK && |mem| >= MEMORY && AllPlaced(junk, file, mem) && k < |file| <= 65536 * 1024
    ensures mem[NETBOOT_BASE + k] == file[k]
  {
    hide Block, Number, Address;
    var i, x := k / 1024, k % 1024;
    assert k == i * 1024 + x && i < Count(file);
    NumberSmall(i);
    BlockByte(junk, file, i, x);
    assert Placed(mem, i, Block(junk, file, i));
    assert mem[Address(i)..Address(i) + BLOCK][x] == mem[Address(i) + x];
  }

  lemma NumberSmall(i: nat)
    requires i < NUMBERS
    ensures Number(i) == i && Address(i) == NETBOOT_BASE + i * 1024
  {
  }

  lemma BlockByte(junk: seq<Byte>, file: seq<Byte>, i: nat, x: nat)
    requires |junk| == BLOCK && x < BLOCK && i * 1024 + x < |file|
    ensures Block(junk, file, i)[x] == file[i * 1024 + x]
  {
  }

  function BigFile(): seq<Byte> { seq(65537 * 1024, k => if k < 1024 then 0 else 1) }

  /** One block more, and blocks 0 and 65536 share a number and an address without being alike. */
  lemma BigFilesMayClash(junk: seq<Byte>)
    requires |junk| == BLOCK
    ensures !NoClash(junk, BigFile())
  {
    hide Block;
    var file := BigFile();
    BlockByte(junk, file, 0, 0);
    BlockByte(junk, file, 65536, 0);
    BlockCount(file, 65536);
    assert Number(0) == Number(65536) && Block(junk, file, 0) != Block(junk, file, 65536);
  }

  // Nothing gets stuck

  /** What progress depends on, whatever the blocks hold: the sender is at its block, and only it sends EXEC. */
  predicate Going(junk: seq<Byte>, file: seq<Byte>, st: State)
    requires |junk| == BLOCK
  {
    && Shaped(file, st) && AtBlock(junk, file, st)
    && (forall p | p in st.toTarget && p.cmd == EXEC :: st.phase == Done)
    && (st.started ==> st.phase == Done)
  }

  lemma StepGoes(junk: seq<Byte>, file: seq<Byte>, st: State, step: Step)
    requires |junk| == BLOCK && Going(junk, file, st) && Enabled(st, step)
    ensures Going(junk, file, Do(file, st, step))
  {
    hide Written, Number;
    BlockCount(file, st.i);
  }

  lemma {:induction false} RunGoes(junk: seq<Byte>, file: seq<Byte>, st: State, steps: seq<Step>)
    requires |junk| == BLOCK && Going(junk, file, st) && Allowed(file, st, steps)
    ensures Going(junk, file, Run(file, st, steps))
    decreases |steps|
  {
    hide Going, Do, Enabled;
    if steps != [] {
      StepGoes(junk, file, st, steps[0]);
      RunGoes(junk, file, Do(file, st, steps[0]), steps[1..]);
    }
  }

  lemma StepFirst(file: seq<Byte>, st: State, step: Step, steps: seq<Step>)
    requires Shaped(file, st) && Enabled(st, step) && Allowed(file, Do(file, st, step), steps)
    ensures Allowed(file, st, [step] + steps)
    ensures Run(file, st, [step] + steps) == Run(file, Do(file, st, step), steps)
  {
    hide Do, Enabled;
    assert ([step] + steps)[1..] == steps;
  }

  /** Transmit, and let the packet and its acknowledgement arrive: the sender has moved on to the next block. */
  lemma BlockGetsThrough(junk: seq<Byte>, file: seq<Byte>, st: State) returns (t: State, u: State, v: State)
    requires |junk| == BLOCK && Going(junk, file, st) && st.phase == Sending && !st.started
    ensures t == Do(file, st, Transmit) && Going(junk, file, t) && !t.started && t.phase == Waiting
    ensures var load := Packet(LOAD, Number(st.i), st.buf);
      load in t.toTarget && u == Do(file, t, Deliver(load)) && Going(junk, file, u) && !u.started && u.phase == Waiting
    ensures var reply := Packet(ACK, Number(st.i), []);
      reply in u.toSender && v == Do(file, u, Hear(reply)) && Going(junk, file, v) && !v.started
    ensures v.phase == Reading && v.i == st.i + 1
  {
    hide Written, Block, Number, Going;
    GoingShaped(junk, file, st);
    t := Do(file, st, Transmit);
    StepGoes(junk, file, st, Transmit);
    GoingShaped(junk, file, t);
    var load := Packet(LOAD, Number(st.i), st.buf);
    u := Do(file, t, Deliver(load));
    StepGoes(junk, file, t, Deliver(load));
    GoingShaped(junk, file, u);
    var reply := Packet(ACK, Number(st.i), []);
    v := Do(file, u, Hear(reply));
    StepGoes(junk, file, u, Hear(reply));
  }

  lemma GoingShaped(junk: seq<Byte>, file: seq<Byte>, st: State)
    requires |junk| == BLOCK && Going(junk, file, st)
    ensures Shaped(file, st) && st.i <= Count(file)
    ensures st.phase == Sending ==> st.i < Count(file)
    ensures st.phase == Done ==> Packet(EXEC, 0, []) in st.toTarget
  {
  }

  function Rank(st: State): nat {
    match st.phase
    case Waiting => 3
    case Sending => 2
    case Reading => 3
    case Done => 0
  }

  /** From wherever the network has brought the two, there is a way for EXEC to be emitted and the program started. */
  lemma {:induction false} CanFinish(junk: seq<Byte>, file: seq<Byte>, st: State) returns (steps: seq<Step>)
    requires |junk| == BLOCK && Going(junk, file, st) && !st.started
    ensures Allowed(file, st, steps) && Run(file, st, steps).started && Run(file, st, steps).phase == Done
    decreases Count(file) - st.i, Rank(st)
  {
    hide Written, Block, Number, Allowed, Run, Going;
    GoingShaped(junk, file, st);
    match st.phase
    case Waiting =>
      StepGoes(junk, file, st, Timeout);
      steps := CanFinish(junk, file, Do(file, st, Timeout));
      StepFirst(file, st, Timeout, steps);
      steps := [Timeout] + steps;
    case Sending =>
      var t, u, v := BlockGetsThrough(junk, file, st);
      steps := CanFinish(junk, file, v);
      GoingShaped(junk, file, t);
      GoingShaped(junk, file, u);
      var load, reply := Packet(LOAD, Number(st.i), st.buf), Packet(ACK, Number(st.i), []);
      StepFirst(file, u, Hear(reply), steps);
      steps := [Hear(reply)] + steps;
      StepFirst(file, t, Deliver(load), steps);
      steps := [Deliver(load)] + steps;
      StepFirst(file, st, Transmit, steps);
      steps := [Transmit] + steps;
    case Reading =>
      StepGoes(junk, file, st, Read);
      steps := CanFinish(junk, file, Do(file, st, Read));
      StepFirst(file, st, Read, steps);
      steps := [Read] + steps;
    case Done =>
      var exec := Packet(EXEC, 0, []);
      RunNone(file, Do(file, st, Deliver(exec)));
      StepFirst(file, st, Deliver(exec), []);
      steps := [Deliver(exec)] + [];
  }

  /** Every state that can be reached is one from which the two can finish. */
  lemma ReachableGoes(file: seq<Byte>, st: State, steps: seq<Step>)
    requires Initial(file, st) && Allowed(file, st, steps)
    ensures Going(st.buf, file, Run(file, st, steps))
  {
    hide Run, Allowed;
    RunGoes(st.buf, file, st, steps);
  }

  /** Once the program has been started, EXEC has been emitted, and again all blocks are in place exactly when no two
      blocks with the same number differ. */
  lemma StartedMeansLoaded(file: seq<Byte>, st: State, steps: seq<Step>)
    requires Initial(file, st) && Allowed(file, st, steps) && Run(file, st, steps).started
    ensures Run(file, st, steps).phase == Done && |Run(file, st, steps).mem| >= MEMORY
    ensures AllPlaced(st.buf, file, Run(file, st, steps).mem) <==> NoClash(st.buf, file)
  {
    hide Run, Allowed, Block, AllPlaced, NoClash;
    ReachableGoes(file, st, steps);
    ExecMeansLoaded(file, st, steps);
  }

  /** On the file with one block too many there is a run that starts the program with a block missing. */
  lemma BigFileSpoilt(st: State) returns (steps: seq<Step>)
    requires Initial(BigFile(), st)
    ensures Allowed(BigFile(), st, steps) && Run(BigFile(), st, steps).started
    ensures |Run(BigFile(), st, steps).mem| >= MEMORY
    ensures !AllPlaced(st.buf, BigFile(), Run(BigFile(), st, steps).mem)
  {
    hide Run, Allowed, Block, AllPlaced, NoClash, BigFile;
    var file := BigFile();
    RunNone(file, st);
    ReachableGoes(file, st, []);
    steps := CanFinish(st.buf, file, st);
    BigFilesMayClash(st.buf);
    ExecMeansLoaded(file, st, steps);
  }

  lemma RunNone(file: seq<Byte>, st: State)
    ensures Allowed(file, st, []) && Run(file, st, []) == st
  {
  }
}

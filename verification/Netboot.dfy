/**
 The loader of openblt/netboot/netboot.c: handle_udp, which stores blocks, builds the static reply packet and starts
 the program.
 */
module NetbootLoader {
  import opened NetbootState
  import opened Checksum

  const NETBOOT_PORT := 4242

  datatype UdpPacket = UdpPacket(etherSrc: seq<Byte>, ipSrc: (Word, Word), udpSrc: Word, udpDst: Word,
                                 cmd: Word, blk: Word, data: seq<Byte>)

  /** The parts of the reply that are not fixed. The header is in words; its sixth word is the checksum. */
  datatype Reply = Reply(etherDst: seq<Byte>, ip: seq<Word>, udpSrc: Word, udpDst: Word, cmd: Word, blk: Word)

  datatype Option<T> = None | Some(value: T)

  function Swapped(w: Word): Word { w % 256 * 256 + w / 256 }

  /** Version 4, 36 bytes, number id, UDP, no checksum yet. */
  function Header(id: Word, src: (Word, Word), dst: (Word, Word)): (r: seq<Word>)
    ensures |r| == 10 && r[5] == 0
  {
    [0x0045, Swapped(36), Swapped(id), 0, 0x1180, 0, src.0, src.1, dst.0, dst.1]
  }

  class Loader {
    const mem: array<Byte>
    const ip: (Word, Word)
    var gotServer: bool
    var serverMac: seq<Byte>
    var serverIp: (Word, Word)
    var id: Word
    var started: bool

    ghost predicate Valid()
    {
      mem.Length >= MEMORY
    }

    constructor (mem: array<Byte>, ip: (Word, Word))
      requires mem.Length >= MEMORY
      ensures Valid() && this.mem == mem && this.ip == ip && !gotServer && id == 1 && !started
    {
      this.mem, this.ip := mem, ip;
      gotServer, serverMac, serverIp := false, [0, 0, 0, 0, 0, 0], (0, 0);
      id, started := 1, false;
    }

    method Memcpy(addr: nat, data: seq<Byte>)
      requires addr + |data| <= mem.Length
      modifies mem
      ensures mem[..] == old(mem[..addr]) + data + old(mem[addr + |data|..])
    {
      var k := 0;
      while k < |data|
        invariant 0 <= k <= |data|
        invariant mem[..addr] == old(mem[..addr]) && mem[addr..addr + k] == data[..k]
        invariant mem[addr + |data|..] == old(mem[addr + |data|..])
      {
        mem[addr + k] := data[k];
        k := k + 1;
      }
    }

    /** The first host that ever sent a command is the server; replies go to it and to no other. */
    method HandleUdp(pkt: UdpPacket) returns (reply: Option<Reply>)
      requires Valid() && !started && (pkt.cmd == LOAD ==> |pkt.data| == BLOCK)
      modifies this, mem
      ensures var known := pkt.udpDst == NETBOOT_PORT && (pkt.cmd == LOAD || pkt.cmd == EXEC);
        && gotServer == (old(gotServer) || known)
        && (if !old(gotServer) && known then serverMac == pkt.etherSrc && serverIp == pkt.ipSrc
            else serverMac == old(serverMac) && serverIp == old(serverIp))
        && started == (known && pkt.cmd == EXEC)
        && mem[..] == (if known && pkt.cmd == LOAD then Written(old(mem[..]), pkt.blk, pkt.data) else old(mem[..]))
        && reply.Some? == (known && pkt.cmd == LOAD)
      ensures reply.Some? ==>
                var r := reply.value;
                && r.cmd == ACK && r.blk == pkt.blk
                && r.etherDst == serverMac && r.udpDst == pkt.udpSrc && r.udpSrc == NETBOOT_PORT
                && |r.ip| == 10 && r.ip[6..] == [ip.0, ip.1, serverIp.0, serverIp.1]
                && r.ip[2] == Swapped(old(id)) && id == (old(id) + 1) % 65536
                && Check(r.ip) == 0
    {
      hide Check;
      if pkt.udpDst != NETBOOT_PORT {
        return None;
      }
      if pkt.cmd != LOAD && pkt.cmd != EXEC {
        return None;
      }
      if !gotServer {
        serverMac, serverIp := pkt.etherSrc, pkt.ipSrc;
        gotServer := true;
      }
      if pkt.cmd == LOAD {
        Memcpy(Address(pkt.blk), pkt.data);
      }
      var header := Header(id, ip, serverIp);
      id := (id + 1) % 65536;
      var sum := Ipchksum(header);
      SealedAccepted(header, 5);
      header := header[5 := sum];
      if pkt.cmd == EXEC {
        started := true;
        return None;
      }
      reply := Some(Reply(serverMac, header, pkt.udpDst, pkt.udpSrc, ACK, pkt.blk));
    }

    /** On the packets of the loading protocol the loader does what the receiving step of the protocol says. */
    method Receive(pkt: UdpPacket, ghost st: State) returns (reply: Option<Reply>)
      requires Valid() && !started && (pkt.cmd == LOAD ==> |pkt.data| == BLOCK) && pkt.udpDst == NETBOOT_PORT
      requires mem[..] == st.mem && st.started == started
      modifies this, mem
      ensures var t := Handled(st, Packet(pkt.cmd, pkt.blk, pkt.data));
        && mem[..] == t.mem && started == t.started
        && t.toSender == st.toSender + (if reply.Some? then {Packet(reply.value.cmd, reply.value.blk, [])} else {})
    {
      hide Written, Check;
      reply := HandleUdp(pkt);
    }
  }
}

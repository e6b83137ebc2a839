/** kernel/net.c: packet buffers, and UDP over IP (RFC 768, section 3.1 of RFC 791) over Ethernet, out and in. */
module Net {
  import opened Machine
  import opened Checksum

  const MBUF_SIZE: nat := 2048
  const ETHTYPE_IP: nat := 0x0800
  const ETHTYPE_ARP: nat := 0x0806
  const IPPROTO_UDP: nat := 17

  /** 10.0.2.15 */
  const LOCAL_IP: uint32 := 0x0a00_020f

  type Port = x: int | 0 <= x < 0x1_0000 witness 0

  // ----- Byte order -----

  function Be16(x: Port): (r: seq<byte>)
    ensures |r| == 2
  {
    [x / 0x100, x % 0x100]
  }

  function Be32(x: uint32): (r: seq<byte>)
    ensures |r| == 4
  {
    [x / 0x100_0000, x / 0x1_0000 % 0x100, x / 0x100 % 0x100, x % 0x100]
  }

  function Get16(b: seq<byte>, i: nat): (x: Port)
    requires i + 1 < |b|
  {
    0x100 * b[i] as nat + b[i + 1] as nat
  }

  function Get32(b: seq<byte>, i: nat): (x: uint32)
    requires i + 3 < |b|
  {
    0x100_0000 * b[i] as nat + 0x1_0000 * b[i + 1] as nat + 0x100 * b[i + 2] as nat + b[i + 3] as nat
  }

  lemma Be16Get(x: Port, b: seq<byte>, i: nat)
    requires i + 1 < |b| && b[i] == Be16(x)[0] && b[i + 1] == Be16(x)[1]
    ensures Get16(b, i) == x
  {
  }

  lemma Be32Get(x: uint32, b: seq<byte>, i: nat)
    requires i + 3 < |b| && forall k :: 0 <= k < 4 ==> b[i + k] == Be32(x)[k]
    ensures Get32(b, i) == x
  {
    assert b[i + 0] == Be32(x)[0] && b[i + 1] == Be32(x)[1] && b[i + 2] == Be32(x)[2] && b[i + 3] == Be32(x)[3];
    assert x == x / 0x100_0000 * 0x100_0000 + x / 0x1_0000 % 0x100 * 0x1_0000 + x / 0x100 % 0x100 * 0x100 + x % 0x100;
  }

  // ----- Headers -----

  function UdpHeader(sport: Port, dport: Port, ulen: Port): (h: seq<byte>)
    ensures |h| == 8
  {
    Be16(sport) + Be16(dport) + Be16(ulen) + [0, 0]
  }

  /** The IP header before its checksum is filled in. */
  function IpFields(len: Port, proto: byte, src: uint32, dst: uint32): (h: seq<byte>)
    ensures |h| == 20
  {
    [0x45, 0] + Be16(len) + [0, 0, 0, 0, 100, proto, 0, 0] + Be32(src) + Be32(dst)
  }

  function IpHeader(len: Port, proto: byte, src: uint32, dst: uint32): (h: seq<byte>)
    ensures |h| == 20
  {
    var h := IpFields(len, proto, src, dst);
    Stored(h, 5, Cksum(h))
  }

  /** Broadcast, from local_mac. */
  function EthHeader(ethtype: Port): (h: seq<byte>)
    ensures |h| == 14
  {
    [0xff, 0xff, 0xff, 0xff, 0xff, 0xff, 0x52, 0x54, 0x00, 0x12, 0x34, 0x56] + Be16(ethtype)
  }

  function Low16(x: nat): Port {
    x % 0x1_0000
  }

  function UdpPacket(sport: Port, dport: Port, payload: seq<byte>): seq<byte> {
    UdpHeader(sport, dport, Low16(|payload| + 8)) + payload
  }

  function IpPacket(proto: byte, dip: uint32, body: seq<byte>): seq<byte> {
    IpHeader(Low16(|body| + 20), proto, LOCAL_IP, dip) + body
  }

  /** The frame net_tx_udp hands to the network card. */
  function Frame(dip: uint32, sport: Port, dport: Port, payload: seq<byte>): seq<byte> {
    EthHeader(ETHTYPE_IP) + IpPacket(IPPROTO_UDP, dip, UdpPacket(sport, dport, payload))
  }

  // ----- Reception -----

  /** What net_rx does with a frame: the arguments of sockrecvudp, ARP processing, or nothing. */
  datatype Outcome = Delivered(payload: seq<byte>, sip: uint32, lport: Port, rport: Port) | Arp | Dropped

  function RxUdp(m: seq<byte>, len: Port, sip: uint32): Outcome {
    if |m| < 8 || Get16(m, 4) != len then Dropped
    else
      var n := (len - 8) % 0x1_0000;
      if n > |m| - 8 then Dropped else Delivered(m[8..8 + n], sip, Get16(m, 2), Get16(m, 0))
  }

  function RxIp(m: seq<byte>): Outcome {
    if |m| < 20 || m[0] != 0x45 || Cksum(m[..20]) != 0 || Get16(m, 6) != 0 || Get32(m, 16) != LOCAL_IP ||
      m[9] != IPPROTO_UDP then Dropped
    else RxUdp(m[20..], (Get16(m, 2) - 20) % 0x1_0000, Get32(m, 12))
  }

  function Rx(frame: seq<byte>): Outcome {
    if |frame| < 14 then Dropped
    else if Get16(frame, 12) == ETHTYPE_IP then RxIp(frame[14..])
    else if Get16(frame, 12) == ETHTYPE_ARP then Arp
    else Dropped
  }

  /** Nothing else is delivered: the frame says IP; the header has version 4, no options, no fragment, a checksum of
      zero over its 20 bytes, this host's address and protocol UDP; and the lengths agree with each other and with
      what arrived. */
  lemma OnlyGoodDelivered(frame: seq<byte>)
    requires Rx(frame).Delivered?
    ensures |frame| >= 42 && frame[12] == 0x08 && frame[13] == 0x00
    ensures frame[14] == 0x45 && frame[20] == frame[21] == 0 && frame[23] == 17 && Cksum(frame[14..34]) == 0
    ensures frame[30..34] == [10, 0, 2, 15]
    ensures (0x100 * frame[16] as nat + frame[17] as nat - 20) % 0x1_0000 == 0x100 * frame[38] as nat + frame[39] as nat
    ensures var n := |Rx(frame).payload|;
            && 42 + n <= |frame| && Rx(frame).payload == frame[42..42 + n]
            && (n + 8) % 0x1_0000 == 0x100 * frame[38] as nat + frame[39] as nat
    ensures Rx(frame).sip ==
            0x100_0000 * frame[26] as nat + 0x1_0000 * frame[27] as nat + 0x100 * frame[28] as nat + frame[29] as nat
    ensures Rx(frame).lport == 0x100 * frame[36] as nat + frame[37] as nat
    ensures Rx(frame).rport == 0x100 * frame[34] as nat + frame[35] as nat
  {
    hide Cksum;
    var m := frame[14..];
    assert m[..20] == frame[14..34];
    var u := m[20..];
    assert forall k :: 0 <= k < |u| ==> u[k] == frame[34 + k];
  }

  // ----- The round trip -----

  lemma IpFieldsAt(len: Port, proto: byte, src: uint32, dst: uint32)
    ensures var h := IpFields(len, proto, src, dst);
            && h[0] == 0x45 && h[2] == Be16(len)[0] && h[3] == Be16(len)[1] && h[6] == h[7] == 0 && h[9] == proto &&
              h[10] == h[11] == 0
            && (forall k :: 0 <= k < 4 ==> h[12 + k] == Be32(src)[k]) &&
              (forall k :: 0 <= k < 4 ==> h[16 + k] == Be32(dst)[k])
  {
    hide Be16, Be32;
  }

  // What a receiver reads in a header, whatever follows it.
  lemma IpHeaderReads(len: Port, proto: byte, src: uint32, dst: uint32, rest: seq<byte>)
    ensures var m := IpHeader(len, proto, src, dst) + rest;
            && m[0] == 0x45 && Cksum(m[..20]) == 0 && Get16(m, 2) == len && Get16(m, 6) == 0 && m[9] == proto &&
              Get32(m, 12) == src && Get32(m, 16) == dst
  {
    hide Be16, Be32, IpFields, Cksum, Get32;
    var h := IpFields(len, proto, src, dst);
    var m := IpHeader(len, proto, src, dst) + rest;
    IpFieldsAt(len, proto, src, dst);
    assert m[..20] == IpHeader(len, proto, src, dst);
    assert Word16(h, 5) == 0;
    VerifiesToZero(h, 5);
    assert forall k :: 0 <= k < 20 && k != 10 && k != 11 ==> m[k] == h[k];
    Be16Get(len, m, 2);
    forall k | 0 <= k < 4 ensures m[12 + k] == Be32(src)[k] && m[16 + k] == Be32(dst)[k] {
    }
    Be32Get(src, m, 12);
    Be32Get(dst, m, 16);
  }

  lemma UdpHeaderReads(sport: Port, dport: Port, ulen: Port, rest: seq<byte>)
    ensures var m := UdpHeader(sport, dport, ulen) + rest;
            Get16(m, 0) == sport && Get16(m, 2) == dport && Get16(m, 4) == ulen
  {
    hide Be16, Get16;
    var m := UdpHeader(sport, dport, ulen) + rest;
    Be16Get(sport, m, 0);
    Be16Get(dport, m, 2);
    Be16Get(ulen, m, 4);
  }

  lemma EthHeaderReads(ethtype: Port, rest: seq<byte>)
    ensures var m := EthHeader(ethtype) + rest; Get16(m, 12) == ethtype && m[14..] == rest
  {
    hide Be16, Get16;
    var m := EthHeader(ethtype) + rest;
    assert m[12] == Be16(ethtype)[0] && m[13] == Be16(ethtype)[1];
    Be16Get(ethtype, m, 12);
  }

  lemma UdpRoundTrip(sport: Port, dport: Port, payload: seq<byte>, padding: seq<byte>, sip: uint32)
    requires |payload| + 8 < 0x1_0000
    ensures RxUdp(UdpPacket(sport, dport, payload) + padding, |payload| + 8, sip) ==
            Delivered(payload, sip, dport, sport)
  {
    hide Get16, UdpHeader;
    var m := UdpPacket(sport, dport, payload) + padding;
    assert m == UdpHeader(sport, dport, |payload| + 8) + (payload + padding);
    UdpHeaderReads(sport, dport, |payload| + 8, payload + padding);
    assert m[8..8 + |payload|] == payload;
  }

  /** A frame that net_tx_udp builds for this host, with any padding after it, is delivered with the same
      payload and ports. */
  lemma RoundTrip(sport: Port, dport: Port, payload: seq<byte>, padding: seq<byte>)
    requires |payload| + 28 < 0x1_0000
    ensures Rx(Frame(LOCAL_IP, sport, dport, payload) + padding) == Delivered(payload, LOCAL_IP, dport, sport)
  {
    hide Get16, Get32, IpHeader, EthHeader, UdpPacket, Cksum;
    var u := UdpPacket(sport, dport, payload);
    PacketLength(sport, dport, payload);
    var ip := IpPacket(IPPROTO_UDP, LOCAL_IP, u) + padding;
    var frame := Frame(LOCAL_IP, sport, dport, payload) + padding;
    assert frame == EthHeader(ETHTYPE_IP) + ip;
    EthHeaderReads(ETHTYPE_IP, ip);
    assert ip == IpHeader(|u| + 20, IPPROTO_UDP, LOCAL_IP, LOCAL_IP) + (u + padding);
    IpHeaderReads(|u| + 20, IPPROTO_UDP, LOCAL_IP, LOCAL_IP, u + padding);
    assert ip[20..] == u + padding;
    UdpRoundTrip(sport, dport, payload, padding, LOCAL_IP);
  }

  lemma PacketLength(sport: Port, dport: Port, payload: seq<byte>)
    ensures |UdpPacket(sport, dport, payload)| == |payload| + 8
  {
  }

  // ----- Packet buffers -----

  /** struct mbuf: bytes head .. head + len - 1 of buf are the packet. */
  class Mbuf {
    const buf: array<byte>
    var head: nat
    var len: nat

    ghost predicate Valid()
      reads this
    {
      buf.Length == MBUF_SIZE && head + len <= MBUF_SIZE
    }

    ghost function Packet(): seq<byte>
      reads this, buf
      requires Valid()
    {
      buf[head..head + len]
    }

    constructor (headroom: nat)
      requires headroom <= MBUF_SIZE
      ensures Valid() && fresh(buf) && head == headroom && Packet() == []
    {
      buf := new byte[MBUF_SIZE](_ => 0);
      head, len := headroom, 0;
    }

    /** mbufpull; the pointer it returns is the old head. */
    method Pull(n: nat) returns (ok: bool)
      requires Valid()
      modifies this
      ensures Valid() && (ok <==> n <= |old(Packet())|) && Packet() == if ok then old(Packet())[n..] else old(Packet())
      ensures ok ==> head == old(head) + n
    {
      if len < n {
        return false;
      }
      len := len - n;
      head := head + n;
      return true;
    }

    /** mbufpush; the new bytes at the front are whatever the buffer held. */
    method Push(n: nat) returns (panics: bool)
      requires Valid()
      modifies this
      ensures Valid() && (panics <==> n > old(head))
      ensures if panics then Packet() == old(Packet())
              else |Packet()| == n + |old(Packet())| && Packet()[n..] == old(Packet()) && head == old(head) - n
    {
      if head < n {
        return true;
      }
      head := head - n;
      len := len + n;
      return false;
    }

    /** mbuftrim */
    method Trim(n: nat) returns (ok: bool)
      requires Valid()
      modifies this
      ensures Valid() && (ok <==> n <= |old(Packet())|) &&
              Packet() == if ok then old(Packet())[..|old(Packet())| - n] else old(Packet())
    {
      if n > len {
        return false;
      }
      len := len - n;
      return true;
    }

    /** Fill in a header at the front. */
    method Fill(h: seq<byte>)
      requires Valid() && |h| <= len
      modifies buf
      ensures Valid() && Packet() == h + old(Packet())[|h|..]
    {
      var k := 0;
      while k < |h|
        invariant k <= |h| && Valid()
        invariant forall j :: head <= j < head + k ==> buf[j] == h[j - head]
        invariant forall j :: head + k <= j < head + len ==> buf[j] == old(buf[j])
      {
        buf[head + k] := h[k];
        k := k + 1;
      }
    }

    /** A header pushed and filled in; panics when there is no headroom for it. */
    method Prepend(h: seq<byte>) returns (panics: bool)
      requires Valid()
      modifies this, buf
      ensures Valid() && (panics <==> |h| > old(head))
      ensures (!panics ==> Packet() == h + old(Packet()) && head == old(head) - |h|)
    {
      panics := Push(|h|);
      if !panics {
        Fill(h);
      }
    }

    method TxEth(ethtype: Port) returns (panics: bool)
      requires Valid()
      modifies this, buf
      ensures Valid() && (panics <==> old(head) < 14) && (!panics ==> Packet() == EthHeader(ethtype) + old(Packet()))
    {
      panics := Prepend(EthHeader(ethtype));
    }

    method TxIp(proto: byte, dip: uint32) returns (panics: bool)
      requires Valid()
      modifies this, buf
      ensures Valid() && (panics <==> old(head) < 34)
      ensures !panics ==> Packet() == EthHeader(ETHTYPE_IP) + IpPacket(proto, dip, old(Packet()))
    {
      hide EthHeader, Cksum, IpFields;
      var h := IpFields(Low16(len + 20), proto, LOCAL_IP, dip);
      var sum := InCksum(h);
      panics := Prepend(Stored(h, 5, sum));
      if !panics {
        panics := TxEth(ETHTYPE_IP);
      }
    }

    /** net_tx_udp: with 42 bytes of headroom the payload becomes the frame. */
    method TxUdp(dip: uint32, sport: Port, dport: Port) returns (panics: bool)
      requires Valid()
      modifies this, buf
      ensures Valid() && (panics <==> old(head) < 42)
      ensures !panics ==> Packet() == Frame(dip, sport, dport, old(Packet()))
    {
      hide EthHeader, IpPacket, UdpHeader;
      panics := Prepend(UdpHeader(sport, dport, Low16(len + 8)));
      if !panics {
        panics := TxIp(IPPROTO_UDP, dip);
      }
    }

    method RxUdpPacket(n: Port, sip: uint32) returns (r: Outcome)
      requires Valid()
      modifies this
      ensures Valid() && r == RxUdp(old(Packet()), n, sip) && (r.Delivered? ==> Packet() == r.payload)
    {
      hide Get16;
      ghost var m := Packet();
      var at := head;
      var ok := Pull(8);
      if !ok {
        return Dropped;
      }
      var udp := buf[at..at + 8];
      assert udp == m[..8];
      HeaderReads(m, 8);
      if Get16(udp, 4) != n {
        return Dropped;
      }
      var left := (n - 8) % 0x1_0000;
      if left > len {
        return Dropped;
      }
      var sport, dport := Get16(udp, 0), Get16(udp, 2);
      ok := Trim(len - left);
      assert m[8..][..left] == m[8..8 + left];
      r := Delivered(buf[head..head + len], sip, dport, sport);
    }

    method RxIpPacket() returns (r: Outcome)
      requires Valid()
      modifies this
      ensures Valid() && r == RxIp(old(Packet())) && (r.Delivered? ==> Packet() == r.payload)
    {
      hide Get16, Get32, Cksum, RxUdp;
      ghost var m := Packet();
      var at := head;
      var ok := Pull(20);
      if !ok {
        return Dropped;
      }
      var ip := buf[at..at + 20];
      assert ip == m[..20];
      HeaderReads(m, 20);
      var sum := InCksum(ip);
      if ip[0] != 0x45 || sum != 0 || Get16(ip, 6) != 0 || Get32(ip, 16) != LOCAL_IP || ip[9] != IPPROTO_UDP {
        return Dropped;
      }
      r := RxUdpPacket((Get16(ip, 2) - 20) % 0x1_0000, Get32(ip, 12));
    }

    /** net_rx */
    method RxFrame() returns (r: Outcome)
      requires Valid()
      modifies this
      ensures Valid() && r == Rx(old(Packet())) && (r.Delivered? ==> Packet() == r.payload)
    {
      hide Get16, RxIp;
      ghost var m := Packet();
      var at := head;
      var ok := Pull(14);
      if !ok {
        return Dropped;
      }
      var eth := buf[at..at + 14];
      assert eth == m[..14];
      HeaderReads(m, 14);
      var ethtype := Get16(eth, 12);
      if ethtype == ETHTYPE_IP {
        r := RxIpPacket();
      } else if ethtype == ETHTYPE_ARP {
        r := Arp;
      } else {
        r := Dropped;
      }
    }
  }

  /** mbufalloc; `page` is whether kalloc has one. */
  method MbufAlloc(headroom: nat, page: bool) returns (m: Mbuf?)
    ensures m == null <==> headroom > MBUF_SIZE || !page
    ensures m != null ==> fresh(m) && fresh(m.buf) && m.Valid() && m.head == headroom && m.Packet() == []
  {
    if headroom > MBUF_SIZE || !page {
      return null;
    }
    m := new Mbuf(headroom);
  }

  // Fields of a header read the same in the packet it heads.
  lemma HeaderReads(m: seq<byte>, n: nat)
    requires n <= |m|
    ensures forall i: nat :: i + 1 < n ==> Get16(m[..n], i) == Get16(m, i)
    ensures forall i: nat :: i + 3 < n ==> Get32(m[..n], i) == Get32(m, i)
  {
  }
}

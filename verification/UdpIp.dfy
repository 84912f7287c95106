/** The UDP/IP packet builder and checker of network/dhcpcd/udpipgen.c. Both work in place on
    a packet that starts at byte b of a buffer. */
module UdpIp {
  import opened Bytes
  import opened InternetChecksum

  const IPPROTO_UDP: byte := 17
  const IPDEFTTL: byte := 64

  /** An in_addr and a 16-bit field as the bytes they occupy in memory. */
  type Addr = s: seq<byte> | |s| == 4 witness [0, 0, 0, 0]
  type Half = s: seq<byte> | |s| == 2 witness [0, 0]

  /** struct ipovly: the pseudo header laid over the 20 bytes of an IP header. */
  function Overlay(proto: byte, ulen: Half, src: Addr, dst: Addr): (s: seq<byte>)
    ensures |s| == 20
  {
    Zeros(9) + [proto] + ulen + src + dst
  }

  /** The UDP header up to its checksum, and whole. */
  function UdpFront(sport: Half, dport: Half, ulen: Half): (s: seq<byte>)
    ensures |s| == 6 && s[4..6] == ulen
  {
    sport + dport + ulen
  }

  function UdpHeader(sport: Half, dport: Half, ulen: Half, sum: Half): (s: seq<byte>)
    ensures |s| == 8
  {
    UdpFront(sport, dport, ulen) + sum
  }

  /** The IP header up to its checksum, and whole. */
  function IpFront(len: u16, id: u16): (s: seq<byte>)
    ensures |s| == 10 && s[0] == 0x45 && s[9] == IPPROTO_UDP
  {
    [0x45, 0] + Be16(len) + Be16(id) + [0, 0, IPDEFTTL, IPPROTO_UDP]
  }

  function IpHeader(len: u16, id: u16, src: Addr, dst: Addr, sum: Half): (s: seq<byte>)
    ensures |s| == 20
  {
    IpFront(len, id) + sum + (src + dst)
  }

  /** htons of a length: only 16 bits survive. */
  function NetLen(n: nat): (r: Half)
    ensures n < 0x1_0000 ==> Word(r[1], r[0]) == n
  {
    Be16(Low16(n))
  }

  /** The bytes the UDP checksum is taken over: pseudo header, header with a zero sum, payload. */
  function Summed(sport: Half, dport: Half, src: Addr, dst: Addr, payload: seq<byte>): seq<byte> {
    var ulen := NetLen(|payload| + 8);
    Overlay(IPPROTO_UDP, ulen, src, dst) + UdpHeader(sport, dport, ulen, [0, 0]) + payload
  }

  /** The UDP checksum field of a datagram; a computed 0 goes out as 0xFFFF. */
  function UdpSum(sport: Half, dport: Half, src: Addr, dst: Addr, payload: seq<byte>): u16 {
    var c := Checksum(Summed(sport, dport, src, dst, payload));
    if c == 0 then 0xFFFF else c
  }

  function IpSum(len: u16, id: u16, src: Addr, dst: Addr): u16 {
    Checksum(IpHeader(len, id, src, dst, [0, 0]))
  }

  /** The 28 header bytes udpipgen puts in front of a payload. */
  function Headers(sport: Half, dport: Half, src: Addr, dst: Addr, id: u16, payload: seq<byte>): (s: seq<byte>)
    ensures |s| == 28
  {
    var len := Low16(|payload| + 28);
    IpHeader(len, id, src, dst, Le16(IpSum(len, id, src, dst))) +
    UdpHeader(sport, dport, NetLen(|payload| + 8), Le16(UdpSum(sport, dport, src, dst, payload)))
  }

  // ---------------------------------------------------------------- what a valid packet is

  /** The pseudo header of RFC 768, in the RFC's field order. */
  function RfcPseudoHeader(proto: byte, ulen: Half, src: Addr, dst: Addr): seq<byte> {
    src + dst + [0, proto] + ulen
  }

  /** The length of the IP header at b: ip_hl words of four bytes. */
  function HeaderLen(s: seq<byte>, b: nat): nat
    requires b < |s|
  {
    4 * Low4(s[b])
  }

  function UdpLen(s: seq<byte>, u: nat): u16
    requires u + 8 <= |s|
  {
    Word(s[u + 5], s[u + 4])
  }

  /** The reads and writes of udpipchk stay inside the buffer: the header is there, and once
      its checksum holds so are the header's new place and the UDP datagram behind it. */
  predicate InBuffer(s: seq<byte>, b: nat) {
    && b + 20 <= |s| <= MAX_LEN
    && var u := b + HeaderLen(s, b);
    && u <= |s|
    && (Checksum(s[b..u]) == 0 ==> 20 <= u && u + 8 <= |s| && u + UdpLen(s, u) <= |s|)
  }

  predicate HeaderOk(s: seq<byte>, b: nat)
    requires InBuffer(s, b)
  {
    Checksum(s[b..b + HeaderLen(s, b)]) == 0
  }

  /** The UDP datagram behind the IP header at b. */
  function Datagram(s: seq<byte>, b: nat): seq<byte>
    requires InBuffer(s, b) && HeaderOk(s, b)
  {
    var u := b + HeaderLen(s, b);
    s[u..u + UdpLen(s, u)]
  }

  predicate NoUdpSum(s: seq<byte>, b: nat)
    requires InBuffer(s, b) && HeaderOk(s, b)
  {
    WordAt(s, b + HeaderLen(s, b) + 6) == 0
  }

  /** The overlay udpipchk builds for the packet at b. */
  function ChkOverlay(s: seq<byte>, b: nat): (o: seq<byte>)
    requires InBuffer(s, b) && HeaderOk(s, b)
    ensures |o| == 20
  {
    var u := b + HeaderLen(s, b);
    Overlay(s[b + 9], s[u + 4..u + 6], s[b + 12..b + 16], s[b + 16..b + 20])
  }

  predicate DatagramOk(s: seq<byte>, b: nat)
    requires InBuffer(s, b) && HeaderOk(s, b)
  {
    Checksum(ChkOverlay(s, b) + Datagram(s, b)) == 0
  }

  predicate Accepts(s: seq<byte>, b: nat)
    requires InBuffer(s, b)
  {
    HeaderOk(s, b) && (NoUdpSum(s, b) || DatagramOk(s, b))
  }

  lemma SumsToOnes(s: seq<byte>)
    ensures Checksum(s) == 0 <==> NetSum(s) == 0xFFFF
  {
    ByteOrderIndependent(s);
  }

  lemma PseudoHeaderOrder(proto: byte, ulen: Half, src: Addr, dst: Addr, rest: seq<byte>)
    ensures Checksum(Overlay(proto, ulen, src, dst) + rest) ==
            Checksum(RfcPseudoHeader(proto, ulen, src, dst) + rest)
  {
    hide WordSum, OnesSum, Canon;
    var o, p := Overlay(proto, ulen, src, dst), RfcPseudoHeader(proto, ulen, src, dst);
    OnesSumIsCanon(o + rest);
    OnesSumIsCanon(p + rest);
    WordSumConcat(o, rest);
    WordSumConcat(p, rest);
    var zeros := Zeros(8);
    assert o == zeros + ([0, proto] + (ulen + (src + dst)));
    assert p == src + (dst + ([0, proto] + ulen));
    WordSumConcat(zeros, [0, proto] + (ulen + (src + dst)));
    WordSumConcat([0, proto], ulen + (src + dst));
    WordSumConcat(ulen, src + dst);
    WordSumConcat(src, dst);
    WordSumConcat(src, dst + ([0, proto] + ulen));
    WordSumConcat(dst, [0, proto] + ulen);
    WordSumConcat([0, proto], ulen);
    ZerosSum(zeros);
  }

  lemma {:induction false} ZerosSum(s: seq<byte>)
    requires forall k :: 0 <= k < |s| ==> s[k] == 0
    ensures WordSum(s) == 0
  {
    if |s| >= 2 {
      ZerosSum(s[2..]);
    }
  }

  /** The header check of udpipchk is that of RFC 791: the header sums to all ones. */
  lemma HeaderOkIffRfc(s: seq<byte>, b: nat)
    requires InBuffer(s, b)
    ensures HeaderOk(s, b) <==> NetSum(s[b..b + HeaderLen(s, b)]) == 0xFFFF
  {
    SumsToOnes(s[b..b + HeaderLen(s, b)]);
  }

  /** What RFC 768 sums over for the packet at b: its pseudo header and the datagram. */
  function RfcSummed(s: seq<byte>, b: nat): seq<byte>
    requires InBuffer(s, b) && HeaderOk(s, b)
  {
    var u := b + HeaderLen(s, b);
    RfcPseudoHeader(s[b + 9], s[u + 4..u + 6], s[b + 12..b + 16], s[b + 16..b + 20]) + s[u..u + UdpLen(s, u)]
  }

  /** Behind a good header udpipchk accepts exactly what is correct by RFC 768: the sender sent no UDP
      checksum, or the sum over pseudo header and datagram is all ones. */
  lemma AcceptsIffRfc(s: seq<byte>, b: nat)
    requires InBuffer(s, b) && HeaderOk(s, b)
    ensures var u := b + HeaderLen(s, b);
            Accepts(s, b) <==> s[u + 6..u + 8] == [0, 0] || NetSum(RfcSummed(s, b)) == 0xFFFF
  {
    var u := b + HeaderLen(s, b);
    PseudoHeaderOrder(s[b + 9], s[u + 4..u + 6], s[b + 12..b + 16], s[b + 16..b + 20], Datagram(s, b));
    SumsToOnes(RfcSummed(s, b));
    assert s[u + 6..u + 8] == [s[u + 6], s[u + 7]];
  }

  // ---------------------------------------------------------------- udpipgen

  /** The overlay and the UDP header stored in front of n payload bytes. */
  lemma UdpRegion(s: seq<byte>, b: nat, io: seq<byte>, udp: seq<byte>, n: nat)
    requires b + 28 + n <= |s| && |io| == 20 && |udp| == 8
    ensures var t := Splice(Splice(s, b, io), b + 20, udp);
            t == Splice(s, b, io + udp) && t[b..b + (n + 28)] == io + udp + s[b + 28..b + 28 + n]
  {
    SpliceTwice(s, b, io, udp);
    SpliceSlice(s, b, io + udp, n + 28);
  }

  class PacketLayer {
    var ipId: u16

    /** udpipgen: the payload already lies at b + 28. The sum over it must fit in_cksum's int, which
        every payload of at most 65509 bytes does. */
    method UdpIpGen(pkt: array<byte>, b: nat, saddr: Addr, daddr: Addr, sport: Half, dport: Half, msglen: u16)
      requires b + 28 + msglen <= pkt.Length
      requires FitsInt(Summed(sport, dport, saddr, daddr, pkt[b + 28..b + 28 + msglen]))
      modifies pkt, this
      ensures var payload := old(pkt[b + 28..b + 28 + msglen]);
              pkt[..] == Splice(old(pkt[..]), b, Headers(sport, dport, saddr, daddr, old(ipId), payload))
      ensures ipId == (old(ipId) + 1) % 0x1_0000
    {
      hide Splice, Overlay, Checksum, NetLen, Le16, IpFront, UdpFront;
      ghost var s := pkt[..];
      ghost var payload := pkt[b + 28..b + 28 + msglen];
      var ulen := NetLen(msglen + 8);
      var io := Overlay(IPPROTO_UDP, ulen, saddr, daddr);
      var sum := GenUdp(pkt, b, io, sport, dport, ulen, msglen);
      var len := Low16(msglen + 28);
      var ip := GenIp(len, ipId, saddr, daddr);
      ipId := (ipId + 1) % 0x1_0000;
      Store(pkt, b, ip);
      ghost var udp := UdpHeader(sport, dport, ulen, Le16(sum));
      SpliceHead(s, b, io, udp, ip);
      assert pkt[..] == Splice(s, b, ip + udp);
    }

    /** The overlay and the UDP header, with the checksum over both and the payload. */
    method GenUdp(pkt: array<byte>, b: nat, io: seq<byte>, sport: Half, dport: Half, ulen: Half, msglen: u16)
      returns (sum: u16)
      requires b + 28 + msglen <= pkt.Length && |io| == 20
      requires FitsInt(io + UdpHeader(sport, dport, ulen, [0, 0]) + pkt[b + 28..b + 28 + msglen])
      modifies pkt
      ensures var c := Checksum(io + UdpHeader(sport, dport, ulen, [0, 0]) + old(pkt[b + 28..b + 28 + msglen]));
              sum == if c == 0 then 0xFFFF else c
      ensures pkt[..] == Splice(old(pkt[..]), b, io + UdpHeader(sport, dport, ulen, Le16(sum)))
    {
      ghost var s := pkt[..];
      var udp := UdpHeader(sport, dport, ulen, [0, 0]);
      Store(pkt, b, io);
      Store(pkt, b + 20, udp);
      UdpRegion(s, b, io, udp, msglen);
      sum := InCksum(pkt[..][b..b + (msglen + 28)]);
      if sum == 0 {
        sum := 0xFFFF;
      }
      Store(pkt, b + 26, Le16(sum));
      var front := UdpFront(sport, dport, ulen);
      SpliceTail(s, b, io + front, [0, 0], Le16(sum));
      Regroup(io, front, [0, 0]);
      Regroup(io, front, Le16(sum));
    }

    /** The IP header, built in a local struct because the packet is not aligned. */
    method GenIp(len: u16, id: u16, saddr: Addr, daddr: Addr) returns (h: seq<byte>)
      ensures h == IpHeader(len, id, saddr, daddr, Le16(IpSum(len, id, saddr, daddr)))
    {
      var ip := new byte[20];
      var blank := IpHeader(len, id, saddr, daddr, [0, 0]);
      SpliceAll(ip[..], blank);
      Store(ip, 0, blank);
      ShortFits(ip[..]);
      var sum := InCksum(ip[..]);
      FillField(IpFront(len, id), [0, 0], saddr + daddr, Le16(sum));
      Store(ip, 10, Le16(sum));
      h := ip[..];
    }
  }

  // ---------------------------------------------------------------- udpipchk

  /** The buffer after udpipchk, for each of its returns. */
  function AfterChk(s: seq<byte>, b: nat): (t: seq<byte>)
    requires InBuffer(s, b)
    ensures |t| == |s|
  {
    if !HeaderOk(s, b) then s
    else
      var n := b + HeaderLen(s, b) - 20;
      if NoUdpSum(s, b) then Splice(s, n, s[b..b + 20])
      else
        var overlaid := Splice(s, n, ChkOverlay(s, b));
        if DatagramOk(s, b) then Splice(overlaid, b, s[b..b + 20]) else overlaid
  }

  lemma ChkBadHeader(s: seq<byte>, b: nat)
    requires InBuffer(s, b) && !HeaderOk(s, b)
    ensures AfterChk(s, b) == s && !Accepts(s, b)
  {}

  lemma ChkNoSum(s: seq<byte>, b: nat)
    requires InBuffer(s, b) && HeaderOk(s, b) && NoUdpSum(s, b)
    ensures AfterChk(s, b) == Splice(s, b + HeaderLen(s, b) - 20, s[b..b + 20]) && Accepts(s, b)
  {}

  lemma ChkSummed(s: seq<byte>, b: nat)
    requires InBuffer(s, b) && HeaderOk(s, b) && !NoUdpSum(s, b)
    ensures var laid := Splice(s, b + HeaderLen(s, b) - 20, ChkOverlay(s, b));
            AfterChk(s, b) == if DatagramOk(s, b) then Splice(laid, b, s[b..b + 20]) else laid
    ensures Accepts(s, b) <==> DatagramOk(s, b)
  {}

  lemma Bounds(s: seq<byte>, b: nat)
    requires InBuffer(s, b)
    ensures b + 20 <= |s| <= MAX_LEN && b + HeaderLen(s, b) <= |s|
    ensures HeaderOk(s, b) <==> Checksum(s[b..b + HeaderLen(s, b)]) == 0
    ensures HeaderOk(s, b) ==>
              var u := b + HeaderLen(s, b); 20 <= u && u + 8 <= |s| && u + UdpLen(s, u) <= |s|
    ensures HeaderOk(s, b) ==> (NoUdpSum(s, b) <==> WordAt(s, b + HeaderLen(s, b) + 6) == 0)
    ensures HeaderOk(s, b) ==> (DatagramOk(s, b) <==> Checksum(ChkOverlay(s, b) + Datagram(s, b)) == 0)
  {}

  /** udpipchk: -1 for a bad IP header, -2 for a bad UDP datagram, 0 otherwise. */
  method UdpIpChk(pkt: array<byte>, b: nat) returns (r: int)
    requires InBuffer(pkt[..], b)
    modifies pkt
    ensures r == 0 <==> Accepts(old(pkt[..]), b)
    ensures r == -1 <==> !HeaderOk(old(pkt[..]), b)
    ensures r == 0 || r == -1 || r == -2
    ensures pkt[..] == AfterChk(old(pkt[..]), b)
  {
    hide Splice, Checksum, ChkOverlay, AfterChk, Accepts, InBuffer, HeaderOk;
    ghost var s := pkt[..];
    Bounds(s, b);
    Low4IsMod(pkt[b]);
    var hl: int := 4 * (pkt[b] % 16);
    assert hl == HeaderLen(s, b);
    ShortFits(pkt[..][b..b + hl]);
    var sum := InCksum(pkt[..][b..b + hl]);
    if sum != 0 {
      ChkBadHeader(s, b);
      return -1;
    }
    r := ChkAfterHeader(pkt, b, hl);
  }

  /** udpipchk once the IP header is known to be good. */
  method ChkAfterHeader(pkt: array<byte>, b: nat, hl: nat) returns (r: int)
    requires InBuffer(pkt[..], b) && HeaderOk(pkt[..], b) && hl == HeaderLen(pkt[..], b)
    modifies pkt
    ensures r == (if Accepts(old(pkt[..]), b) then 0 else -2)
    ensures pkt[..] == AfterChk(old(pkt[..]), b)
  {
    hide Splice, Overlay, Checksum, OverlayAt, ChkOverlay, AfterChk;
    hide Accepts, InBuffer, HeaderOk, NoUdpSum, DatagramOk, Datagram;
    ghost var s := pkt[..];
    Bounds(s, b);
    var saveIp := pkt[..][b..b + 20];
    MovedHeader(s, b);
    var n := ThrashOptions(pkt, b, hl);
    ghost var m := pkt[..];
    assert pkt[n + 26] == m[n + 26] && pkt[n + 27] == m[n + 27];
    if pkt[n + 26] == 0 && pkt[n + 27] == 0 {
      ChkNoSum(s, b);
      return 0;
    }
    ChkSummed(s, b);
    r := ChkDatagram(pkt, b, n, saveIp);
  }

  /** The header moves up against the UDP header, over any IP options. */
  method ThrashOptions(pkt: array<byte>, b: nat, hl: nat) returns (n: nat)
    requires b + 20 <= pkt.Length && 20 <= b + hl <= pkt.Length
    modifies pkt
    ensures n == b + hl - 20 && pkt[..] == Splice(old(pkt[..]), n, old(pkt[..])[b..b + 20])
  {
    n := b + hl - 20;
    if hl != 20 {
      MemMove(pkt, n, b, 20);
    } else {
      assert pkt[..] == Splice(pkt[..], b, pkt[..][b..b + 20]);
    }
  }

  /** The pseudo header and the datagram that the moved header and what follows it give. */
  lemma MovedHeader(s: seq<byte>, b: nat)
    requires InBuffer(s, b) && HeaderOk(s, b)
    ensures var n := b + HeaderLen(s, b) - 20;
            var m := Splice(s, n, s[b..b + 20]);
            && WordAt(m, n + 26) == WordAt(s, n + 26)
            && OverlayAt(m, n) == ChkOverlay(s, b)
            && UdpLen(m, n + 20) == UdpLen(s, n + 20)
            && m[n + 20..n + 20 + UdpLen(s, n + 20)] == Datagram(s, b)
            && Splice(m, n, ChkOverlay(s, b)) == Splice(s, n, ChkOverlay(s, b))
  {
    hide Splice, Overlay, Checksum;
    var n := b + HeaderLen(s, b) - 20;
    var h := s[b..b + 20];
    var m := Splice(s, n, h);
    assert OverlayAt(m, n) == ChkOverlay(s, b) by {
      ByteIn(s, n, h, 9);
      SliceIn(s, n, h, 12, 16);
      SliceOfSlice(s, b, b + 20, 12, 16);
      SliceIn(s, n, h, 16, 20);
      SliceOfSlice(s, b, b + 20, 16, 20);
      SliceOut(s, n, h, n + 24, n + 26);
    }
    ByteOut(s, n, h, n + 24);
    ByteOut(s, n, h, n + 25);
    ByteOut(s, n, h, n + 26);
    ByteOut(s, n, h, n + 27);
    SliceOut(s, n, h, n + 20, n + 20 + UdpLen(s, n + 20));
    SpliceOver(s, n, h, ChkOverlay(s, b));
  }

  /** The overlay on the header at n, its length field taken from the UDP header behind it. */
  function OverlayAt(m: seq<byte>, n: nat): (o: seq<byte>)
    requires n + 28 <= |m|
    ensures |o| == 20
  {
    Overlay(m[n + 9], m[n + 24..n + 26], m[n + 12..n + 16], m[n + 16..n + 20])
  }

  /** udpipchk once the sender is known to have sent a checksum; n is where the header now lies. */
  method ChkDatagram(pkt: array<byte>, b: nat, n: nat, saveIp: seq<byte>) returns (r: int)
    requires n + 28 <= pkt.Length <= MAX_LEN && n + 20 + UdpLen(pkt[..], n + 20) <= pkt.Length
    requires |saveIp| == 20 && b + 20 <= pkt.Length
    modifies pkt
    ensures var m := old(pkt[..]);
            var laid := Splice(m, n, OverlayAt(m, n));
            && r == (if Checksum(OverlayAt(m, n) + m[n + 20..n + 20 + UdpLen(m, n + 20)]) == 0 then 0 else -2)
            && pkt[..] == if r == 0 then Splice(laid, b, saveIp) else laid
  {
    ghost var m := pkt[..];
    ghost var o := OverlayAt(m, n);
    LayOverlay(pkt, n);
    ByteOut(m, n, o, n + 24);
    ByteOut(m, n, o, n + 25);
    var len := Word(pkt[n + 25], pkt[n + 24]);
    assert len == UdpLen(m, n + 20);
    SpliceSlice(m, n, o, len + 20);
    ShortFits(pkt[..][n..n + (len + 20)]);
    var sum := InCksum(pkt[..][n..n + (len + 20)]);
    if sum != 0 {
      return -2;
    }
    Store(pkt, b, saveIp);
    return 0;
  }

  /** The header at n becomes the pseudo header of the UDP header behind it; protocol and
      addresses already are where the overlay wants them. */
  method LayOverlay(pkt: array<byte>, n: nat)
    requires n + 28 <= pkt.Length
    modifies pkt
    ensures pkt[..] == Splice(old(pkt[..]), n, OverlayAt(old(pkt[..]), n))
  {
    ghost var s := pkt[..];
    var ulen := pkt[n + 24..n + 26];
    OverlayLaid(s, n);
    Store(pkt, n, Zeros(9));
    Store(pkt, n + 10, ulen);
  }

  lemma OverlayLaid(s: seq<byte>, n: nat)
    requires n + 28 <= |s|
    ensures Splice(Splice(s, n, Zeros(9)), n + 10, s[n + 24..n + 26]) == Splice(s, n, OverlayAt(s, n))
  {
    var z, ulen, tail := Zeros(9), s[n + 24..n + 26], s[n + 12..n + 20];
    var front := z + [s[n + 9]];
    assert Splice(s, n, z) == Splice(s, n, front + s[n + 10..n + 12] + tail) by {
      assert forall k | n + 9 <= k < n + 20 :: (front + s[n + 10..n + 12] + tail)[k - n] == s[k];
    }
    SpliceField(s, n, front, s[n + 10..n + 12], tail, ulen);
    assert tail == s[n + 12..n + 16] + s[n + 16..n + 20];
    assert OverlayAt(s, n) == front + ulen + tail;
  }

  lemma SpliceField(s: seq<byte>, n: nat, front: seq<byte>, field: seq<byte>, tail: seq<byte>, v: seq<byte>)
    requires |field| == |v| && n + |front| + |v| + |tail| <= |s|
    ensures Splice(Splice(s, n, front + field + tail), n + |front|, v) == Splice(s, n, front + v + tail)
  {}

  // ---------------------------------------------------------------- main results

  /** A successful check of a packet without IP options gives every byte back, although the
      pseudo header was laid over it in place. */
  lemma AcceptedPacketUnchanged(s: seq<byte>, b: nat)
    requires InBuffer(s, b) && Accepts(s, b) && HeaderLen(s, b) == 20
    ensures AfterChk(s, b) == s
  {
    assert Splice(s, b, s[b..b + 20]) == s;
    SpliceOver(s, b, ChkOverlay(s, b), s[b..b + 20]);
  }

  lemma LaidOver(s: seq<byte>, n: nat, o: seq<byte>)
    requires n + |o| <= |s|
    ensures var t := Splice(s, n, o);
      && |t| == |s| && t[..n] == s[..n] && t[n + |o|..] == s[n + |o|..] && t[n..n + |o|] == o
      && forall i :: n <= i < n + |o| ==> t[i] == o[i - n]
  {}

  /** A rejected packet: a bad IP header leaves the buffer alone; a bad datagram leaves the pseudo header
      in the twenty bytes in front of the UDP header, octet by octet, and all else alone. */
  lemma RejectedPacketFrame(s: seq<byte>, b: nat)
    requires InBuffer(s, b) && !Accepts(s, b)
    ensures !HeaderOk(s, b) ==> AfterChk(s, b) == s
    ensures HeaderOk(s, b) ==>
              var u, t := b + HeaderLen(s, b), AfterChk(s, b);
              && t[..u - 20] == s[..u - 20] && t[u..] == s[u..]
              && (forall i :: u - 20 <= i < u - 11 ==> t[i] == 0)
              && t[u - 11] == s[b + 9] && t[u - 10..u - 8] == s[u + 4..u + 6] && t[u - 8..u] == s[b + 12..b + 20]
  {
    hide Splice, Checksum;
    if HeaderOk(s, b) {
      var u, o := b + HeaderLen(s, b), ChkOverlay(s, b);
      var n := u - 20;
      assert o[9] == s[b + 9] && o[10..12] == s[u + 4..u + 6];
      assert o[12..20] == s[b + 12..b + 16] + s[b + 16..b + 20] == s[b + 12..b + 20];
      var t := AfterChk(s, b);
      assert t == Splice(s, n, o);
      LaidOver(s, n, o);
      forall i | n <= i < n + 9 ensures t[i] == 0 {
        assert o[i - n] == 0;
      }
      assert t[n + 10..n + 12] == t[n..n + 20][10..12] && t[n + 12..u] == t[n..n + 20][12..20];
    }
  }

  /** Every header byte equals the one d places before it, as far as both lie in the header h. */
  predicate Repeats(h: seq<byte>, d: int) {
    forall k :: 0 <= k < |h| && 0 <= k - d < |h| ==> h[k] == h[k - d]
  }

  /** A successful check gives the 20 header bytes back if and only if the sender sent a UDP checksum,
      or the header repeats itself over the distance by which it was moved. */
  lemma HeaderRestoredIff(s: seq<byte>, b: nat)
    requires InBuffer(s, b) && Accepts(s, b)
    ensures AfterChk(s, b)[b..b + 20] == s[b..b + 20] <==>
            !NoUdpSum(s, b) || Repeats(s[b..b + 20], HeaderLen(s, b) - 20)
  {
    hide Splice, Overlay, Checksum;
    var d: int := HeaderLen(s, b) - 20;
    var h := s[b..b + 20];
    if NoUdpSum(s, b) {
      MovedOver(s, b, b + d, h);
    } else {
      SliceIn(Splice(s, b + d, ChkOverlay(s, b)), b, h, 0, 20);
    }
  }

  /** A header copied to n, seen from its old place. */
  lemma MovedOver(s: seq<byte>, b: nat, n: nat, h: seq<byte>)
    requires b + 20 <= |s| && n + 20 <= |s| && h == s[b..b + 20]
    ensures Splice(s, n, h)[b..b + 20] == h <==> Repeats(h, n - b)
  {
    var t := Splice(s, n, h);
    var g := t[b..b + 20];
    forall k | 0 <= k < 20 ensures g[k] == if 0 <= k - (n - b) < 20 then h[k - (n - b)] else h[k] {
      assert g[k] == t[b + k] && h[k] == s[b + k];
      if 0 <= k - (n - b) < 20 {
        ByteIn(s, n, h, k - (n - b));
      } else {
        ByteOut(s, n, h, b + k);
      }
    }
    hide Splice;
    if g == h {
      assert forall k :: 0 <= k < 20 ==> g[k] == h[k];
    }
  }

  // ---------------------------------------------------------------- as dhcpSendAndRecv calls it

  /** sizeof(udpipMessage): a whole Ethernet frame. */
  const FRAME_SIZE := 1554
  const ETHER_SIZE := 14

  /** The two bytes by which dhcpSendAndRecv looks for an IP header without options. */
  predicate MarkAt(s: seq<byte>, i: nat) {
    i + 1 < |s| && s[i] == 0x45 && s[i + 1] == 0
  }

  /** The packet is taken to start at the first such mark on nine even places, or right behind the
      Ethernet header. */
  predicate StartsAt(s: seq<byte>, b: nat) {
    && ETHER_SIZE <= b
    && (forall k :: 0 <= k < 9 && ETHER_SIZE + 2 * k < b ==> !MarkAt(s, ETHER_SIZE + 2 * k))
    && if MarkAt(s, b) then exists k :: 0 <= k < 9 && b == ETHER_SIZE + 2 * k
       else b == ETHER_SIZE && forall k :: 0 <= k < 9 ==> !MarkAt(s, ETHER_SIZE + 2 * k)
  }

  /** A frame of len bytes in the receive buffer s that dhcpSendAndRecv passes to udpipchk. The UDP
      length is looked for 20 bytes into the packet, wherever the header ends. */
  predicate HandedOver(s: seq<byte>, len: nat, b: nat) {
    && len <= |s| == FRAME_SIZE && s[12] == 8 && s[13] == 0
    && StartsAt(s, b) && b + 28 <= |s|
    && s[b + 9] == IPPROTO_UDP
    && Word(s[b + 3], s[b + 2]) <= len - ETHER_SIZE
    && Word(s[b + 25], s[b + 24]) <= Word(s[b + 3], s[b + 2]) - HeaderLen(s, b)
  }

  /** Of a packet without options these tests leave nothing for udpipchk to read outside the buffer. */
  lemma HandedInBuffer(s: seq<byte>, len: nat, b: nat)
    requires HandedOver(s, len, b) && HeaderLen(s, b) == 20 && len + (b - ETHER_SIZE) <= FRAME_SIZE
    ensures InBuffer(s, b)
  {
    hide StartsAt, Checksum;
  }

  /** A packet found by its mark comes back byte for byte. */
  lemma MarkedUnchanged(s: seq<byte>, b: nat)
    requires MarkAt(s, b) && InBuffer(s, b) && Accepts(s, b)
    ensures AfterChk(s, b) == s
  {
    Low4IsMod(0x45);
    hide AfterChk, Accepts, InBuffer;
    AcceptedPacketUnchanged(s, b);
  }

  /** A frame that is handed over and accepted, with IP options and no UDP checksum, whose IP header
      does not come back. */
  lemma OptionsOverwriteHeader() returns (s: seq<byte>)
    ensures HandedOver(s, 46, 14) && InBuffer(s, 14) && Accepts(s, 14) && HeaderLen(s, 14) == 24
    ensures AfterChk(s, 14)[14..34] != s[14..34]
  {
    hide Checksum, HandedOver, InBuffer, Accepts, AfterChk;
    var head, udp := [0x46, 0, 0, 32, 0, 0, 0, 0, 0, 17, 0xB9, 0xCE], [0, 0, 0, 0, 0, 8, 0, 0];
    var zeros := Zeros(12);
    var eth := zeros + [8, 0];
    OptionsSum(head, zeros);
    s := eth + (head + zeros) + udp + Zeros(FRAME_SIZE - 46);
    FrameBytes(eth, head + zeros, udp, Zeros(FRAME_SIZE - 46));
    OverwrittenWith(s);
  }

  lemma FrameBytes(eth: seq<byte>, head: seq<byte>, udp: seq<byte>, rest: seq<byte>)
    ensures var s := eth + head + udp + rest; var n := |eth| + |head|;
      && |s| == n + |udp| + |rest| && s[|eth|..n] == head
      && (forall i :: 0 <= i < |eth| ==> s[i] == eth[i])
      && (forall i :: |eth| <= i < n ==> s[i] == head[i - |eth|])
      && (forall i :: n <= i < n + |udp| ==> s[i] == udp[i - n])
      && (forall i :: n + |udp| <= i < |s| ==> s[i] == rest[i - n - |udp|])
  {
  }

  lemma OverwrittenWith(s: seq<byte>)
    requires |s| == FRAME_SIZE && s[12] == 8 && s[13] == 0 && Checksum(s[14..38]) == 0
    requires s[14] == 0x46 && s[16] == 0 && s[17] == 32 && s[18] == 0 && s[23] == 17
    requires s[38] == 0 && s[39] == 0 && s[42] == 0 && s[43] == 8 && s[44] == 0 && s[45] == 0
    requires forall i :: 14 <= i < 32 ==> s[i] != 0x45
    ensures HandedOver(s, 46, 14) && InBuffer(s, 14) && Accepts(s, 14) && HeaderLen(s, 14) == 24
    ensures AfterChk(s, 14)[14..34] != s[14..34]
  {
    hide Checksum, AfterChk;
    Low4IsMod(0x46);
    assert HeaderLen(s, 14) == 24 && UdpLen(s, 38) == 8 && WordAt(s, 44) == 0;
    HeaderRestoredIff(s, 14);
    var h := s[14..34];
    assert h[4] != h[4 - 4];
  }

  lemma OptionsSum(head: seq<byte>, zeros: seq<byte>)
    requires head == [0x46, 0, 0, 32, 0, 0, 0, 0, 0, 17, 0xB9, 0xCE] && zeros == Zeros(12)
    ensures Checksum(head + zeros) == 0
  {
    ZerosSum(zeros);
    WordSumConcat(head, zeros);
    SixWords(head);
    OnesSumIsCanon(head + zeros);
    CanonUnique(0xFFFF, 0xFFFF, 0);
  }

  lemma SixWords(s: seq<byte>)
    requires |s| == 12
    ensures WordSum(s) == Word(s[0], s[1]) + Word(s[2], s[3]) + Word(s[4], s[5]) +
                          Word(s[6], s[7]) + Word(s[8], s[9]) + Word(s[10], s[11])
  {
    assert WordSum(s[10..]) == Word(s[10], s[11]);
    assert WordSum(s[8..]) == Word(s[8], s[9]) + WordSum(s[10..]);
    assert WordSum(s[6..]) == Word(s[6], s[7]) + WordSum(s[8..]);
    assert WordSum(s[4..]) == Word(s[4], s[5]) + WordSum(s[6..]);
    assert WordSum(s[2..]) == Word(s[2], s[3]) + WordSum(s[4..]);
  }

  /** With a header length below 20, which the checksum may well confirm, a successful check writes in
      front of the packet: the header's own beginning, or the front of the pseudo header. Nothing is
      written farther away, nor behind the 20 bytes. */
  lemma ShortHeaderWritesInFront(s: seq<byte>, b: nat)
    requires InBuffer(s, b) && Accepts(s, b) && HeaderLen(s, b) < 20
    ensures var e, n := 20 - HeaderLen(s, b), b + HeaderLen(s, b) - 20;
            && AfterChk(s, b)[n..b] == (if NoUdpSum(s, b) then s[b..b + e] else ChkOverlay(s, b)[..e])
            && AfterChk(s, b)[..n] == s[..n] && AfterChk(s, b)[b + 20..] == s[b + 20..]
  {
    hide Splice, Overlay, Checksum;
    var e, n, h, t := 20 - HeaderLen(s, b), b + HeaderLen(s, b) - 20, s[b..b + 20], AfterChk(s, b);
    if NoUdpSum(s, b) {
      SliceIn(s, n, h, 0, e);
      SliceOfSlice(s, b, b + 20, 0, e);
      SliceOut(s, n, h, 0, n);
      SliceOut(s, n, h, b + 20, |s|);
    } else {
      var o := ChkOverlay(s, b);
      var laid := Splice(s, n, o);
      assert t == Splice(laid, b, h);
      SliceIn(s, n, o, 0, e);
      SliceOut(laid, b, h, n, b);
      assert t[n..b] == laid[n..n + e] == o[0..e];
      SliceOut(s, n, o, 0, n);
      SliceOut(laid, b, h, 0, n);
      SliceOut(s, n, o, b + 20, |s|);
      SliceOut(laid, b, h, b + 20, |s|);
      assert t[..n] == t[0..n] && s[..n] == s[0..n] && t[b + 20..] == t[b + 20..|s|] && s[b + 20..] == s[b + 20..|s|];
    }
  }

  /** Such a frame, handed over and accepted: of the Ethernet header in front of its two words of IP
      header twelve bytes do not survive. */
  lemma FrontOverwritten() returns (s: seq<byte>)
    ensures HandedOver(s, 42, 14) && InBuffer(s, 14) && Accepts(s, 14) && HeaderLen(s, 14) == 8
    ensures AfterChk(s, 14)[2..14] == s[14..26] != s[2..14]
  {
    hide Checksum, HandedOver, InBuffer, Accepts, AfterChk;
    var head, udp := [0x42, 0, 0, 28, 0, 0, 0xBD, 0xE3], [0, 17, 0, 0, 0, 8, 0, 0];
    var eth, rest := Zeros(12) + [8, 0], Zeros(FRAME_SIZE - 30);
    assert forall i :: 0 <= i < 8 ==> head[i] != 0x45 && udp[i] != 0x45;
    FrontSum(head);
    s := eth + head + udp + rest;
    FrameBytes(eth, head, udp, rest);
    assert forall i :: 30 <= i < 40 ==> s[i] == rest[i - 30] == 0;
    FrontOverwrittenWith(s);
  }

  lemma FrontSum(head: seq<byte>)
    requires head == [0x42, 0, 0, 28, 0, 0, 0xBD, 0xE3]
    ensures Checksum(head) == 0
  {
    FourWords(head);
    OnesSumIsCanon(head);
    CanonUnique(0xFFFF, 0xFFFF, 0);
  }

  lemma FourWords(s: seq<byte>)
    requires |s| == 8
    ensures WordSum(s) == Word(s[0], s[1]) + Word(s[2], s[3]) + Word(s[4], s[5]) + Word(s[6], s[7])
  {
    assert WordSum(s[6..]) == Word(s[6], s[7]);
    assert WordSum(s[4..]) == Word(s[4], s[5]) + WordSum(s[6..]);
    assert WordSum(s[2..]) == Word(s[2], s[3]) + WordSum(s[4..]);
  }

  lemma FrontOverwrittenWith(s: seq<byte>)
    requires |s| == FRAME_SIZE && s[2] == 0 && s[12] == 8 && s[13] == 0 && Checksum(s[14..22]) == 0
    requires s[14] == 0x42 && s[16] == 0 && s[17] == 28 && s[23] == 17
    requires s[26] == 0 && s[27] == 8 && s[28] == 0 && s[29] == 0 && s[38] == 0 && s[39] == 0
    requires forall i :: 14 <= i < 32 ==> s[i] != 0x45
    ensures HandedOver(s, 42, 14) && InBuffer(s, 14) && Accepts(s, 14) && HeaderLen(s, 14) == 8
    ensures AfterChk(s, 14)[2..14] == s[14..26] != s[2..14]
  {
    hide Checksum, AfterChk;
    Low4IsMod(0x42);
    assert HeaderLen(s, 14) == 8 && UdpLen(s, 22) == 8 && WordAt(s, 28) == 0;
    ShortHeaderWritesInFront(s, 14);
    assert s[14..26][0] == 0x42 && s[2..14][0] == 0;
  }

  /** With options, a successful check may only change the option bytes and, when the sender
      sent no UDP checksum, the header bytes its copy overlaps. */
  lemma AcceptedPacketFrame(s: seq<byte>, b: nat, k: nat)
    requires InBuffer(s, b) && Accepts(s, b) && HeaderLen(s, b) >= 20 && k < |s|
    requires k < b || b + HeaderLen(s, b) <= k || (k < b + 20 && (!NoUdpSum(s, b) || 40 <= HeaderLen(s, b)))
    ensures AfterChk(s, b)[k] == s[k]
  {
    hide Splice, Overlay, Checksum;
    var n, h := b + HeaderLen(s, b) - 20, s[b..b + 20];
    if NoUdpSum(s, b) {
      ByteOut(s, n, h, k);
    } else {
      var o := Splice(s, n, ChkOverlay(s, b));
      if b <= k < b + 20 {
        ByteIn(o, b, h, k - b);
      } else {
        ByteOut(o, b, h, k);
        ByteOut(s, n, ChkOverlay(s, b), k);
      }
    }
  }

  lemma HeaderVerifies(len: u16, id: u16, src: Addr, dst: Addr)
    ensures Checksum(IpHeader(len, id, src, dst, Le16(IpSum(len, id, src, dst)))) == 0
  {
    StoredFieldVerifies(IpFront(len, id), src + dst, IpSum(len, id, src, dst));
  }

  lemma DatagramVerifies(sport: Half, dport: Half, src: Addr, dst: Addr, payload: seq<byte>)
    ensures var ulen := NetLen(|payload| + 8);
            var sum := UdpSum(sport, dport, src, dst, payload);
            sum != 0 &&
            Checksum(Overlay(IPPROTO_UDP, ulen, src, dst) + (UdpHeader(sport, dport, ulen, Le16(sum)) + payload)) == 0
  {
    var ulen, sum := NetLen(|payload| + 8), UdpSum(sport, dport, src, dst, payload);
    var o, front := Overlay(IPPROTO_UDP, ulen, src, dst), UdpFront(sport, dport, ulen);
    Regroup(o, front, [0, 0]);
    StoredFieldVerifies(o + front, payload, sum);
    Regroup(o, front, Le16(sum));
    Regroup(o, front + Le16(sum), payload);
  }

  /** What udpipchk sees of a packet made of a 20-byte header h and a datagram d. */
  lemma PacketParts(t: seq<byte>, b: nat, h: seq<byte>, d: seq<byte>)
    requires |h| == 20 && |d| >= 8 && b + 20 + |d| <= |t| <= MAX_LEN
    requires t[b..b + 20] == h && t[b + 20..b + 20 + |d|] == d
    requires h[0] == 0x45 && Checksum(h) == 0 && Word(d[5], d[4]) == |d|
    ensures InBuffer(t, b) && HeaderLen(t, b) == 20 && HeaderOk(t, b) && UdpLen(t, b + 20) == |d|
    ensures Datagram(t, b) == d && (NoUdpSum(t, b) <==> Word(d[6], d[7]) == 0)
    ensures ChkOverlay(t, b) == Overlay(h[9], d[4..6], h[12..16], h[16..20])
  {
    hide Overlay, Checksum;
    HeaderByte(t, b, h, 0);
    HeaderByte(t, b, h, 9);
    SliceOfSlice(t, b, b + 20, 12, 16);
    SliceOfSlice(t, b, b + 20, 16, 20);
    SliceOfSlice(t, b + 20, b + 20 + |d|, 4, 6);
    HeaderByte(t, b + 20, d, 4);
    HeaderByte(t, b + 20, d, 5);
    HeaderByte(t, b + 20, d, 6);
    HeaderByte(t, b + 20, d, 7);
  }

  lemma HeaderByte(t: seq<byte>, b: nat, h: seq<byte>, k: nat)
    requires b + |h| <= |t| && t[b..b + |h|] == h && k < |h|
    ensures t[b + k] == h[k]
  {
    assert h[k] == t[b..b + |h|][k];
  }

  lemma StoredParts(s: seq<byte>, b: nat, h: seq<byte>, udp: seq<byte>, n: nat)
    requires b + 28 + n <= |s| && |h| == 20 && |udp| == 8
    ensures var t := Splice(s, b, h + udp);
            t[b..b + 20] == h && t[b + 20..b + 20 + (8 + n)] == udp + s[b + 28..b + 28 + n]
  {}

  lemma HeaderFields(front: seq<byte>, sum: seq<byte>, src: Addr, dst: Addr)
    requires |front| == 10 && |sum| == 2
    ensures var h := front + sum + (src + dst);
            h[0] == front[0] && h[9] == front[9] && h[12..16] == src && h[16..20] == dst
  {}

  lemma DatagramFields(front: seq<byte>, ulen: Half, sum: seq<byte>, payload: seq<byte>)
    requires |front| == 6 && front[4..6] == ulen && |sum| == 2
    ensures var d := (front + sum) + payload;
            d[4..6] == ulen && d[4] == ulen[0] && d[5] == ulen[1] && d[6] == sum[0] && d[7] == sum[1]
  {
    var d := (front + sum) + payload;
    assert d[4] == front[4..6][0] && d[5] == front[4..6][1];
  }

  /** Every packet udpipgen builds passes udpipchk, wherever it lies in whatever buffer. */
  lemma GeneratedPacketAccepted(s: seq<byte>, b: nat, sport: Half, dport: Half, src: Addr, dst: Addr, id: u16, n: nat)
    requires b + 28 + n <= |s| <= MAX_LEN
    ensures var t := Splice(s, b, Headers(sport, dport, src, dst, id, s[b + 28..b + 28 + n]));
            InBuffer(t, b) && HeaderLen(t, b) == 20 && HeaderOk(t, b) && !NoUdpSum(t, b) && DatagramOk(t, b)
            && UdpLen(t, b + 20) == n + 8
  {
    var payload := s[b + 28..b + 28 + n];
    var len, ulen := Low16(n + 28), NetLen(n + 8);
    HeaderVerifies(len, id, src, dst);
    DatagramVerifies(sport, dport, src, dst, payload);
    BuiltPacketAccepted(s, b, len, id, src, dst, IpSum(len, id, src, dst),
                        sport, dport, ulen, UdpSum(sport, dport, src, dst, payload), n);
  }

  /** Every field of a generated packet lies where RFC 791 and RFC 768 put it, and the payload and
      all around the packet is untouched. */
  lemma GeneratedFields(s: seq<byte>, b: nat, sport: Half, dport: Half, src: Addr, dst: Addr, id: u16, n: nat)
    requires b + 28 + n <= |s| <= MAX_LEN && n + 28 < 0x1_0000
    ensures var t := Splice(s, b, Headers(sport, dport, src, dst, id, s[b + 28..b + 28 + n]));
            && t[b] / 16 == 4 && t[b] % 16 == 5 && t[b + 1] == 0
            && Word(t[b + 3], t[b + 2]) == n + 28 && Word(t[b + 5], t[b + 4]) == id
            && t[b + 6] == 0 && t[b + 7] == 0 && t[b + 8] == 64 && t[b + 9] == 17
            && t[b + 12..b + 16] == src && t[b + 16..b + 20] == dst
            && t[b + 20..b + 22] == sport && t[b + 22..b + 24] == dport
            && Word(t[b + 25], t[b + 24]) == n + 8
            && t[..b] == s[..b] && t[b + 28..] == s[b + 28..]
  {
    hide IpHeader, UdpHeader, Splice, IpSum, UdpSum, Le16, NetLen;
    var payload := s[b + 28..b + 28 + n];
    var len: u16, ulen := Low16(|payload| + 28), NetLen(|payload| + 8);
    var isum, usum := Le16(IpSum(len, id, src, dst)), Le16(UdpSum(sport, dport, src, dst, payload));
    assert Headers(sport, dport, src, dst, id, payload) ==
           IpHeader(len, id, src, dst, isum) + UdpHeader(sport, dport, ulen, usum);
    FieldsAt(s, b, sport, dport, src, dst, id, len, ulen, isum, usum);
  }

  lemma FieldsAt(s: seq<byte>, b: nat, sport: Half, dport: Half, src: Addr, dst: Addr, id: u16, len: u16, ulen: Half,
                 isum: Half, usum: Half)
    requires b + 28 <= |s|
    ensures var t := Splice(s, b, IpHeader(len, id, src, dst, isum) + UdpHeader(sport, dport, ulen, usum));
            && t[b] == 0x45 && t[b + 1] == 0 && Word(t[b + 3], t[b + 2]) == len && Word(t[b + 5], t[b + 4]) == id
            && t[b + 6] == 0 && t[b + 7] == 0 && t[b + 8] == 64 && t[b + 9] == 17
            && t[b + 12..b + 16] == src && t[b + 16..b + 20] == dst
            && t[b + 20..b + 22] == sport && t[b + 22..b + 24] == dport
            && t[b + 24] == ulen[0] && t[b + 25] == ulen[1]
            && t[..b] == s[..b] && t[b + 28..] == s[b + 28..]
  {
    var f, h, u := IpFront(len, id), IpHeader(len, id, src, dst, isum), UdpHeader(sport, dport, ulen, usum);
    var t := Splice(s, b, h + u);
    assert h[..10] == f && h[12..16] == src && h[16..20] == dst;
    assert f[0] == 0x45 && f[1] == 0 && Word(f[3], f[2]) == len && Word(f[5], f[4]) == id;
    assert f[6] == 0 && f[7] == 0 && f[8] == 64 && f[9] == 17;
    assert forall k | 0 <= k < 10 :: h[k] == f[k];
    assert u[0..2] == sport && u[2..4] == dport && u[4..6] == ulen;
    assert (h + u)[..20] == h && (h + u)[20..] == u;
    hide IpFront, IpHeader, UdpHeader;
    forall k | 0 <= k < 28 ensures t[b + k] == (h + u)[k] {
      ByteIn(s, b, h + u, k);
    }
    assert t[b..b + 20] == h && t[b + 20..b + 28] == u;
  }

  /** The same for any header fields and sums that verify. */
  lemma BuiltPacketAccepted(s: seq<byte>, b: nat, len: u16, id: u16, src: Addr, dst: Addr, isum: u16,
                            sport: Half, dport: Half, ulen: Half, usum: u16, n: nat)
    requires b + 28 + n <= |s| <= MAX_LEN && Word(ulen[1], ulen[0]) == n + 8 && usum != 0
    requires Checksum(IpHeader(len, id, src, dst, Le16(isum))) == 0
    requires Checksum(Overlay(IPPROTO_UDP, ulen, src, dst) +
                      (UdpHeader(sport, dport, ulen, Le16(usum)) + s[b + 28..b + 28 + n])) == 0
    ensures var t := Splice(s, b, IpHeader(len, id, src, dst, Le16(isum)) + UdpHeader(sport, dport, ulen, Le16(usum)));
            InBuffer(t, b) && HeaderLen(t, b) == 20 && HeaderOk(t, b) && !NoUdpSum(t, b) && DatagramOk(t, b)
            && UdpLen(t, b + 20) == n + 8
  {
    hide Splice, Overlay, Checksum;
    var h, udp := IpHeader(len, id, src, dst, Le16(isum)), UdpHeader(sport, dport, ulen, Le16(usum));
    StoredParts(s, b, h, udp, n);
    HeaderFields(IpFront(len, id), Le16(isum), src, dst);
    DatagramFields(UdpFront(sport, dport, ulen), ulen, Le16(usum), s[b + 28..b + 28 + n]);
    PacketParts(Splice(s, b, h + udp), b, h, udp + s[b + 28..b + 28 + n]);
  }

  /** In a packet that passed with a UDP checksum, replacing one aligned payload word by w is
      let through exactly when nothing changes or 0x0000 and 0xFFFF trade places. */
  lemma PayloadCorruptionAcceptedIff(t: seq<byte>, b: nat, i: nat, w: u16)
    requires InBuffer(t, b) && HeaderLen(t, b) == 20 && HeaderOk(t, b) && !NoUdpSum(t, b) && DatagramOk(t, b)
    requires i % 2 == 0 && 8 <= i && i + 2 <= UdpLen(t, b + 20)
    ensures var v, t' := WordAt(t, b + 20 + i), Splice(t, b + 20 + i, Le16(w));
            InBuffer(t', b) && HeaderOk(t', b) &&
            (Accepts(t', b) <==> w == v || (w == 0 && v == 0xFFFF) || (w == 0xFFFF && v == 0))
  {
    hide Splice, Overlay, Checksum, Le16;
    var o, d := ChkOverlay(t, b), Datagram(t, b);
    CorruptedParts(t, b, i, Le16(w));
    WordInside(o, d, i, w);
    assert WordAt(d, i) == WordAt(t, b + 20 + i) by {
      HeaderByte(t, b + 20, d, i);
      HeaderByte(t, b + 20, d, i + 1);
    }
    assert Checksum(WithWord(o + d, 20 + i, w)) == Checksum(o + d) <==>
           w == WordAt(d, i) || (w == 0 && WordAt(d, i) == 0xFFFF) || (w == 0xFFFF && WordAt(d, i) == 0) by {
      OverlayLength(t, b);
      OverlaySumPositive(o, d, i);
      WordChangeUndetectedIff(o + d, 20 + i, w);
    }
  }

  /** Bytes replaced inside the payload leave header and overlay as they are. */
  lemma CorruptedParts(t: seq<byte>, b: nat, i: nat, w: seq<byte>)
    requires InBuffer(t, b) && HeaderLen(t, b) == 20 && HeaderOk(t, b)
    requires 8 <= i && i + |w| <= UdpLen(t, b + 20)
    ensures var t' := Splice(t, b + 20 + i, w);
            && InBuffer(t', b) && HeaderOk(t', b) && NoUdpSum(t', b) == NoUdpSum(t, b)
            && ChkOverlay(t', b) == ChkOverlay(t, b)
            && Datagram(t', b) == Splice(Datagram(t, b), i, w)
  {
    hide Splice, Overlay, Checksum;
    var p := b + 20 + i;
    forall k | 0 <= k < b + 28 ensures Splice(t, p, w)[k] == t[k] {
      ByteOut(t, p, w, k);
    }
    CorruptedSlice(t, b + 20, b + 20 + UdpLen(t, b + 20), i, w);
    SliceOut(t, p, w, b, b + 20);
    SliceOut(t, p, w, b + 24, b + 26);
    SliceOut(t, p, w, b + 12, b + 16);
    SliceOut(t, p, w, b + 16, b + 20);
  }

  lemma CorruptedSlice(t: seq<byte>, u: nat, e: nat, i: nat, w: seq<byte>)
    requires u + i + |w| <= e <= |t|
    ensures Splice(t, u + i, w)[u..e] == Splice(t[u..e], i, w)
  {}

  lemma WordInside(o: seq<byte>, d: seq<byte>, i: nat, w: u16)
    requires |o| == 20 && i % 2 == 0 && i + 2 <= |d|
    ensures o + Splice(d, i, Le16(w)) == WithWord(o + d, 20 + i, w) && WordAt(o + d, 20 + i) == WordAt(d, i)
  {
    SpliceShift(o, d, i, Le16(w));
  }

  lemma OverlayLength(t: seq<byte>, b: nat)
    requires InBuffer(t, b) && HeaderLen(t, b) == 20 && HeaderOk(t, b)
    ensures var o := ChkOverlay(t, b); o[10] == t[b + 24] && o[11] == t[b + 25]
  {}

  /** The length in the overlay keeps the sum of the other words positive. */
  lemma OverlaySumPositive(o: seq<byte>, d: seq<byte>, i: nat)
    requires |o| == 20 && (o[10] != 0 || o[11] != 0)
    requires i % 2 == 0 && i + 2 <= |d|
    ensures RestSum(o + d, 20 + i) > 0
  {
    var front := (o + d)[..20 + i];
    assert front == o[..10] + ([o[10], o[11]] + front[12..]);
    WordSumConcat(o[..10], [o[10], o[11]] + front[12..]);
    WordSumConcat([o[10], o[11]], front[12..]);
  }
}

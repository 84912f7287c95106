/** Ethernet and Token Ring framing in network/dhcpcd/client.c: eth2tr and tr2eth move the
    payload inside one buffer. Header constants are those of linux/if_tr.h. */
module TokenRing {
  import opened Bytes

  const ETH_HLEN := 14
  const IPPACKET_SIZE := 1500
  const TRH_FIXED := 14
  const LLC_SIZE := 8
  const AC: byte := 0x10
  const LLC_FRAME: byte := 0x40
  const EXTENDED_SAP: byte := 0xAA
  const UI_CMD: byte := 0x03
  const FRAME_SIZE := 1554

  /** The eight bytes of struct trllc. */
  function Llc(etype: seq<byte>): (s: seq<byte>)
    requires |etype| == 2
    ensures |s| == LLC_SIZE
  {
    [EXTENDED_SAP, EXTENDED_SAP, UI_CMD, 0, 0, 0] + etype
  }

  function Broadcast(f: seq<byte>): bool
    requires |f| >= ETH_HLEN
  {
    f[0] >= 0x80
  }

  function SetTop(b: byte): byte {
    if b >= 0x80 then b else b + 0x80
  }

  /** The Token Ring header for an Ethernet header: a broadcast gets a routing field of two
      bytes and the source-route indicator in its source address. */
  function TrHeader(f: seq<byte>): (h: seq<byte>)
    requires |f| >= ETH_HLEN
    ensures |h| == if Broadcast(f) then 24 else 22
  {
    if Broadcast(f)
    then [AC, LLC_FRAME] + f[0..6] + [SetTop(f[6])] + f[7..12] + [0x82, 0x70] + Llc(f[12..14])
    else [AC, LLC_FRAME] + f[0..6] + f[6..12] + Llc(f[12..14])
  }

  function ToTr(f: seq<byte>, datalen: nat): seq<byte>
    requires ETH_HLEN + datalen <= |f|
  {
    TrHeader(f) + f[ETH_HLEN..ETH_HLEN + datalen]
  }

  /** The octets of the converted frame: access and frame control, the addresses, for a broadcast the
      source-route bit and the field 82 70 for all routes, the LLC header of an encapsulated Ethernet
      type, then the payload. */
  lemma TrOctets(f: seq<byte>, datalen: nat)
    requires ETH_HLEN + datalen <= |f|
    ensures var t := ToTr(f, datalen);
            var k := if f[0] >= 0x80 then 16 else 14;
            && |t| == k + 8 + datalen && t[0] == 0x10 && t[1] == 0x40
            && t[2..8] == f[0..6] && t[9..14] == f[7..12]
            && t[8] == (if f[0] >= 0x80 && f[6] < 0x80 then f[6] + 0x80 else f[6])
            && (f[0] >= 0x80 ==> t[14] == 0x82 && t[15] == 0x70)
            && t[k..k + 6] == [0xAA, 0xAA, 3, 0, 0, 0] && t[k + 6..k + 8] == f[12..14]
            && t[k + 8..] == f[ETH_HLEN..ETH_HLEN + datalen]
  {
    var h, d := TrHeader(f), f[ETH_HLEN..ETH_HLEN + datalen];
    var k := if f[0] >= 0x80 then 16 else 14;
    var l := [EXTENDED_SAP, EXTENDED_SAP, UI_CMD, 0, 0, 0];
    assert h[k..] == l + f[12..14];
    assert h[2..8] == f[0..6];
    if f[0] >= 0x80 {
      assert h[9..14] == f[7..12];
    } else {
      assert h[9..14] == f[6..12][1..] == f[7..12];
    }
    hide TrHeader;
    var t := h + d;
    assert t[..|h|] == h && t[|h|..] == d;
    assert t[2..8] == h[2..8] && t[9..14] == h[9..14] && t[k..k + 6] == h[k..][..6] && t[k + 6..k + 8] == h[k..][6..8];
  }

  /** eth2tr */
  method Eth2Tr(frame: array<byte>, datalen: nat) returns (r: nat)
    requires 24 + datalen <= frame.Length
    modifies frame
    ensures frame[..] == Splice(old(frame[..]), 0, ToTr(old(frame[..]), datalen))
    ensures r == |ToTr(old(frame[..]), datalen)|
  {
    hide Splice;
    ghost var f := frame[..];
    var header := TrHeader(frame[..]);
    var len := |header|;
    MemMove(frame, len, ETH_HLEN, datalen);
    Store(frame, 0, header);
    JoinStores(f, header, f[ETH_HLEN..ETH_HLEN + datalen]);
    r := len + datalen;
  }

  lemma JoinStores(f: seq<byte>, h: seq<byte>, d: seq<byte>)
    requires |h| + |d| <= |f|
    ensures Splice(Splice(f, |h|, d), 0, h) == Splice(f, 0, h + d)
  {}

  // ---------------------------------------------------------------- tr2eth

  predicate LlcAt(g: seq<byte>, k: nat)
    requires k + 2 < |g|
  {
    g[k] == EXTENDED_SAP && g[k + 2] == UI_CMD
  }

  datatype Rif = NoFrame | Rif(len: nat)

  /** The length of the routing field tr2eth settles on, if the frame is one it accepts. */
  function RifLen(g: seq<byte>): (r: Rif)
    requires |g| >= FRAME_SIZE
    ensures r.Rif? ==> r.len <= 30
  {
    var h: nat := g[14] % 32;
    var routed := if h >= 2 && h % 2 == 0 && LlcAt(g, TRH_FIXED + h) then Rif(h) else NoFrame;
    if g[8] >= 0x80 then routed
    else if LlcAt(g, TRH_FIXED) then Rif(0)
    else routed
  }

  /** The Ethernet frame inside an accepted Token Ring frame. */
  function FromTr(g: seq<byte>): (f: seq<byte>)
    requires |g| >= FRAME_SIZE && RifLen(g).Rif?
    ensures |f| == ETH_HLEN + IPPACKET_SIZE
  {
    var k := TRH_FIXED + RifLen(g).len;
    g[2..8] + [g[8] % 0x80] + g[9..14] + g[k + 6..k + 8] + g[k + LLC_SIZE..k + LLC_SIZE + IPPACKET_SIZE]
  }

  /** tr2eth. The goto fake_rif is one more round of the loop; the loop's measure shows that it
      is taken at most once. */
  method Tr2Eth(frame: array<byte>) returns (r: int)
    requires frame.Length >= FRAME_SIZE
    modifies frame
    ensures r == if RifLen(old(frame[..])).Rif? then 0 else 1
    ensures frame[..] == if r == 0 then Splice(old(frame[..]), 0, FromTr(old(frame[..]))) else old(frame[..])
  {
    hide Splice;
    ghost var g := frame[..];
    var daddr, saddr, rcf := frame[..][2..8], frame[..][8..14], frame[14];
    var hlen: nat, routed := 0, saddr[0] >= 0x80;
    while true
      invariant hlen == 0 && frame[..] == g && saddr == g[8..14] && daddr == g[2..8] && rcf == g[14]
      invariant routed ==> g[8] >= 0x80 || !LlcAt(g, TRH_FIXED)
      invariant !routed ==> g[8] < 0x80
      decreases !routed
    {
      if routed {
        hlen := rcf % 32;
        if hlen < 2 || hlen % 2 == 1 {
          return 1;
        }
        saddr := [saddr[0] % 0x80] + saddr[1..];
      }
      if !LlcAt(frame[..], TRH_FIXED + hlen) {
        if hlen == 0 {
          routed := true;
          continue;
        }
        return 1;
      }
      break;
    }
    assert RifLen(g) == Rif(hlen);
    var k := TRH_FIXED + hlen;
    InstallEth(frame, daddr, saddr, k);
    assert saddr == [g[8] % 0x80] + g[9..14];
    assert daddr + saddr + g[k + 6..k + 8] + g[k + LLC_SIZE..k + LLC_SIZE + IPPACKET_SIZE] == FromTr(g);
    return 0;
  }

  /** Ethernet header and payload, from the trllc at k; the payload moves over itself. */
  method InstallEth(frame: array<byte>, daddr: seq<byte>, saddr: seq<byte>, k: nat)
    requires |daddr| == 6 && |saddr| == 6 && 14 <= k && k + LLC_SIZE + IPPACKET_SIZE <= frame.Length
    modifies frame
    ensures var g := old(frame[..]);
            frame[..] == Splice(g, 0, daddr + saddr + g[k + 6..k + 8] + g[k + LLC_SIZE..k + LLC_SIZE + IPPACKET_SIZE])
  {
    hide Splice;
    ghost var g := frame[..];
    Store(frame, 0, daddr);
    Store(frame, 6, saddr);
    var etype := frame[..][k + 6..k + 8];
    SliceOut(g, 0, daddr, k + 6, k + 8);
    SliceOut(Splice(g, 0, daddr), 6, saddr, k + 6, k + 8);
    Store(frame, 12, etype);
    Install(g, daddr, saddr, etype, k + LLC_SIZE);
    MemMove(frame, ETH_HLEN, k + LLC_SIZE, IPPACKET_SIZE);
  }

  /** Header stores in front of byte k, then the payload from k, make the frame. */
  lemma Install(g: seq<byte>, daddr: seq<byte>, saddr: seq<byte>, etype: seq<byte>, k: nat)
    requires |daddr| == 6 && |saddr| == 6 && |etype| == 2 && ETH_HLEN <= k && k + IPPACKET_SIZE <= |g|
    ensures var a := Splice(Splice(Splice(g, 0, daddr), 6, saddr), 12, etype);
            Splice(a, ETH_HLEN, a[k..k + IPPACKET_SIZE]) ==
            Splice(g, 0, daddr + saddr + etype + g[k..k + IPPACKET_SIZE])
  {
    var d := g[k..k + IPPACKET_SIZE];
    SpliceTwice(g, 0, daddr, saddr);
    SpliceTwice(g, 0, daddr + saddr, etype);
    SliceOut(g, 0, daddr + saddr + etype, k, k + IPPACKET_SIZE);
    SpliceTwice(g, 0, daddr + saddr + etype, d);
  }

  // ---------------------------------------------------------------- what tr2eth takes

  /** The LLC header of an encapsulated packet, as far as it is looked at. */
  predicate Encapsulates(g: seq<byte>, k: nat)
    requires k + 2 < |g|
  {
    g[k] == 0xAA && g[k + 2] == 3
  }

  /** A frame is taken if its LLC header follows the addresses and the source-route bit is clear, or
      follows a routing field of the announced length, which is even and not zero. */
  lemma TakenIff(g: seq<byte>)
    requires |g| >= FRAME_SIZE
    ensures var h: nat := g[14] % 32;
            RifLen(g).Rif? <==>
            (g[8] < 0x80 && Encapsulates(g, 14)) || (h >= 2 && h % 2 == 0 && Encapsulates(g, 14 + h))
  {}

  /** A frame with a routing field of any length comes out with its addresses, its type and its payload,
      the source-route bit cleared. */
  lemma RoutedFrame(g: seq<byte>, h: nat, dst: seq<byte>, src0: byte, src: seq<byte>, etype: seq<byte>, data: seq<byte>)
    requires |g| >= FRAME_SIZE && h == g[14] % 32 && h >= 2 && h % 2 == 0 && Encapsulates(g, 14 + h)
    requires src0 < 0x80 && g[8] == src0 + 0x80
    requires g[2..8] == dst && g[9..14] == src && g[20 + h..22 + h] == etype && g[22 + h..22 + h + 1500] == data
    ensures RifLen(g).Rif? && FromTr(g) == dst + [src0] + src + etype + data
  {}

  // ---------------------------------------------------------------- round trip

  /** A received buffer that starts with what eth2tr made of the frame f. */
  predicate Received(g: seq<byte>, f: seq<byte>, datalen: nat)
    requires ETH_HLEN + datalen <= |f|
  {
    |g| >= FRAME_SIZE && ToTr(f, datalen) <= g
  }

  /** tr2eth gives back header and payload exactly when the source address of the frame has its
      top bit clear, for broadcasts and unicasts, whatever follows the frame in the buffer. */
  lemma RoundTripIff(f: seq<byte>, datalen: nat, g: seq<byte>)
    requires ETH_HLEN + datalen <= |f| && datalen <= IPPACKET_SIZE && Received(g, f, datalen)
    ensures RifLen(g).Rif? && FromTr(g)[..ETH_HLEN + datalen] == f[..ETH_HLEN + datalen] <==> f[6] < 0x80
  {
    if f[6] < 0x80 {
      ClearTopRestored(f, datalen, g);
    } else if RifLen(g).Rif? {
      TrBytes(f, datalen, g);
      assert FromTr(g)[..ETH_HLEN + datalen][6] == g[8] % 0x80 != f[6];
      assert f[..ETH_HLEN + datalen][6] == f[6];
    }
  }

  lemma ClearTopRestored(f: seq<byte>, datalen: nat, g: seq<byte>)
    requires ETH_HLEN + datalen <= |f| && datalen <= IPPACKET_SIZE && Received(g, f, datalen) && f[6] < 0x80
    ensures RifLen(g).Rif? && FromTr(g)[..ETH_HLEN + datalen] == f[..ETH_HLEN + datalen]
  {
    hide TrHeader, ToTr, FromTr, RifLen, LlcAt;
    var n := |TrHeader(f)|;
    TrBytes(f, datalen, g);
    RifSettled(f, datalen, g);
    FromTrParts(g, n - 22, f[0..6], f[7..12], f[12..14]);
    var d := g[n..n + IPPACKET_SIZE];
    assert d[..datalen] == f[ETH_HLEN..ETH_HLEN + datalen] by {
      SliceOfSlice(g, n, n + IPPACKET_SIZE, 0, datalen);
    }
    assert FromTr(g)[..ETH_HLEN] == f[..ETH_HLEN] by {
      assert f[..ETH_HLEN] == f[0..6] + [f[6]] + f[7..12] + f[12..14];
    }
    SameFront(FromTr(g), f, d, datalen);
  }

  lemma RifSettled(f: seq<byte>, datalen: nat, g: seq<byte>)
    requires ETH_HLEN + datalen <= |f| && Received(g, f, datalen) && f[6] < 0x80
    ensures RifLen(g) == Rif(|TrHeader(f)| - 22)
  {
    hide TrHeader, ToTr, LlcAt;
    TrBytes(f, datalen, g);
  }

  lemma SameFront(t: seq<byte>, f: seq<byte>, d: seq<byte>, n: nat)
    requires |t| == ETH_HLEN + |d| && n <= |d| && ETH_HLEN + n <= |f|
    requires t[..ETH_HLEN] == f[..ETH_HLEN] && t[ETH_HLEN..] == d && d[..n] == f[ETH_HLEN..ETH_HLEN + n]
    ensures t[..ETH_HLEN + n] == f[..ETH_HLEN + n]
  {
    assert t[..ETH_HLEN + n] == t[..ETH_HLEN] + t[ETH_HLEN..][..n];
    assert f[..ETH_HLEN + n] == f[..ETH_HLEN] + f[ETH_HLEN..ETH_HLEN + n];
  }

  lemma FromTrParts(g: seq<byte>, h: nat, daddr: seq<byte>, saddr: seq<byte>, etype: seq<byte>)
    requires |g| >= FRAME_SIZE && RifLen(g) == Rif(h)
    requires daddr == g[2..8] && saddr == g[9..14] && etype == g[20 + h..22 + h]
    ensures FromTr(g)[..ETH_HLEN] == daddr + [g[8] % 0x80] + saddr + etype
    ensures FromTr(g)[ETH_HLEN..] == g[22 + h..22 + h + IPPACKET_SIZE]
  {}

  /** The bytes of the converted header. */
  lemma TrBytes(f: seq<byte>, datalen: nat, g: seq<byte>)
    requires ETH_HLEN + datalen <= |f| && Received(g, f, datalen)
    ensures g[2..8] == f[0..6] && g[9..14] == f[7..12]
    ensures g[8] == if Broadcast(f) then SetTop(f[6]) else f[6]
    ensures Broadcast(f) ==> g[14] == 0x82 && LlcAt(g, 16) && g[22..24] == f[12..14]
    ensures !Broadcast(f) ==> LlcAt(g, 14) && g[20..22] == f[12..14]
    ensures var n := |TrHeader(f)|; g[n..n + datalen] == f[ETH_HLEN..ETH_HLEN + datalen]
  {
    HeaderBytes(f);
    hide TrHeader;
    var h, n := TrHeader(f), |TrHeader(f)|;
    Front(g, h, f[ETH_HLEN..ETH_HLEN + datalen]);
    assert g[2..8] == h[2..8] && g[9..14] == h[9..14] && g[n - 2..n] == h[n - 2..];
  }

  lemma Front(g: seq<byte>, h: seq<byte>, d: seq<byte>)
    requires h + d <= g
    ensures g[|h|..|h| + |d|] == d && forall k :: 0 <= k < |h| ==> g[k] == h[k]
  {
    assert g[..|h + d|] == h + d;
    assert forall k | 0 <= k < |h + d| :: g[k] == (h + d)[k];
  }

  lemma HeaderBytes(f: seq<byte>)
    requires |f| >= ETH_HLEN
    ensures var h, n := TrHeader(f), |TrHeader(f)|;
            && h[2..8] == f[0..6] && h[9..14] == f[7..12] && h[n - 2..] == f[12..14]
            && h[8] == (if Broadcast(f) then SetTop(f[6]) else f[6])
            && h[n - 8] == EXTENDED_SAP && h[n - 6] == UI_CMD && (Broadcast(f) ==> h[14] == 0x82)
  {
    var h := TrHeader(f);
    assert h[2..8] == f[0..6];
    if Broadcast(f) {
      assert h[9..14] == f[7..12];
    } else {
      assert h[9..14] == f[6..12][1..] == f[7..12];
    }
  }
}

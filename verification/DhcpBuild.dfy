/** The eight message builders of network/dhcpcd/buildmsg.c. A frame is the whole send buffer:
    Ethernet header, IP and UDP headers, DHCP message, padding. */
module DhcpBuild {
  import opened Bytes
  import opened InternetChecksum
  import opened UdpIp
  import opened DhcpOptions

  const IP_AT := 14
  const MSG_AT := 42
  const OPTIONS_AT := 278
  const MSG_SIZE := 548
  const MSG_END := 590

  const HOSTNAME_MAX_LEN := 64
  const CLASS_ID_MAX_LEN := 48
  const CLIENT_ID_MAX_LEN := 48

  const HOST_NAME: byte := 12
  const REQUESTED_IP: byte := 50
  const PARAM_REQUEST: byte := 55
  const MAX_MSG_SIZE: byte := 57
  const CLASS_IDENTIFIER: byte := 60
  const CLIENT_IDENTIFIER: byte := 61

  const DHCP_DISCOVER: byte := 1
  const DHCP_REQUEST: byte := 3
  const DHCP_DECLINE: byte := 4
  const DHCP_RELEASE: byte := 7
  const DHCP_INFORM: byte := 8

  const PARAMS: seq<byte> := [1, 3, 6, 12, 15, 17, 23, 28, 29, 31, 33, 40, 41, 42]
  const MAGIC_COOKIE: seq<byte> := [0x63, 0x82, 0x53, 0x63]
  const CLIENT_PORT: Half := [0, 68]
  const SERVER_PORT: Half := [0, 67]
  const NO_ADDR: Quad := [0, 0, 0, 0]
  const BROADCAST: Quad := [255, 255, 255, 255]

  type Mac = s: seq<byte> | |s| == 6 witness [0, 0, 0, 0, 0, 0]

  datatype Kind = Discover | Request | Renew | Rebind | Reboot | Release | Decline | Inform

  /** The globals the builders read. An unset host name is empty; clientId is the raw field of
      struct dhcpInterface, tag and length byte included. */
  datatype Config = Config(
    rfc1541: bool, broadcastResp: bool, htype: byte, hwAddr: Mac, serverHwAddr: Mac,
    ciaddr: Quad, siaddr: Quad, informAddr: Quad, nleaseTime: Quad, msgSize: Half,
    hostName: seq<byte>, classId: seq<byte>, clientId: seq<byte>, table: Options, beyond: Quad)

  /** The pointer ClientID with its length: the argument of option -I, if there was one. */
  datatype Wish = Unset | Given(id: seq<byte>)

  predicate Admitted(w: Wish) {
    w.Given? ==> |w.id| <= CLIENT_ID_MAX_LEN
  }

  /** What clientIDsetup leaves in client_id: one whole option. */
  function ClientId(w: Wish, htype: byte, hwAddr: Mac): seq<byte>
    requires Admitted(w)
  {
    match w
    case Given(id) => [CLIENT_IDENTIFIER, |id| + 1, 0] + id
    case Unset => [CLIENT_IDENTIFIER, 7, htype] + hwAddr
  }

  predicate ValidConfig(c: Config) {
    && |c.hostName| <= HOSTNAME_MAX_LEN
    && |c.classId| <= CLASS_ID_MAX_LEN
    && 2 <= |c.clientId| <= CLIENT_ID_MAX_LEN
    && c.clientId[0] == CLIENT_IDENTIFIER && c.clientId[1] == |c.clientId| - 2
    && ValidOptions(c.table)
  }

  /** clientIDsetup stays inside the 48-byte client_id, and so leaves what the builders need, if and
      only if no id was given or one of at most 45 bytes. The option -I lets in 48. */
  lemma ClientIdSetupValidIff(w: Wish, c: Config)
    requires Admitted(w) && |c.hostName| <= HOSTNAME_MAX_LEN && |c.classId| <= CLASS_ID_MAX_LEN
    requires ValidOptions(c.table)
    ensures ValidConfig(c.(clientId := ClientId(w, c.htype, c.hwAddr))) <==> w.Unset? || |w.id| <= 45
    ensures |ClientId(w, c.htype, c.hwAddr)| <= 48 <==> w.Unset? || |w.id| <= 45
  {}

  /** What snprintf of a C string with the size of class_id leaves in it. */
  function Printed(text: seq<byte>, before: seq<byte>): (field: seq<byte>)
    requires |before| == CLASS_ID_MAX_LEN
    ensures |field| == CLASS_ID_MAX_LEN
  {
    if |text| < CLASS_ID_MAX_LEN then text + [0] + before[|text| + 1..] else text[..CLASS_ID_MAX_LEN - 1] + [0]
  }

  /** classIDsetup takes the untruncated length for class_len: the class sent lies inside class_id only
      up to 48 bytes, and is the system's description if and only if that has at most 47. */
  lemma ClassIdSentIff(text: seq<byte>, before: seq<byte>)
    requires |before| == CLASS_ID_MAX_LEN && 0 !in text
    ensures |text| <= 48 && Printed(text, before)[..|text|] == text <==> |text| <= 47
    ensures Printed(text, before)[if |text| <= 47 then |text| else 47] == 0
  {
    if |text| == CLASS_ID_MAX_LEN {
      assert Printed(text, before)[..|text|][|text| - 1] == 0 != text[|text| - 1];
    }
  }

  /** The fields of struct dhcpInterface that clientIDsetup writes. */
  class Interface {
    const clientId: array<byte>
    var clientLen: nat

    constructor ()
      ensures clientId.Length == CLIENT_ID_MAX_LEN && clientLen == 0 && fresh(clientId)
    {
      clientId := new byte[CLIENT_ID_MAX_LEN];
      clientLen := 0;
    }

    /** clientIDsetup, on an id that the field has room for. */
    method ClientIdSetup(w: Wish, htype: byte, hwAddr: Mac)
      requires clientId.Length == CLIENT_ID_MAX_LEN && Admitted(w)
      requires |ClientId(w, htype, hwAddr)| <= CLIENT_ID_MAX_LEN
      modifies this`clientLen, clientId
      ensures clientLen <= clientId.Length
      ensures clientId[..clientLen] == match w
                                       case Given(id) => [61, |id| + 1, 0] + id
                                       case Unset => [61, 7, htype] + hwAddr
      ensures clientId[clientLen..] == old(clientId[..])[clientLen..]
    {
      clientId[0] := CLIENT_IDENTIFIER;
      match w {
        case Given(id) =>
          clientId[1] := |id| + 1;
          clientId[2] := 0;
          Store(clientId, 3, id);
          clientLen := |id| + 3;
        case Unset =>
          clientId[1] := 7;
          clientId[2] := htype;
          Store(clientId, 3, hwAddr);
          clientLen := 9;
      }
    }
  }

  /** Request, Release and Decline copy the server identifier out of the option table. */
  predicate Ready(k: Kind, c: Config) {
    ValidConfig(c) && (k.Request? || k.Release? || k.Decline? ==> SERVER_IDENTIFIER in c.table.val)
  }

  // ---------------------------------------------------------------- the options of each message

  function Stored4(c: Config, tag: byte): Quad
    requires ValidConfig(c) && tag in c.table.val
  {
    First4(c.table.val[tag], c.beyond)
  }

  function If(b: bool, it: Item): seq<Item> {
    if b then [it] else []
  }

  function MessageType(k: Kind): byte {
    match k
    case Discover => DHCP_DISCOVER
    case Request | Renew | Rebind | Reboot => DHCP_REQUEST
    case Release => DHCP_RELEASE
    case Decline => DHCP_DECLINE
    case Inform => DHCP_INFORM
  }

  function SizeItem(c: Config): seq<Item> {
    [Opt(MAX_MSG_SIZE, c.msgSize)]
  }

  function ServerItem(c: Config): seq<Item>
    requires ValidConfig(c) && SERVER_IDENTIFIER in c.table.val
  {
    [Opt(SERVER_IDENTIFIER, Stored4(c, SERVER_IDENTIFIER))]
  }

  function StoredLease(c: Config): seq<Item>
    requires ValidConfig(c)
  {
    if LEASE_TIME in c.table.val then [Opt(LEASE_TIME, Stored4(c, LEASE_TIME))] else []
  }

  function ClientItem(c: Config): seq<Item>
    requires ValidConfig(c)
  {
    [Opt(CLIENT_IDENTIFIER, c.clientId[2..])]
  }

  /** The parameter request list, the host name, the vendor class and the client identifier. */
  function Tail(c: Config): seq<Item>
    requires ValidConfig(c)
  {
    [Opt(PARAM_REQUEST, PARAMS)] + If(c.hostName != [], Opt(HOST_NAME, c.hostName)) +
    [Opt(CLASS_IDENTIFIER, c.classId)] + ClientItem(c)
  }

  /** The options between message type and tail. */
  function Middle(k: Kind, c: Config): seq<Item>
    requires Ready(k, c)
  {
    match k
    case Discover =>
      SizeItem(c) + If(!IsZero(c.ciaddr) && !c.rfc1541, Opt(REQUESTED_IP, c.ciaddr)) + [Opt(LEASE_TIME, c.nleaseTime)]
    case Request => SizeItem(c) + ServerItem(c) + If(!c.rfc1541, Opt(REQUESTED_IP, c.ciaddr)) + StoredLease(c)
    case Renew => SizeItem(c)
    case Rebind => SizeItem(c) + StoredLease(c)
    case Reboot => SizeItem(c) + If(!c.rfc1541, Opt(REQUESTED_IP, c.ciaddr)) + [Opt(LEASE_TIME, c.nleaseTime)]
    case Release => ServerItem(c)
    case Decline => ServerItem(c) + If(!c.rfc1541, Opt(REQUESTED_IP, c.ciaddr))
    case Inform => SizeItem(c)
  }

  function Items(k: Kind, c: Config): (items: seq<Item>)
    requires Ready(k, c)
  {
    [Opt(MESSAGE_TYPE, [MessageType(k)])] + Middle(k, c) +
    if k.Release? || k.Decline? then ClientItem(c) else Tail(c)
  }

  /** ciaddr of the message. */
  function Ciaddr(k: Kind, c: Config): Quad {
    match k
    case Discover => if !IsZero(c.ciaddr) && c.rfc1541 then c.ciaddr else NO_ADDR
    case Request | Reboot | Decline => if c.rfc1541 then c.ciaddr else NO_ADDR
    case Renew | Rebind | Release => c.ciaddr
    case Inform => c.informAddr
  }

  // ---------------------------------------------------------------- a well-formed message

  /** The frame is an IP packet that udpipchk accepts and whose DHCP message is a BOOTREQUEST
      with this xid and ciaddr and an option field that a parser reads as exactly items. */
  predicate Carries(f: seq<byte>, xid: Quad, ciaddr: Quad, items: seq<Item>) {
    && |f| == FRAME_SIZE
    && f[12] == 8 && f[13] == 0
    && InBuffer(f, IP_AT) && Accepts(f, IP_AT) && HeaderLen(f, IP_AT) == 20
    && UdpLen(f, IP_AT + 20) == MSG_SIZE + 8
    && f[MSG_AT] == 1 && f[MSG_AT + 2] == 6
    && f[MSG_AT + 4..MSG_AT + 8] == xid
    && f[MSG_AT + 12..MSG_AT + 16] == ciaddr
    && f[OPTIONS_AT..OPTIONS_AT + 4] == MAGIC_COOKIE
    && Decode(f[278..], 4, 312) == items
  }

  /** Who sends the frame to whom, in octets: Ethernet header, the IP addresses, the ports, and the
      fixed fields of the message; what lies between them and behind them is zero. */
  predicate Envelope(f: seq<byte>, c: Config, ether: Mac, src: Quad, dst: Quad, xid: Quad, timed: bool, ciaddr: Quad) {
    && |f| == 1554
    && f[0..6] == ether && f[6..12] == c.hwAddr && f[12..14] == [8, 0]
    && f[26..30] == src && f[30..34] == dst && f[34..36] == [0, 68] && f[36..38] == [0, 67]
    && f[42..46] == [1, c.htype, 6, 0] && f[46..50] == xid && f[50..52] == (if timed then [0, 10] else [0, 0])
    && f[52..54] == (if timed && c.broadcastResp then [0x80, 0] else [0, 0]) && f[54..58] == ciaddr
    && (forall i :: 58 <= i < 70 ==> f[i] == 0) && (forall i :: 76 <= i < 278 ==> f[i] == 0)
    && (forall i :: 590 <= i < 1554 ==> f[i] == 0)
    && f[70..76] == c.hwAddr && f[278..282] == [99, 130, 83, 99]
  }

  /** By kind of message: what goes to the server alone, and what comes from an address. */
  predicate Sent(f: seq<byte>, k: Kind, c: Config, xid: Quad) {
    var unicast := k.Renew? || k.Release? || k.Decline?;
    Envelope(f, c,
             if unicast then c.serverHwAddr else [255, 255, 255, 255, 255, 255],
             if k.Renew? || k.Rebind? || k.Release? then c.ciaddr else [0, 0, 0, 0],
             if unicast then c.siaddr else [255, 255, 255, 255],
             xid, !k.Release? && !k.Decline?,
             if k.Inform? then c.informAddr
             else if k.Renew? || k.Rebind? || k.Release? || c.rfc1541 then c.ciaddr else [0, 0, 0, 0])
  }

  // ---------------------------------------------------------------- writing

  /** The fixed fields of the message up to ciaddr. */
  function Head(c: Config, xid: Quad, timed: bool, ciaddr: Quad): (h: seq<byte>)
    ensures |h| == 16
  {
    [1, c.htype, 6, 0] + xid + (if timed then [0, 10] else [0, 0]) +
    (if timed && c.broadcastResp then [0x80, 0] else [0, 0]) + ciaddr
  }

  lemma ZeroAddress(a: Quad)
    ensures IsZero(a) <==> a == [0, 0, 0, 0]
  {}

  lemma {:induction false} EncodeConcat(a: seq<Item>, b: seq<Item>)
    requires ValidItems(a) && ValidItems(b)
    ensures ValidItems(a + b) && Encode(a + b) == Encode(a) + Encode(b)
  {
    if a == [] {
      assert a + b == b;
    } else {
      assert (a + b)[1..] == a[1..] + b;
      EncodeConcat(a[1..], b);
    }
  }

  class Builder {
    const frame: array<byte>
    const layer: PacketLayer
    var p: nat
    ghost var base: seq<byte>
    ghost var written: seq<Item>

    constructor (layer: PacketLayer)
      ensures fresh(frame) && frame.Length == FRAME_SIZE && this.layer == layer
    {
      frame := new byte[FRAME_SIZE];
      this.layer := layer;
      p, base, written := OPTIONS_AT + 4, [], [];
    }

    /** The frame is base with the options written so far from the cookie on. */
    ghost predicate Valid()
      reads this, frame
    {
      && frame.Length == FRAME_SIZE == |base|
      && ValidItems(written)
      && p == OPTIONS_AT + 4 + |Encode(written)| < MSG_END
      && frame[..] == Splice(base, OPTIONS_AT + 4, Encode(written))
    }

    /** *p++ = tag; *p++ = length; memcpy(p,value,length); p += length */
    method Put(tag: byte, v: seq<byte>)
      requires Valid() && tag != PAD && tag != END && |v| <= 255 && p + 2 + |v| < MSG_END
      modifies this`p, this`written, frame
      ensures Valid() && written == old(written) + [Opt(tag, v)] && p == old(p) + 2 + |v|
    {
      hide Splice, Encode;
      PutRaw([tag, |v|] + v, Opt(tag, v));
    }

    method PutRaw(bytes: seq<byte>, ghost it: Item)
      requires Valid() && ValidItem(it) && bytes == EncodeItem(it) && p + |bytes| < MSG_END
      modifies this`p, this`written, frame
      ensures Valid() && written == old(written) + [it] && p == old(p) + |bytes|
    {
      hide Splice;
      EncodeConcat(written, [it]);
      assert Encode([it]) == bytes by {
        EncodeCons(it, []);
      }
      SpliceTwice(base, OPTIONS_AT + 4, Encode(written), bytes);
      Store(frame, p, bytes);
      p := p + |bytes|;
      written := written + [it];
    }

    /** The send buffer is cleared and gets Ethernet header, fixed DHCP fields and cookie. */
    method Begin(c: Config, dst: Mac, xid: Quad, timed: bool, ciaddr: Quad)
      requires frame.Length == FRAME_SIZE
      modifies this, frame
      ensures Valid() && written == [] && p == OPTIONS_AT + 4
      ensures Prepared(base, dst + c.hwAddr + [8, 0], Head(c, xid, timed, ciaddr), c.hwAddr)
    {
      hide Splice, Head;
      var eth := dst + c.hwAddr + [8, 0];
      var head := Head(c, xid, timed, ciaddr);
      var zero := Zeros(frame.Length);
      SpliceAll(frame[..], zero);
      Store(frame, 0, zero);
      Store(frame, 0, eth);
      Store(frame, MSG_AT, head);
      Store(frame, MSG_AT + 28, c.hwAddr);
      Store(frame, OPTIONS_AT, MAGIC_COOKIE);
      p := OPTIONS_AT + 4;
      written := [];
      base := frame[..];
      EncodeUnfold([]);
      assert frame[..] == Splice(base, OPTIONS_AT + 4, []) by {
        SpliceNothing(base, OPTIONS_AT + 4);
      }
      assert Prepared(base, eth, head, c.hwAddr) by {
        PreparedFields(zero, eth, head, c.hwAddr);
      }
    }

    /** *p = endOption, then the UDP and IP headers. */
    method Finish(src: Quad, dst: Quad, ghost c: Config, ghost ether: Mac, ghost xid: Quad, ghost timed: bool,
                  ghost ciaddr: Quad)
      requires Valid() && Prepared(base, ether + c.hwAddr + [8, 0], Head(c, xid, timed, ciaddr), c.hwAddr)
      modifies frame, layer
      ensures Carries(frame[..], xid, ciaddr, written)
      ensures Envelope(frame[..], c, ether, src, dst, xid, timed, ciaddr)
    {
      hide Splice, Encode, Headers, Checksum, Prepared, Envelope, Carries;
      ghost var e := Encode(written);
      SpliceTwice(base, OPTIONS_AT + 4, e, [END]);
      Store(frame, p, [END]);
      ghost var f := frame[..];
      assert f == Splice(base, OPTIONS_AT + 4, e + [END]);
      ShortFits(Summed(CLIENT_PORT, SERVER_PORT, src, dst, frame[MSG_AT..MSG_END]));
      layer.UdpIpGen(frame, IP_AT, src, dst, CLIENT_PORT, SERVER_PORT, MSG_SIZE);
      ghost var id := old(layer.ipId);
      ghost var headers := Headers(CLIENT_PORT, SERVER_PORT, src, dst, id, f[MSG_AT..MSG_END]);
      GeneratedPacketAccepted(f, IP_AT, CLIENT_PORT, SERVER_PORT, src, dst, id, MSG_SIZE);
      GeneratedFields(f, IP_AT, CLIENT_PORT, SERVER_PORT, src, dst, id, MSG_SIZE);
      FinishedKeeps(base, written, f, headers, ether + c.hwAddr + [8, 0], Head(c, xid, timed, ciaddr), c.hwAddr);
      FinishedCarries(base, written, f, headers, ether + c.hwAddr + [8, 0], Head(c, xid, timed, ciaddr), c.hwAddr);
      EnvelopeFields(frame[..], c, ether, src, dst, xid, timed, ciaddr);
      CarriesFields(frame[..], c, ether, src, dst, xid, timed, ciaddr, written);
    }

    method PutType(k: Kind, ghost c: Config)
      requires Valid() && written == [] && Ready(k, c)
      modifies this`p, this`written, frame
      ensures Valid() && written == [Opt(MESSAGE_TYPE, [MessageType(k)])] && p == OPTIONS_AT + 7
    {
      EncodeUnfold(written);
      Put(MESSAGE_TYPE, [MessageType(k)]);
    }

    method PutStored(tag: byte, c: Config)
      requires Valid() && ValidConfig(c) && tag in c.table.val && tag != PAD && tag != END && p + 6 < MSG_END
      modifies this`p, this`written, frame
      ensures Valid() && written == old(written) + [Opt(tag, Stored4(c, tag))] && p == old(p) + 6
    {
      Put(tag, First4(c.table.val[tag], c.beyond));
    }

    method PutRequestedIp(wanted: bool, c: Config)
      requires Valid() && p + 6 < MSG_END
      modifies this`p, this`written, frame
      ensures Valid() && written == old(written) + If(wanted, Opt(REQUESTED_IP, c.ciaddr)) && p <= old(p) + 6
    {
      if wanted {
        Put(REQUESTED_IP, c.ciaddr);
      }
    }

    method PutStoredLease(c: Config)
      requires Valid() && ValidConfig(c) && p + 6 < MSG_END
      modifies this`p, this`written, frame
      ensures Valid() && written == old(written) + StoredLease(c) && p <= old(p) + 6
    {
      if LEASE_TIME in c.table.val {
        PutStored(LEASE_TIME, c);
      }
    }

    /** memcpy(p,DhcpIface.client_id,DhcpIface.client_len): the field is an encoded option. */
    method PutClientId(c: Config)
      requires Valid() && ValidConfig(c) && p + |c.clientId| < MSG_END
      modifies this`p, this`written, frame
      ensures Valid() && written == old(written) + ClientItem(c)
    {
      assert c.clientId == [CLIENT_IDENTIFIER, |c.clientId[2..]|] + c.clientId[2..];
      PutRaw(c.clientId, Opt(CLIENT_IDENTIFIER, c.clientId[2..]));
    }

    method PutTail(c: Config)
      requires Valid() && ValidConfig(c) && p <= OPTIONS_AT + 64
      modifies this`p, this`written, frame
      ensures Valid() && written == old(written) + Tail(c)
    {
      Put(PARAM_REQUEST, PARAMS);
      if c.hostName != [] {
        Put(HOST_NAME, c.hostName);
      }
      Put(CLASS_IDENTIFIER, c.classId);
      PutClientId(c);
    }

    method BuildDhcpDiscover(c: Config, xid: Quad)
      requires frame.Length == FRAME_SIZE && Ready(Discover, c)
      modifies this, frame, layer
      ensures Carries(frame[..], xid, Ciaddr(Discover, c), Items(Discover, c))
      ensures Sent(frame[..], Discover, c, xid)
    {
      hide Encode, Splice, Carries, Prepared, Envelope, Head;
      var ciaddr := NO_ADDR;
      if !IsZero(c.ciaddr) && c.rfc1541 {
        ciaddr := c.ciaddr;
      }
      assert ciaddr == if c.rfc1541 then c.ciaddr else [0, 0, 0, 0] by {
        ZeroAddress(c.ciaddr);
      }
      Begin(c, [255, 255, 255, 255, 255, 255], xid, true, ciaddr);
      PutType(Discover, c);
      Put(MAX_MSG_SIZE, c.msgSize);
      PutRequestedIp(!IsZero(c.ciaddr) && !c.rfc1541, c);
      Put(LEASE_TIME, c.nleaseTime);
      PutTail(c);
      assert written == Items(Discover, c);
      Finish(NO_ADDR, BROADCAST, c, [255, 255, 255, 255, 255, 255], xid, true, ciaddr);
    }

    method BuildDhcpRequest(c: Config, xid: Quad)
      requires frame.Length == FRAME_SIZE && Ready(Request, c)
      modifies this, frame, layer
      ensures Carries(frame[..], xid, Ciaddr(Request, c), Items(Request, c))
      ensures Sent(frame[..], Request, c, xid)
    {
      hide Encode, Splice, Carries, Prepared, Envelope, Head;
      Begin(c, [255, 255, 255, 255, 255, 255], xid, true, if c.rfc1541 then c.ciaddr else NO_ADDR);
      PutType(Request, c);
      Put(MAX_MSG_SIZE, c.msgSize);
      PutStored(SERVER_IDENTIFIER, c);
      PutRequestedIp(!c.rfc1541, c);
      PutStoredLease(c);
      PutTail(c);
      assert written == Items(Request, c);
      Finish(NO_ADDR, BROADCAST, c, [255, 255, 255, 255, 255, 255], xid, true, if c.rfc1541 then c.ciaddr else NO_ADDR);
    }

    method BuildDhcpRenew(c: Config, xid: Quad)
      requires frame.Length == FRAME_SIZE && Ready(Renew, c)
      modifies this, frame, layer
      ensures Carries(frame[..], xid, Ciaddr(Renew, c), Items(Renew, c))
      ensures Sent(frame[..], Renew, c, xid)
    {
      hide Encode, Splice, Carries, Prepared, Envelope, Head;
      Begin(c, c.serverHwAddr, xid, true, c.ciaddr);
      PutType(Renew, c);
      Put(MAX_MSG_SIZE, c.msgSize);
      PutTail(c);
      assert written == Items(Renew, c);
      Finish(c.ciaddr, c.siaddr, c, c.serverHwAddr, xid, true, c.ciaddr);
    }

    method BuildDhcpRebind(c: Config, xid: Quad)
      requires frame.Length == FRAME_SIZE && Ready(Rebind, c)
      modifies this, frame, layer
      ensures Carries(frame[..], xid, Ciaddr(Rebind, c), Items(Rebind, c))
      ensures Sent(frame[..], Rebind, c, xid)
    {
      hide Encode, Splice, Carries, Prepared, Envelope, Head;
      Begin(c, [255, 255, 255, 255, 255, 255], xid, true, c.ciaddr);
      PutType(Rebind, c);
      Put(MAX_MSG_SIZE, c.msgSize);
      PutStoredLease(c);
      PutTail(c);
      assert written == Items(Rebind, c);
      Finish(c.ciaddr, BROADCAST, c, [255, 255, 255, 255, 255, 255], xid, true, c.ciaddr);
    }

    method BuildDhcpReboot(c: Config, xid: Quad)
      requires frame.Length == FRAME_SIZE && Ready(Reboot, c)
      modifies this, frame, layer
      ensures Carries(frame[..], xid, Ciaddr(Reboot, c), Items(Reboot, c))
      ensures Sent(frame[..], Reboot, c, xid)
    {
      hide Encode, Splice, Carries, Prepared, Envelope, Head;
      Begin(c, [255, 255, 255, 255, 255, 255], xid, true, if c.rfc1541 then c.ciaddr else NO_ADDR);
      PutType(Reboot, c);
      Put(MAX_MSG_SIZE, c.msgSize);
      PutRequestedIp(!c.rfc1541, c);
      Put(LEASE_TIME, c.nleaseTime);
      PutTail(c);
      assert written == Items(Reboot, c);
      Finish(NO_ADDR, BROADCAST, c, [255, 255, 255, 255, 255, 255], xid, true, if c.rfc1541 then c.ciaddr else NO_ADDR);
    }

    method BuildDhcpRelease(c: Config, xid: Quad)
      requires frame.Length == FRAME_SIZE && Ready(Release, c)
      modifies this, frame, layer
      ensures Carries(frame[..], xid, Ciaddr(Release, c), Items(Release, c))
      ensures Sent(frame[..], Release, c, xid)
    {
      hide Encode, Splice, Carries, Prepared, Envelope, Head;
      Begin(c, c.serverHwAddr, xid, false, c.ciaddr);
      PutType(Release, c);
      PutStored(SERVER_IDENTIFIER, c);
      PutClientId(c);
      assert written == Items(Release, c);
      Finish(c.ciaddr, c.siaddr, c, c.serverHwAddr, xid, false, c.ciaddr);
    }

    method BuildDhcpDecline(c: Config, xid: Quad)
      requires frame.Length == FRAME_SIZE && Ready(Decline, c)
      modifies this, frame, layer
      ensures Carries(frame[..], xid, Ciaddr(Decline, c), Items(Decline, c))
      ensures Sent(frame[..], Decline, c, xid)
    {
      hide Encode, Splice, Carries, Prepared, Envelope, Head;
      Begin(c, c.serverHwAddr, xid, false, if c.rfc1541 then c.ciaddr else NO_ADDR);
      PutType(Decline, c);
      PutStored(SERVER_IDENTIFIER, c);
      PutRequestedIp(!c.rfc1541, c);
      PutClientId(c);
      assert written == Items(Decline, c);
      Finish(NO_ADDR, c.siaddr, c, c.serverHwAddr, xid, false, if c.rfc1541 then c.ciaddr else NO_ADDR);
    }

    method BuildDhcpInform(c: Config, xid: Quad)
      requires frame.Length == FRAME_SIZE && Ready(Inform, c)
      modifies this, frame, layer
      ensures Carries(frame[..], xid, Ciaddr(Inform, c), Items(Inform, c))
      ensures Sent(frame[..], Inform, c, xid)
    {
      hide Encode, Splice, Carries, Prepared, Envelope, Head;
      Begin(c, [255, 255, 255, 255, 255, 255], xid, true, c.informAddr);
      PutType(Inform, c);
      Put(MAX_MSG_SIZE, c.msgSize);
      PutTail(c);
      assert written == Items(Inform, c);
      Finish(NO_ADDR, BROADCAST, c, [255, 255, 255, 255, 255, 255], xid, true, c.informAddr);
    }
  }

  // ---------------------------------------------------------------- RFC 2131, table 5

  predicate Has(items: seq<Item>, tag: byte) {
    exists i :: 0 <= i < |items| && items[i].Opt? && items[i].tag == tag
  }

  lemma HasConcat(a: seq<Item>, b: seq<Item>, tag: byte)
    ensures Has(a + b, tag) <==> Has(a, tag) || Has(b, tag)
  {
    if Has(a, tag) {
      var i :| 0 <= i < |a| && a[i].Opt? && a[i].tag == tag;
      assert (a + b)[i] == a[i];
    }
    if Has(b, tag) {
      var i :| 0 <= i < |b| && b[i].Opt? && b[i].tag == tag;
      assert (a + b)[|a| + i] == b[i];
    }
  }

  /** The options table 5 lets DHCPDECLINE and DHCPRELEASE carry: requested address, overload, type,
      server identifier, message and client identifier; all others it forbids there. */
  predicate Terminal(tag: byte) {
    tag in {50, 52, 53, 54, 56, 61}
  }

  /** The MUST and MUST NOT entries of the option part of table 5 (section 4.4.1 of RFC 2131), and its
      ciaddr row, for a client's messages; own is the client's address. */
  predicate Table5(k: Kind, items: seq<Item>, ciaddr: Quad, own: Quad) {
    var address, server := Has(items, REQUESTED_IP), Has(items, SERVER_IDENTIFIER);
    && Has(items, MESSAGE_TYPE)
    && match k
       case Discover => !server && ciaddr == NO_ADDR
       case Request => address && server && ciaddr == NO_ADDR
       case Reboot => address && !server && ciaddr == NO_ADDR
       case Renew | Rebind => !address && !server && ciaddr == own
       case Inform => !address && !server && !Has(items, LEASE_TIME) && ciaddr == own
       case Decline => address && server && ciaddr == NO_ADDR && Bare(items)
       case Release => !address && server && ciaddr == own && Bare(items)
  }

  predicate Bare(items: seq<Item>) {
    forall tag: byte :: Has(items, tag) ==> Terminal(tag)
  }

  lemma HasIn(k: Kind, c: Config, tag: byte)
    requires Ready(k, c)
    ensures Has(Items(k, c), tag) <==>
            tag == MESSAGE_TYPE || Has(Middle(k, c), tag) || tag == CLIENT_IDENTIFIER ||
            (!k.Release? && !k.Decline? &&
             (tag == PARAM_REQUEST || tag == CLASS_IDENTIFIER || (tag == HOST_NAME && c.hostName != [])))
  {
    var kind := [Opt(MESSAGE_TYPE, [MessageType(k)])];
    assert kind[0].tag == MESSAGE_TYPE && ClientItem(c)[0].tag == CLIENT_IDENTIFIER;
    HasConcat(kind + Middle(k, c), if k.Release? || k.Decline? then ClientItem(c) else Tail(c), tag);
    HasConcat(kind, Middle(k, c), tag);
    var list, host := [Opt(PARAM_REQUEST, PARAMS)], If(c.hostName != [], Opt(HOST_NAME, c.hostName));
    var vendor := [Opt(CLASS_IDENTIFIER, c.classId)];
    HasConcat(list + host + vendor, ClientItem(c), tag);
    HasConcat(list + host, vendor, tag);
    HasConcat(list, host, tag);
    assert list[0].tag == PARAM_REQUEST && vendor[0].tag == CLASS_IDENTIFIER;
    assert c.hostName != [] ==> host[0].tag == HOST_NAME;
  }

  lemma HasInMiddle(k: Kind, c: Config, tag: byte)
    requires Ready(k, c)
    ensures Has(Middle(k, c), tag) <==>
            (tag == MAX_MSG_SIZE && !k.Release? && !k.Decline?) ||
            (tag == SERVER_IDENTIFIER && (k.Request? || k.Release? || k.Decline?)) ||
            (tag == REQUESTED_IP && !c.rfc1541 &&
             (k.Request? || k.Reboot? || k.Decline? || (k.Discover? && !IsZero(c.ciaddr)))) ||
            (tag == LEASE_TIME &&
             (k.Discover? || k.Reboot? || ((k.Request? || k.Rebind?) && LEASE_TIME in c.table.val)))
  {
    var size, ip, time := SizeItem(c), Opt(REQUESTED_IP, c.ciaddr), [Opt(LEASE_TIME, c.nleaseTime)];
    assert size[0].tag == MAX_MSG_SIZE && time[0].tag == LEASE_TIME;
    var noIp, withIp := If(false, ip), If(true, ip);
    assert withIp[0].tag == REQUESTED_IP && noIp == [];
    match k
    case Discover =>
      var ask := If(!IsZero(c.ciaddr) && !c.rfc1541, ip);
      HasConcat(size + ask, time, tag);
      HasConcat(size, ask, tag);
    case Request =>
      assert ServerItem(c)[0].tag == SERVER_IDENTIFIER;
      assert LEASE_TIME in c.table.val ==> StoredLease(c)[0].tag == LEASE_TIME;
      HasConcat(size + ServerItem(c) + If(!c.rfc1541, ip), StoredLease(c), tag);
      HasConcat(size + ServerItem(c), If(!c.rfc1541, ip), tag);
      HasConcat(size, ServerItem(c), tag);
    case Rebind =>
      assert LEASE_TIME in c.table.val ==> StoredLease(c)[0].tag == LEASE_TIME;
      HasConcat(size, StoredLease(c), tag);
    case Reboot =>
      HasConcat(size + If(!c.rfc1541, ip), time, tag);
      HasConcat(size, If(!c.rfc1541, ip), tag);
    case Decline =>
      assert ServerItem(c)[0].tag == SERVER_IDENTIFIER;
      HasConcat(ServerItem(c), If(!c.rfc1541, ip), tag);
    case Release =>
      assert ServerItem(c)[0].tag == SERVER_IDENTIFIER;
    case Renew =>
    case Inform =>
  }

  /** Which options a message carries. */
  predicate Carried(k: Kind, c: Config, tag: byte)
    requires Ready(k, c)
  {
    var ends := k.Release? || k.Decline?;
    match tag
    case 53 | 61 => true
    case 55 | 60 | 57 => !ends
    case 12 => !ends && c.hostName != []
    case 54 => k.Request? || ends
    case 50 => !c.rfc1541 && (k.Request? || k.Reboot? || k.Decline? || (k.Discover? && !IsZero(c.ciaddr)))
    case 51 => k.Discover? || k.Reboot? || ((k.Request? || k.Rebind?) && LEASE_TIME in c.table.val)
    case _ => false
  }

  lemma CarriedIff(k: Kind, c: Config, tag: byte)
    requires Ready(k, c)
    ensures Has(Items(k, c), tag) <==> Carried(k, c, tag)
  {
    hide Items, Middle, Has;
    HasIn(k, c, tag);
    HasInMiddle(k, c, tag);
  }

  /** What each option says, in the message's own terms. */
  predicate Says(k: Kind, c: Config, it: Item)
    requires Ready(k, c)
  {
    it.Opt? &&
    match it.tag
    case 53 => it.value == [if k.Discover? then 1 else if k.Release? then 7 else if k.Decline? then 4
                            else if k.Inform? then 8 else 3]
    case 57 => it.value == c.msgSize
    case 50 => it.value == c.ciaddr
    case 51 =>
      if k.Discover? || k.Reboot? then it.value == c.nleaseTime
      else LEASE_TIME in c.table.val && it.value == First4(c.table.val[LEASE_TIME], c.beyond)
    case 54 => SERVER_IDENTIFIER in c.table.val && it.value == First4(c.table.val[SERVER_IDENTIFIER], c.beyond)
    case 55 => it.value == [1, 3, 6, 12, 15, 17, 23, 28, 29, 31, 33, 40, 41, 42]
    case 12 => it.value == c.hostName
    case 60 => it.value == c.classId
    case 61 => it.value == c.clientId[2..]
    case _ => false
  }

  predicate AllSay(k: Kind, c: Config, items: seq<Item>)
    requires Ready(k, c)
  {
    forall i :: 0 <= i < |items| ==> Says(k, c, items[i])
  }

  lemma AllSayConcat(k: Kind, c: Config, a: seq<Item>, b: seq<Item>)
    requires Ready(k, c) && AllSay(k, c, a) && AllSay(k, c, b)
    ensures AllSay(k, c, a + b)
  {
    hide Says;
  }

  lemma OneSays(k: Kind, c: Config, it: Item)
    requires Ready(k, c) && Says(k, c, it)
    ensures AllSay(k, c, [it])
  {
    hide Says;
  }

  lemma TailSays(k: Kind, c: Config)
    requires Ready(k, c)
    ensures AllSay(k, c, Tail(c)) && AllSay(k, c, ClientItem(c))
  {
    var list, host := Opt(PARAM_REQUEST, PARAMS), If(c.hostName != [], Opt(HOST_NAME, c.hostName));
    var vendor := Opt(CLASS_IDENTIFIER, c.classId);
    OneSays(k, c, list);
    OneSays(k, c, Opt(HOST_NAME, c.hostName));
    OneSays(k, c, vendor);
    OneSays(k, c, Opt(CLIENT_IDENTIFIER, c.clientId[2..]));
    assert AllSay(k, c, host);
    AllSayConcat(k, c, [list], host);
    AllSayConcat(k, c, [list] + host, [vendor]);
    AllSayConcat(k, c, [list] + host + [vendor], ClientItem(c));
  }

  lemma MiddleSays(k: Kind, c: Config)
    requires Ready(k, c)
    ensures AllSay(k, c, Middle(k, c))
  {
    var ip := Opt(REQUESTED_IP, c.ciaddr);
    OneSays(k, c, Opt(MAX_MSG_SIZE, c.msgSize));
    OneSays(k, c, ip);
    var size := SizeItem(c);
    hide AllSay;
    NoneSay(k, c);
    match k
    case Discover =>
      OneSays(k, c, Opt(LEASE_TIME, c.nleaseTime));
      AllSayConcat(k, c, size, If(!IsZero(c.ciaddr) && !c.rfc1541, ip));
      AllSayConcat(k, c, size + If(!IsZero(c.ciaddr) && !c.rfc1541, ip), [Opt(LEASE_TIME, c.nleaseTime)]);
    case Request =>
      OneSays(k, c, ServerItem(c)[0]);
      StoredSays(k, c);
      AllSayConcat(k, c, size, ServerItem(c));
      AllSayConcat(k, c, size + ServerItem(c), If(!c.rfc1541, ip));
      AllSayConcat(k, c, size + ServerItem(c) + If(!c.rfc1541, ip), StoredLease(c));
    case Renew =>
    case Rebind =>
      StoredSays(k, c);
      AllSayConcat(k, c, size, StoredLease(c));
    case Reboot =>
      OneSays(k, c, Opt(LEASE_TIME, c.nleaseTime));
      AllSayConcat(k, c, size, If(!c.rfc1541, ip));
      AllSayConcat(k, c, size + If(!c.rfc1541, ip), [Opt(LEASE_TIME, c.nleaseTime)]);
    case Release => OneSays(k, c, ServerItem(c)[0]);
    case Decline =>
      OneSays(k, c, ServerItem(c)[0]);
      AllSayConcat(k, c, ServerItem(c), If(!c.rfc1541, ip));
    case Inform =>
  }

  lemma NoneSay(k: Kind, c: Config)
    requires Ready(k, c)
    ensures AllSay(k, c, [])
  {}

  lemma StoredSays(k: Kind, c: Config)
    requires Ready(k, c) && (k.Request? || k.Rebind?)
    ensures AllSay(k, c, StoredLease(c))
  {}

  /** Every option of every message says what it should, and none comes twice: there are as many
      options as tags carried. */
  lemma ItemsSay(k: Kind, c: Config)
    requires Ready(k, c)
    ensures AllSay(k, c, Items(k, c))
    ensures var n := (tag: byte) => if Carried(k, c, tag) then 1 else 0;
      |Items(k, c)| == n(53) + n(61) + n(55) + n(60) + n(57) + n(12) + n(54) + n(50) + n(51)
  {
    var kind := [Opt(MESSAGE_TYPE, [MessageType(k)])];
    OneSays(k, c, kind[0]);
    MiddleSays(k, c);
    TailSays(k, c);
    hide AllSay;
    AllSayConcat(k, c, kind, Middle(k, c));
    AllSayConcat(k, c, kind + Middle(k, c), if k.Release? || k.Decline? then ClientItem(c) else Tail(c));
  }

  /** A message obeys table 5 unless the client was told to be an RFC 1541 client and the
      message is one that names a wanted address. */
  lemma Table5Iff(k: Kind, c: Config)
    requires Ready(k, c)
    ensures Table5(k, Items(k, c), Ciaddr(k, c), if k.Inform? then c.informAddr else c.ciaddr) <==>
            !c.rfc1541 || k.Renew? || k.Rebind? || k.Release? || k.Inform? || (k.Discover? && IsZero(c.ciaddr))
  {
    hide Items, Middle, Has;
    forall tag: byte ensures Has(Items(k, c), tag) <==> Carried(k, c, tag) {
      CarriedIff(k, c, tag);
    }
  }

  // ---------------------------------------------------------------- header fields

  /** Ethernet header, fixed fields and cookie are in place, and nothing else is. */
  predicate Prepared(b: seq<byte>, eth: seq<byte>, head: seq<byte>, hw: Mac) {
    && |b| == FRAME_SIZE && |eth| == 14 && |head| == 16
    && b[0..14] == eth && b[42..58] == head && b[58..70] == Zeros(12) && b[70..76] == hw
    && b[76..278] == Zeros(202) && b[278..282] == MAGIC_COOKIE && b[590..1554] == Zeros(964)
  }

  lemma SpliceNothing(s: seq<byte>, i: nat)
    requires i <= |s|
    ensures Splice(s, i, []) == s
  {}

  lemma PreparedFields(zero: seq<byte>, eth: seq<byte>, head: seq<byte>, hw: Mac)
    requires zero == Zeros(FRAME_SIZE) && |eth| == 14 && |head| == 16
    ensures var front := Splice(Splice(zero, 0, eth), MSG_AT, head);
            Prepared(Splice(Splice(front, MSG_AT + 28, hw), OPTIONS_AT, MAGIC_COOKIE), eth, head, hw)
  {
    hide Splice;
    var e := Splice(zero, 0, eth);
    var h := Splice(e, MSG_AT, head);
    var g := Splice(h, MSG_AT + 28, hw);
    SliceIn(zero, 0, eth, 0, 14);
    SliceIn(e, MSG_AT, head, 0, 16);
    SliceIn(h, MSG_AT + 28, hw, 0, 6);
    SliceIn(g, OPTIONS_AT, MAGIC_COOKIE, 0, 4);
    SliceOut(e, MSG_AT, head, 0, 14);
    SliceOut(h, MSG_AT + 28, hw, 0, 14);
    SliceOut(g, OPTIONS_AT, MAGIC_COOKIE, 0, 14);
    SliceOut(h, MSG_AT + 28, hw, 42, 58);
    SliceOut(g, OPTIONS_AT, MAGIC_COOKIE, 42, 58);
    SliceOut(g, OPTIONS_AT, MAGIC_COOKIE, 70, 76);
    StaysZero(zero, eth, head, hw, 58, 70);
    StaysZero(zero, eth, head, hw, 76, 278);
    StaysZero(zero, eth, head, hw, 590, 1554);
  }

  lemma StaysZero(zero: seq<byte>, eth: seq<byte>, head: seq<byte>, hw: Mac, i: nat, j: nat)
    requires zero == Zeros(FRAME_SIZE) && |eth| == 14 && |head| == 16 && i <= j
    requires (58 <= i && j <= 70) || (76 <= i && j <= 278) || (282 <= i && j <= FRAME_SIZE)
    ensures var front := Splice(Splice(zero, 0, eth), MSG_AT, head);
            Splice(Splice(front, MSG_AT + 28, hw), OPTIONS_AT, MAGIC_COOKIE)[i..j] == Zeros(j - i)
  {
    hide Splice;
    var e := Splice(zero, 0, eth);
    var h := Splice(e, MSG_AT, head);
    SliceOut(zero, 0, eth, i, j);
    SliceOut(e, MSG_AT, head, i, j);
    SliceOut(h, MSG_AT + 28, hw, i, j);
    SliceOut(Splice(h, MSG_AT + 28, hw), OPTIONS_AT, MAGIC_COOKIE, i, j);
    assert zero[i..j] == Zeros(j - i);
  }

  /** Options and headers leave the rest of the frame. */
  lemma FinishedKeeps(base: seq<byte>, items: seq<Item>, f: seq<byte>, headers: seq<byte>, eth: seq<byte>,
                      head: seq<byte>, hw: Mac)
    requires Prepared(base, eth, head, hw) && ValidItems(items) && OPTIONS_AT + 4 + |Encode(items)| < MSG_END
    requires f == Splice(base, OPTIONS_AT + 4, Encode(items) + [END]) && |headers| == 28
    ensures Prepared(Splice(f, IP_AT, headers), eth, head, hw)
  {
    hide Splice, Encode;
    var e, o := Encode(items) + [END], OPTIONS_AT + 4;
    KeepSlice(base, o, e, headers, 0, 14);
    KeepSlice(base, o, e, headers, 42, 58);
    KeepSlice(base, o, e, headers, 58, 70);
    KeepSlice(base, o, e, headers, 70, 76);
    KeepSlice(base, o, e, headers, 76, 278);
    KeepSlice(base, o, e, headers, 278, 282);
    KeepSlice(base, o, e, headers, 590, 1554);
  }

  /** The option field of a finished frame reads as the list written. */
  lemma FinishedCarries(base: seq<byte>, items: seq<Item>, f: seq<byte>, headers: seq<byte>, eth: seq<byte>,
                        head: seq<byte>, hw: Mac)
    requires Prepared(base, eth, head, hw) && ValidItems(items) && OPTIONS_AT + 4 + |Encode(items)| < MSG_END
    requires f == Splice(base, OPTIONS_AT + 4, Encode(items) + [END]) && |headers| == 28
    ensures Decode(Splice(f, IP_AT, headers)[OPTIONS_AT..], 4, OPTIONS_SIZE) == items
  {
    hide Splice, Decode, Encode;
    var e := Encode(items);
    var g := Splice(f, IP_AT, headers);
    var o := OPTIONS_AT + 4;
    SliceOut(f, IP_AT, headers, o, o + |e| + 1);
    SliceIn(base, o, e + [END], 0, |e| + 1);
    var s := g[OPTIONS_AT..];
    assert s[4..4 + |e + [END]|] == g[o..o + |e| + 1] == e + [END];
    AtSplit(s, 4, e, [END]);
    assert s[4 + |e|] == [END][0];
    DecodeEncode(s, 4, OPTIONS_SIZE, items);
  }

  lemma KeepSlice(base: seq<byte>, o: nat, e: seq<byte>, headers: seq<byte>, a: nat, c: nat)
    requires |headers| == 28 && a <= c <= |base| && MSG_AT <= o && o + |e| <= |base|
    requires (c <= o || o + |e| <= a) && (c <= IP_AT || MSG_AT <= a)
    ensures Splice(Splice(base, o, e), IP_AT, headers)[a..c] == base[a..c]
  {
    SliceOut(Splice(base, o, e), IP_AT, headers, a, c);
    SliceOut(base, o, e, a, c);
  }

  lemma HeadFields(c: Config, xid: Quad, timed: bool, ciaddr: Quad)
    ensures var h := Head(c, xid, timed, ciaddr);
            && h[0..4] == [1, c.htype, 6, 0] && h[4..8] == xid
            && h[8..10] == (if timed then [0, 10] else [0, 0])
            && h[10..12] == (if timed && c.broadcastResp then [0x80, 0] else [0, 0]) && h[12..16] == ciaddr
  {}

  lemma EnvelopeFields(f: seq<byte>, c: Config, ether: Mac, src: Quad, dst: Quad, xid: Quad, timed: bool, ciaddr: Quad)
    requires Prepared(f, ether + c.hwAddr + [8, 0], Head(c, xid, timed, ciaddr), c.hwAddr)
    requires f[26..30] == src && f[30..34] == dst && f[34..36] == CLIENT_PORT && f[36..38] == SERVER_PORT
    ensures Envelope(f, c, ether, src, dst, xid, timed, ciaddr)
  {
    HeadFields(c, xid, timed, ciaddr);
    hide Head;
    var eth := ether + c.hwAddr + [8, 0];
    assert eth[0..6] == ether && eth[6..12] == c.hwAddr && eth[12..14] == [8, 0];
    SliceOfSlice(f, 0, 14, 0, 6);
    SliceOfSlice(f, 0, 14, 6, 12);
    SliceOfSlice(f, 0, 14, 12, 14);
    SliceOfSlice(f, 42, 58, 0, 4);
    SliceOfSlice(f, 42, 58, 4, 8);
    SliceOfSlice(f, 42, 58, 8, 10);
    SliceOfSlice(f, 42, 58, 10, 12);
    SliceOfSlice(f, 42, 58, 12, 16);
    ZeroSlice(f, 58, 70);
    ZeroSlice(f, 76, 278);
    ZeroSlice(f, 590, 1554);
  }

  lemma ZeroSlice(f: seq<byte>, i: nat, j: nat)
    requires i <= j <= |f| && f[i..j] == Zeros(j - i)
    ensures forall k :: i <= k < j ==> f[k] == 0
  {
    forall k | i <= k < j ensures f[k] == 0 {
      assert f[k] == f[i..j][k - i];
    }
  }

  lemma CarriesFields(f: seq<byte>, c: Config, ether: Mac, src: Quad, dst: Quad, xid: Quad, timed: bool, ciaddr: Quad,
                      items: seq<Item>)
    requires Envelope(f, c, ether, src, dst, xid, timed, ciaddr)
    requires InBuffer(f, IP_AT) && Accepts(f, IP_AT) && HeaderLen(f, IP_AT) == 20
    requires UdpLen(f, IP_AT + 20) == MSG_SIZE + 8
    requires Decode(f[OPTIONS_AT..], 4, OPTIONS_SIZE) == items
    ensures Carries(f, xid, ciaddr, items)
  {
    hide InBuffer, Accepts, Decode;
    assert f[12] == f[12..14][0] && f[13] == f[12..14][1] && f[42] == f[42..46][0] && f[44] == f[42..46][2];
  }
}

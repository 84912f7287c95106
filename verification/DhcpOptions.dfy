/** The option area of a DHCP message and the option table of network/dhcpcd/client.c
    (section 2 of RFC 2132; parseDhcpMsgRecv). */
module DhcpOptions {
  import opened Bytes

  const PAD: byte := 0
  const SUBNET_MASK: byte := 1
  const DNS: byte := 6
  const BROADCAST_ADDR: byte := 28
  const LEASE_TIME: byte := 51
  const MESSAGE_TYPE: byte := 53
  const SERVER_IDENTIFIER: byte := 54
  const T1_VALUE: byte := 58
  const T2_VALUE: byte := 59
  const END: byte := 255

  const OPTIONS_SIZE := 312

  /** Four bytes as they lie in memory: an address, or a number in network order. */
  type Quad = s: seq<byte> | |s| == 4 witness [0, 0, 0, 0]

  // ---------------------------------------------------------------- the wire format

  datatype Item = Pad | Opt(tag: byte, value: seq<byte>)

  predicate ValidItem(it: Item) {
    it.Opt? ==> it.tag != PAD && it.tag != END && |it.value| <= 255
  }

  predicate ValidItems(items: seq<Item>) {
    forall i :: 0 <= i < |items| ==> ValidItem(items[i])
  }

  function EncodeItem(it: Item): seq<byte>
    requires ValidItem(it)
  {
    match it
    case Pad => [PAD]
    case Opt(tag, value) => [tag, |value|] + value
  }

  function Encode(items: seq<Item>): seq<byte>
    requires ValidItems(items)
  {
    if items == [] then [] else EncodeItem(items[0]) + Encode(items[1..])
  }

  /** Every byte a scan starting before end can touch is there: the length byte and 255 value
      bytes may lie behind end, still inside the receive buffer. */
  predicate Scannable(s: seq<byte>, p: nat, end: nat) {
    p <= end + 256 && end + 257 <= |s|
  }

  /** What the scan from p reads: it stops at an end tag or at end, and an option that starts
      before end is read whole. */
  function Decode(s: seq<byte>, p: nat, end: nat): (items: seq<Item>)
    requires Scannable(s, p, end)
    ensures ValidItems(items)
    decreases |s| - p
  {
    if p >= end || s[p] == END then []
    else if s[p] == PAD then [Pad] + Decode(s, p + 1, end)
    else [Opt(s[p], s[p + 2..p + 2 + s[p + 1]])] + Decode(s, p + 2 + s[p + 1], end)
  }

  predicate At(s: seq<byte>, p: nat, t: seq<byte>) {
    p + |t| <= |s| && s[p..p + |t|] == t
  }

  predicate Stops(s: seq<byte>, p: nat, end: nat) {
    p >= end || (p < |s| && s[p] == END)
  }

  lemma AtSplit(s: seq<byte>, p: nat, t: seq<byte>, u: seq<byte>)
    requires At(s, p, t + u)
    ensures At(s, p, t) && At(s, p + |t|, u)
  {
    var whole := s[p..p + |t + u|];
    assert s[p..p + |t|] == whole[..|t|] == t;
    assert s[p + |t|..p + |t| + |u|] == whole[|t|..] == u;
  }

  lemma DecodeHead(s: seq<byte>, p: nat, end: nat, it: Item)
    requires Scannable(s, p, end) && ValidItem(it) && p < end
    requires At(s, p, EncodeItem(it)) && p + |EncodeItem(it)| <= end + 256
    ensures Decode(s, p, end) == [it] + Decode(s, p + |EncodeItem(it)|, end)
  {
    var e := EncodeItem(it);
    var r := s[p..p + |e|];
    assert s[p] == r[0];
    if it.Opt? {
      assert s[p + 1] == r[1];
      assert s[p + 2..p + |e|] == r[2..] == it.value;
    }
  }

  /** Whatever list is written and closed by an end tag (or fills the area) is read back whole:
      every option, every pad, in order. */
  lemma {:induction false} DecodeEncode(s: seq<byte>, p: nat, end: nat, items: seq<Item>)
    requires Scannable(s, p, end) && ValidItems(items)
    requires At(s, p, Encode(items)) && p + |Encode(items)| <= end
    requires Stops(s, p + |Encode(items)|, end)
    ensures Decode(s, p, end) == items
    decreases |items|
  {
    hide Encode, EncodeItem, Decode;
    EncodeUnfold(items);
    if items == [] {
      DecodeStops(s, p, end);
    } else {
      var e, rest := EncodeItem(items[0]), items[1..];
      var q := p + |e|;
      AtSplit(s, p, e, Encode(rest));
      assert q + |Encode(rest)| == p + |Encode(items)|;
      DecodeEncode(s, q, end, rest);
      DecodeHead(s, p, end, items[0]);
    }
  }

  lemma EncodeUnfold(items: seq<Item>)
    requires ValidItems(items)
    ensures Encode(items) == if items == [] then [] else EncodeItem(items[0]) + Encode(items[1..])
    ensures items != [] ==> |EncodeItem(items[0])| > 0
  {}

  lemma DecodeStops(s: seq<byte>, p: nat, end: nat)
    requires Scannable(s, p, end) && Stops(s, p, end)
    ensures Decode(s, p, end) == []
  {}

  /** The same in octets: a pad is 0, an option its tag, its length and its value, and 255 ends the list. */
  lemma OptionOctets(s: seq<byte>, p: nat, end: nat, items: seq<Item>, tag: byte, value: seq<byte>)
    requires Scannable(s, p, end) && ValidItems(items) && At(s, p, Encode(items)) && p + |Encode(items)| < end
    requires s[p + |Encode(items)|] == 255
    requires tag != 0 && tag != 255 && |value| <= 255
    ensures Decode(s, p, end) == items
    ensures Encode([Pad]) == [0] && Encode([Opt(tag, value)]) == [tag, |value|] + value
  {
    DecodeEncode(s, p, end, items);
    assert [Pad][1..] == [] && [Opt(tag, value)][1..] == [];
  }

  /** Conversely the list read is exactly what stands in the buffer up to where the scan stops. */
  lemma {:induction false} EncodeDecode(s: seq<byte>, p: nat, end: nat)
    requires Scannable(s, p, end)
    ensures var e := Encode(Decode(s, p, end)); At(s, p, e) && Stops(s, p + |e|, end)
    decreases |s| - p
  {
    hide Encode, Decode, EncodeItem;
    if Stops(s, p, end) {
      DecodeStops(s, p, end);
      EncodeUnfold([]);
    } else {
      var it := FirstItem(s, p, end);
      var e := EncodeItem(it);
      DecodeHead(s, p, end, it);
      var rest := Decode(s, p + |e|, end);
      EncodeDecode(s, p + |e|, end);
      AtJoin(s, p, e, Encode(rest));
      EncodeCons(it, rest);
      assert p + |e + Encode(rest)| == p + |e| + |Encode(rest)|;
    }
  }

  /** The item a scan finds at p. */
  lemma FirstItem(s: seq<byte>, p: nat, end: nat) returns (it: Item)
    requires Scannable(s, p, end) && !Stops(s, p, end)
    ensures it == if s[p] == PAD then Pad else Opt(s[p], s[p + 2..p + 2 + s[p + 1]])
    ensures ValidItem(it) && At(s, p, EncodeItem(it)) && 0 < |EncodeItem(it)| <= end + 256 - p
  {
    it := if s[p] == PAD then Pad else Opt(s[p], s[p + 2..p + 2 + s[p + 1]]);
    assert s[p..p + |EncodeItem(it)|] == EncodeItem(it);
  }

  lemma AtJoin(s: seq<byte>, p: nat, t: seq<byte>, u: seq<byte>)
    requires At(s, p, t) && At(s, p + |t|, u)
    ensures At(s, p, t + u)
  {
    assert s[p..p + |t + u|] == s[p..p + |t|] + s[p + |t|..p + |t| + |u|];
  }

  lemma EncodeCons(it: Item, rest: seq<Item>)
    requires ValidItem(it) && ValidItems(rest)
    ensures Encode([it] + rest) == EncodeItem(it) + Encode(rest)
  {
    assert ([it] + rest)[1..] == rest;
  }

  // ---------------------------------------------------------------- the option table

  /** num and val of struct dhcpOptions; a tag is a key when its val pointer is set. */
  datatype Options = Options(num: byte, val: map<byte, seq<byte>>)

  function Put(o: Options, tag: byte, v: seq<byte>): Options {
    Options(if tag in o.val then o.num else (o.num + 1) % 256, o.val[tag := v])
  }

  /** Options in the order read; an option without value bytes is skipped. */
  function Take(o: Options, it: Item): Options {
    if it.Opt? && it.value != [] then Put(o, it.tag, it.value) else o
  }

  function Apply(o: Options, items: seq<Item>): Options
    decreases |items|
  {
    if items == [] then o else Apply(Take(o, items[0]), items[1..])
  }

  /** The last non-empty value an item list gives a tag; [] when there is none. */
  function Last(items: seq<Item>, tag: byte): seq<byte> {
    if items == [] then []
    else
      var v := Last(items[1..], tag);
      if v == [] && items[0].Opt? && items[0].tag == tag then items[0].value else v
  }

  /** Every tag the list gives a value gets its last one, all others keep theirs. */
  lemma {:induction false} ApplyGivesLast(o: Options, items: seq<Item>, tag: byte)
    ensures var r := Apply(o, items);
            && (Last(items, tag) != [] ==> tag in r.val && r.val[tag] == Last(items, tag))
            && (Last(items, tag) == [] ==>
                  (tag in r.val <==> tag in o.val) && (tag in o.val ==> r.val[tag] == o.val[tag]))
    decreases |items|
  {
    if items != [] {
      ApplyGivesLast(Take(o, items[0]), items[1..], tag);
    }
  }

  /** num is exact when it counts the set entries, as far as a byte can. */
  predicate Exact(o: Options) {
    o.num == |o.val| % 256
  }

  lemma SetGrows(val: map<byte, seq<byte>>, tag: byte, v: seq<byte>)
    ensures |val[tag := v]| == if tag in val then |val| else |val| + 1
  {
    assert val[tag := v].Keys == val.Keys + {tag};
    assert |val[tag := v].Keys| == |val[tag := v]| && |val.Keys| == |val|;
  }

  // ---------------------------------------------------------------- the whole message

  /** What parseDhcpMsgRecv reads besides the option area: the sender's IP address, yiaddr of
      the reply, ciaddr of the request, the configured lease time in network order, and the
      bytes that happen to follow an allocation read past its end. */
  datatype Reply = Reply(items: seq<Item>, sender: Quad, yiaddr: Quad, ciaddr: Quad, nleaseTime: Quad, beyond: Quad)

  /** The first four bytes at a value: its own, its terminating zero, then whatever follows. */
  function First4(v: seq<byte>, beyond: Quad): Quad
    requires v != []
  {
    (v + [0] + beyond)[..4]
  }

  /** The natural mask of an address class. */
  function ClassMask(a: Quad): Quad {
    if a[0] < 128 then [255, 0, 0, 0]
    else if a[0] < 192 then [255, 255, 0, 0]
    else if a[0] < 224 then [255, 255, 255, 0]
    else [255, 255, 255, 255]
  }

  /** The low n bits of y | ~m. */
  function OrNot(y: nat, m: nat, n: nat): (r: nat)
    ensures r < Pow2(n)
  {
    if n == 0 then 0
    else 2 * OrNot(y / 2, m / 2, n - 1) + (if y % 2 == 1 || m % 2 == 0 then 1 else 0)
  }

  function Pow2(n: nat): nat {
    if n == 0 then 1 else 2 * Pow2(n - 1)
  }

  function OrNotByte(y: byte, m: byte): byte {
    assert Pow2(8) == 256;
    OrNot(y, m, 8)
  }

  function Broadcast(a: Quad, mask: Quad): Quad {
    [OrNotByte(a[0], mask[0]), OrNotByte(a[1], mask[1]), OrNotByte(a[2], mask[2]), OrNotByte(a[3], mask[3])]
  }

  predicate IsZero(s: seq<byte>) {
    forall i :: 0 <= i < |s| ==> s[i] == 0
  }

  /** A missing option is set and counted. */
  function Default(o: Options, tag: byte, v: Quad): (r: Options)
    ensures tag in r.val && (ValidOptions(o) ==> ValidOptions(r))
  {
    if tag in o.val then o else Put(o, tag, v)
  }

  /** Lease time and timers: a value of four bytes stays unless it is zero; anything else is
      replaced by a fresh allocation, which is counted even if the entry was set. */
  function DefaultTime(o: Options, tag: byte, v: Quad): (r: Options)
    ensures tag in r.val && |r.val[tag]| == 4 && (ValidOptions(o) ==> ValidOptions(r))
  {
    if tag in o.val && |o.val[tag]| == 4 then
      if IsZero(o.val[tag]) then o.(val := o.val[tag := v]) else o
    else Options((o.num + 1) % 256, o.val[tag := v])
  }

  function ClearTimer(o: Options, tag: byte): Options {
    if tag in o.val then o.(val := o.val[tag := Zeros(|o.val[tag]|)]) else o
  }

  /** No stored value is empty: an option without value bytes is never stored. */
  predicate ValidOptions(o: Options) {
    forall t :: t in o.val ==> 0 < |o.val[t]| <= 255
  }

  function LeaseOf(o: Options): u32
    requires LEASE_TIME in o.val && |o.val[LEASE_TIME]| == 4
  {
    FromBe32(o.val[LEASE_TIME])
  }

  /** The table once the option area is read, once the addresses are defaulted, once the times are. */
  function Received(o: Options, items: seq<Item>): Options {
    Apply(ClearTimer(ClearTimer(o, T1_VALUE), T2_VALUE), items)
  }

  function WithAddresses(o: Options, m: Reply): (r: Options)
    requires ValidOptions(o)
    ensures ValidOptions(r)
  {
    var yiaddr := if IsZero(m.yiaddr) then m.ciaddr else m.yiaddr;
    var o1 := Default(o, SERVER_IDENTIFIER, m.sender);
    var o2 := Default(o1, DNS, First4(o1.val[SERVER_IDENTIFIER], m.beyond));
    var o3 := Default(o2, SUBNET_MASK, ClassMask(yiaddr));
    Default(o3, BROADCAST_ADDR, Broadcast(yiaddr, First4(o3.val[SUBNET_MASK], m.beyond)))
  }

  function WithTimes(o: Options, nleaseTime: Quad): (r: Options)
    ensures ValidOptions(o) ==> ValidOptions(r)
  {
    var o1 := DefaultTime(o, LEASE_TIME, nleaseTime);
    var o2 := DefaultTime(o1, T1_VALUE, Be32(LeaseOf(o1) / 2));
    DefaultTime(o2, T2_VALUE, Be32(7 * LeaseOf(o1) / 8))
  }

  lemma {:induction false} ReceivedValid(o: Options, items: seq<Item>)
    requires ValidOptions(o) && ValidItems(items)
    ensures ValidOptions(Received(o, items))
  {
    ApplyValid(ClearTimer(ClearTimer(o, T1_VALUE), T2_VALUE), items);
  }

  lemma {:induction false} ApplyValid(o: Options, items: seq<Item>)
    requires ValidOptions(o) && ValidItems(items)
    ensures ValidOptions(Apply(o, items))
    decreases |items|
  {
    if items != [] {
      ApplyValid(Take(o, items[0]), items[1..]);
    }
  }

  /** The table parseDhcpMsgRecv leaves, and the message type it returns. */
  function Parsed(o: Options, m: Reply): (r: Options)
    requires ValidOptions(o) && ValidItems(m.items)
    ensures ValidOptions(r)
  {
    ReceivedValid(o, m.items);
    WithTimes(WithAddresses(Received(o, m.items), m), m.nleaseTime)
  }

  function TypeOf(o: Options): byte
    requires ValidOptions(o)
  {
    if MESSAGE_TYPE in o.val then o.val[MESSAGE_TYPE][0] else 0
  }

  // ---------------------------------------------------------------- addresses

  lemma TimesLeave(o: Options, nleaseTime: Quad, tag: byte)
    requires !IsTime(tag)
    ensures var r := WithTimes(o, nleaseTime).val;
            (tag in r <==> tag in o.val) && (tag in o.val ==> r[tag] == o.val[tag])
  {}

  lemma ClearLeaves(o: Options, items: seq<Item>, tag: byte)
    requires !IsTime(tag)
    ensures var r, v := Received(o, items).val, Last(items, tag);
            && (tag in r <==> v != [] || tag in o.val)
            && (tag in r ==> r[tag] == if v != [] then v else o.val[tag])
  {
    ApplyGivesLast(ClearTimer(ClearTimer(o, T1_VALUE), T2_VALUE), items, tag);
  }

  /** Of every option but the times, a value the message brought stays, else the older one; only server
      id, DNS, mask and broadcast address are ever made up. */
  lemma BroughtOrKept(o: Options, m: Reply, tag: byte)
    requires ValidOptions(o) && ValidItems(m.items) && tag != 51 && tag != 58 && tag != 59
    ensures var r, v := Parsed(o, m).val, Last(m.items, tag);
            && (v != [] ==> tag in r && r[tag] == v)
            && (v == [] && tag in o.val ==> tag in r && r[tag] == o.val[tag])
            && (v == [] && tag !in o.val ==> (tag in r <==> tag in {54, 6, 1, 28}))
  {
    ReceivedValid(o, m.items);
    ClearLeaves(o, m.items, tag);
    TimesLeave(WithAddresses(Received(o, m.items), m), m.nleaseTime, tag);
  }

  /** The address a mask is made up for. */
  function Own(m: Reply): Quad {
    if m.yiaddr == [0, 0, 0, 0] then m.ciaddr else m.yiaddr
  }

  /** y | ~m in an octet whose mask has its low k bits clear: they are all set, the others those of y. */
  lemma {:induction false} OrNotMask(y: nat, k: nat, n: nat)
    requires k <= n && y < Pow2(n)
    ensures Pow2(k) <= Pow2(n) && Pow2(k) > 0
    ensures OrNot(y, Pow2(n) - Pow2(k), n) == y - y % Pow2(k) + Pow2(k) - 1
    decreases n
  {
    if n > 0 {
      if k == 0 {
        OrNotMask(y / 2, 0, n - 1);
      } else {
        OrNotMask(y / 2, k - 1, n - 1);
        HalfMod(y, Pow2(k - 1));
        assert (Pow2(n) - Pow2(k)) / 2 == Pow2(n - 1) - Pow2(k - 1);
      }
    }
  }

  lemma HalfMod(y: nat, p: nat)
    requires p > 0
    ensures y % (2 * p) == 2 * ((y / 2) % p) + y % 2
  {
    var q, r := (y / 2) / p, (y / 2) % p;
    assert y == 2 * (y / 2) + y % 2;
    assert y / 2 == p * q + r;
    assert y == (2 * p) * q + (2 * r + y % 2);
    assert y == q * (2 * p) + (2 * r + y % 2);
    ModUnique(y, 2 * p, q, 2 * r + y % 2);
  }

  /** Bit by bit, for a mask octet of any kind. */
  lemma {:induction false} OrNotBit(y: nat, m: nat, n: nat, j: nat)
    requires j < n
    ensures Pow2(j) > 0
    ensures (OrNot(y, m, n) / Pow2(j)) % 2 == 1 <==> (y / Pow2(j)) % 2 == 1 || (m / Pow2(j)) % 2 == 0
    decreases n
  {
    if j > 0 {
      OrNotBit(y / 2, m / 2, n - 1, j - 1);
      HalfDiv(OrNot(y, m, n), Pow2(j - 1));
      HalfDiv(y, Pow2(j - 1));
      HalfDiv(m, Pow2(j - 1));
    }
  }

  lemma HalfDiv(x: nat, p: nat)
    requires p > 0
    ensures x / (2 * p) == (x / 2) / p
  {
    var q, r := (x / 2) / p, (x / 2) % p;
    assert x == (2 * p) * q + (2 * r + x % 2);
    HalfMod(x, p);
    assert (2 * p) * (x / (2 * p) - q) == 0;
  }

  /** The four address options of a table in which only those of `known` were there before, in octets. */
  predicate AddressesFrom(r: map<byte, seq<byte>>, known: set<byte>, m: Reply) {
    && (54 in r && 6 in r && 1 in r && 28 in r)
    && (54 !in known ==> r[54] == m.sender)
    && (6 !in known && |r[54]| >= 4 ==> r[6] == r[54][..4])
    && (1 !in known ==>
          var a := Own(m)[0];
          r[1] == if a < 128 then [255, 0, 0, 0] else if a < 192 then [255, 255, 0, 0]
                  else if a < 224 then [255, 255, 255, 0] else [255, 255, 255, 255])
    && (28 !in known && |r[1]| >= 4 ==>
          |r[28]| == 4 && forall i :: 0 <= i < 4 ==> r[28][i] == OrNotByte(Own(m)[i], r[1][i]))
  }

  /** A value read as an address: its first four bytes, or itself and its terminating zero first. */
  lemma FirstFour(v: seq<byte>, beyond: Quad)
    requires v != []
    ensures |v| >= 4 ==> First4(v, beyond) == v[..4]
    ensures |v| < 4 ==> First4(v, beyond)[..|v| + 1] == v + [0]
  {}

  lemma BroadcastOctets(a: Quad, mask: Quad, i: nat)
    requires i < 4
    ensures Broadcast(a, mask)[i] == OrNotByte(a[i], mask[i])
  {
    hide OrNotByte;
  }

  lemma AddressesMadeUp(o: Options, m: Reply)
    requires ValidOptions(o)
    ensures AddressesFrom(WithAddresses(o, m).val, o.val.Keys, m)
  {
    hide OrNotByte, First4, Broadcast;
    assert IsZero(m.yiaddr) <==> m.yiaddr == [0, 0, 0, 0];
    var r := WithAddresses(o, m).val;
    if |r[54]| >= 4 {
      FirstFour(r[54], m.beyond);
    }
    if |r[1]| >= 4 {
      FirstFour(r[1], m.beyond);
      forall i | 0 <= i < 4 ensures Broadcast(Own(m), r[1][..4])[i] == OrNotByte(Own(m)[i], r[1][i]) {
        BroadcastOctets(Own(m), r[1][..4], i);
      }
    }
  }

  /** The tags for which message or table has a value. */
  function Known(o: Options, m: Reply): set<byte> {
    set t: byte | t in o.val || Last(m.items, t) != []
  }

  lemma AddressTag(o: Options, m: Reply, tag: byte)
    requires ValidOptions(o) && ValidItems(m.items) && tag in {54, 6, 1, 28}
    requires ValidOptions(Received(o, m.items))
    ensures tag in Received(o, m.items).val.Keys <==> tag in Known(o, m)
    ensures var r, a := Parsed(o, m).val, WithAddresses(Received(o, m.items), m).val;
            (tag in r <==> tag in a) && (tag in a ==> r[tag] == a[tag])
  {
    hide Last, WithTimes, WithAddresses, Received;
    ClearLeaves(o, m.items, tag);
    TimesLeave(WithAddresses(Received(o, m.items), m), m.nleaseTime, tag);
  }

  lemma SameAddresses(a: map<byte, seq<byte>>, r: map<byte, seq<byte>>, j: set<byte>, k: set<byte>, m: Reply)
    requires AddressesFrom(a, j, m)
    requires forall t: byte :: t in {54, 6, 1, 28} ==> (t in j <==> t in k) && t in r && t in a && r[t] == a[t]
    ensures AddressesFrom(r, k, m)
  {
    hide OrNotByte, Own;
    assert 54 in {54, 6, 1, 28} && 6 in {54, 6, 1, 28} && 1 in {54, 6, 1, 28} && 28 in {54, 6, 1, 28};
  }

  /** What is made up for address options that neither message nor table has: the sender as server, the
      server as name server, the mask of the address class (RFC 791), and the address with every bit
      set that the mask leaves to the host. */
  lemma MadeUpAddresses(o: Options, m: Reply)
    requires ValidOptions(o) && ValidItems(m.items)
    ensures AddressesFrom(Parsed(o, m).val, Known(o, m), m)
  {
    ReceivedValid(o, m.items);
    var a := WithAddresses(Received(o, m.items), m);
    hide Last, WithTimes, WithAddresses, Received, Known, Parsed, ValidOptions;
    AddressesMadeUp(Received(o, m.items), m);
    forall t: byte | t in {54, 6, 1, 28}
      ensures (t in Received(o, m.items).val.Keys <==> t in Known(o, m))
      ensures t in Parsed(o, m).val && t in a.val && Parsed(o, m).val[t] == a.val[t]
    {
      AddressTag(o, m, t);
    }
    SameAddresses(a.val, Parsed(o, m).val, Received(o, m.items).val.Keys, Known(o, m), m);
  }

  /** The broadcast octet for every octet a mask can have, in numbers. */
  lemma BroadcastOctet(y: byte)
    ensures OrNotByte(y, 255) == y && OrNotByte(y, 0) == 255
    ensures OrNotByte(y, 254) == y - y % 2 + 1 && OrNotByte(y, 252) == y - y % 4 + 3
    ensures OrNotByte(y, 248) == y - y % 8 + 7 && OrNotByte(y, 240) == y - y % 16 + 15
    ensures OrNotByte(y, 224) == y - y % 32 + 31 && OrNotByte(y, 192) == y - y % 64 + 63
    ensures OrNotByte(y, 128) == y - y % 128 + 127
  {
    Powers();
    hide OrNot, Pow2;
    OrNotMask(y, 0, 8);
    OrNotMask(y, 1, 8);
    OrNotMask(y, 2, 8);
    OrNotMask(y, 3, 8);
    OrNotMask(y, 4, 8);
    OrNotMask(y, 5, 8);
    OrNotMask(y, 6, 8);
    OrNotMask(y, 7, 8);
    OrNotMask(y, 8, 8);
  }

  lemma Powers()
    ensures Pow2(0) == 1 && Pow2(1) == 2 && Pow2(2) == 4 && Pow2(3) == 8 && Pow2(4) == 16
    ensures Pow2(5) == 32 && Pow2(6) == 64 && Pow2(7) == 128 && Pow2(8) == 256
  {}

  // ---------------------------------------------------------------- times

  function TimerAfter(items: seq<Item>, tag: byte, default: u32): u32 {
    var v := Last(items, tag);
    if |v| == 4 && !IsZero(v) then FromBe32(v) else default
  }

  function LeaseAfter(o: Options, m: Reply): u32 {
    var v := Last(m.items, LEASE_TIME);
    var w := if v == [] && LEASE_TIME in o.val then o.val[LEASE_TIME] else v;
    if |w| == 4 && !IsZero(w) then FromBe32(w) else FromBe32(m.nleaseTime)
  }

  function TimeOf(o: Options, tag: byte): u32
    requires tag in o.val && |o.val[tag]| == 4
  {
    FromBe32(o.val[tag])
  }

  predicate IsTime(tag: byte) {
    tag == LEASE_TIME || tag == T1_VALUE || tag == T2_VALUE
  }

  /** Entries of the lease time and the timers are four bytes long. */
  predicate TimesFour(o: Options) {
    forall t :: IsTime(t) && t in o.val ==> |o.val[t]| == 4
  }

  lemma AddressesKeep(o: Options, m: Reply, t: byte)
    requires ValidOptions(o) && (IsTime(t) || t == MESSAGE_TYPE)
    ensures var r := WithAddresses(o, m).val; (t in r <==> t in o.val) && (t in o.val ==> r[t] == o.val[t])
  {}

  /** What the option area left of a time option: its last value in this message; else zeros
      in place of an older timer, and an older lease time as it was. */
  lemma ReceivedTime(o: Options, items: seq<Item>, t: byte)
    requires IsTime(t)
    ensures var r, v := Received(o, items).val, Last(items, t);
            && (t in r <==> v != [] || t in o.val)
            && (t in r ==> r[t] == if v != [] then v else if t == LEASE_TIME then o.val[t] else Zeros(|o.val[t]|))
  {
    ApplyGivesLast(ClearTimer(ClearTimer(o, T1_VALUE), T2_VALUE), items, t);
  }

  /** After every message, whatever was in the table: lease time and both timers are there with
      four bytes, and a timer that this message did not bring as four non-zero bytes is the
      computed fraction of the lease time, never a value left from an earlier message. */
  lemma TimersNeverStale(o: Options, m: Reply)
    requires ValidOptions(o) && ValidItems(m.items)
    ensures var r := Parsed(o, m);
            && TimesFour(r) && LEASE_TIME in r.val && T1_VALUE in r.val && T2_VALUE in r.val
            && TimeOf(r, LEASE_TIME) == LeaseAfter(o, m)
            && TimeOf(r, T1_VALUE) == TimerAfter(m.items, T1_VALUE, LeaseAfter(o, m) / 2)
            && TimeOf(r, T2_VALUE) == TimerAfter(m.items, T2_VALUE, 7 * LeaseAfter(o, m) / 8)
  {
    ReceivedValid(o, m.items);
    var c := Received(o, m.items);
    var a := WithAddresses(c, m);
    TimeSettled(o, m, LEASE_TIME);
    TimeSettled(o, m, T1_VALUE);
    TimeSettled(o, m, T2_VALUE);
    TimesFromDefaults(a, m.nleaseTime);
  }

  function TimerOr(o: Options, tag: byte, default: u32): u32 {
    if tag in o.val && |o.val[tag]| == 4 && !IsZero(o.val[tag]) then FromBe32(o.val[tag]) else default
  }

  lemma TimeSettled(o: Options, m: Reply, t: byte)
    requires ValidOptions(o) && ValidItems(m.items) && IsTime(t) && ValidOptions(Received(o, m.items))
    ensures forall d :: TimerOr(WithAddresses(Received(o, m.items), m), t, d) ==
              if t == LEASE_TIME && Last(m.items, t) == [] then TimerOr(o, t, d) else TimerAfter(m.items, t, d)
  {
    ReceivedTime(o, m.items, t);
    AddressesKeep(Received(o, m.items), m, t);
  }

  lemma TimesFromDefaults(o: Options, nleaseTime: Quad)
    ensures var r := WithTimes(o, nleaseTime);
            && (forall t :: IsTime(t) ==> t in r.val && |r.val[t]| == 4)
            && var l := TimerOr(o, LEASE_TIME, FromBe32(nleaseTime));
            && TimeOf(r, LEASE_TIME) == l
            && TimeOf(r, T1_VALUE) == TimerOr(o, T1_VALUE, l / 2)
            && TimeOf(r, T2_VALUE) == TimerOr(o, T2_VALUE, 7 * l / 8)
  {}

  /** Timers left to the client come out in order. */
  lemma DefaultedTimersOrdered(o: Options, m: Reply)
    requires ValidOptions(o) && ValidItems(m.items)
    requires |Last(m.items, T1_VALUE)| != 4 || IsZero(Last(m.items, T1_VALUE))
    requires |Last(m.items, T2_VALUE)| != 4 || IsZero(Last(m.items, T2_VALUE))
    ensures var r := Parsed(o, m);
            && LEASE_TIME in r.val && T1_VALUE in r.val && T2_VALUE in r.val && TimesFour(r)
            && TimeOf(r, T1_VALUE) <= TimeOf(r, T2_VALUE) <= TimeOf(r, LEASE_TIME)
  {
    TimersNeverStale(o, m);
  }

  // ---------------------------------------------------------------- the entry count

  /** How often parseDhcpMsgRecv counts an entry that is already set. */
  function Miscount(o: Options): nat {
    Recounted(o, LEASE_TIME) + Recounted(o, T1_VALUE) + Recounted(o, T2_VALUE)
  }

  function Recounted(o: Options, tag: byte): nat {
    if tag in o.val && |o.val[tag]| != 4 then 1 else 0
  }

  /** num is d ahead of the number of set entries, as far as a byte can tell. */
  predicate Ahead(o: Options, d: nat) {
    o.num == (|o.val| + d) % 256
  }

  lemma PutAhead(o: Options, tag: byte, v: seq<byte>, d: nat)
    requires Ahead(o, d)
    ensures Ahead(Put(o, tag, v), d)
  {
    SetGrows(o.val, tag, v);
  }

  lemma {:induction false} ApplyAhead(o: Options, items: seq<Item>, d: nat)
    requires Ahead(o, d)
    ensures Ahead(Apply(o, items), d)
    decreases |items|
  {
    if items != [] {
      if items[0].Opt? {
        PutAhead(o, items[0].tag, items[0].value, d);
      }
      ApplyAhead(Take(o, items[0]), items[1..], d);
    }
  }

  lemma ReceivedAhead(o: Options, items: seq<Item>, d: nat)
    requires Ahead(o, d)
    ensures Ahead(Received(o, items), d)
  {
    if T1_VALUE in o.val {
      SetGrows(o.val, T1_VALUE, Zeros(|o.val[T1_VALUE]|));
    }
    var c := ClearTimer(o, T1_VALUE);
    if T2_VALUE in c.val {
      SetGrows(c.val, T2_VALUE, Zeros(|c.val[T2_VALUE]|));
    }
    ApplyAhead(ClearTimer(c, T2_VALUE), items, d);
  }

  lemma DefaultAhead(o: Options, tag: byte, v: Quad, d: nat)
    requires Ahead(o, d)
    ensures Ahead(Default(o, tag, v), d)
  {
    PutAhead(o, tag, v, d);
  }

  lemma AddressesAhead(o: Options, m: Reply, d: nat)
    requires ValidOptions(o) && Ahead(o, d)
    ensures Ahead(WithAddresses(o, m), d)
  {
    hide ClassMask, Broadcast, First4, Ahead;
    var yiaddr := if IsZero(m.yiaddr) then m.ciaddr else m.yiaddr;
    var o1 := Default(o, SERVER_IDENTIFIER, m.sender);
    var o2 := Default(o1, DNS, First4(o1.val[SERVER_IDENTIFIER], m.beyond));
    var o3 := Default(o2, SUBNET_MASK, ClassMask(yiaddr));
    DefaultAhead(o, SERVER_IDENTIFIER, m.sender, d);
    DefaultAhead(o1, DNS, First4(o1.val[SERVER_IDENTIFIER], m.beyond), d);
    DefaultAhead(o2, SUBNET_MASK, ClassMask(yiaddr), d);
    DefaultAhead(o3, BROADCAST_ADDR, Broadcast(yiaddr, First4(o3.val[SUBNET_MASK], m.beyond)), d);
  }

  lemma DefaultTimeAhead(o: Options, tag: byte, v: Quad, d: nat)
    requires Ahead(o, d)
    ensures Ahead(DefaultTime(o, tag, v), d + Recounted(o, tag))
  {
    SetGrows(o.val, tag, v);
  }

  lemma TimesAhead(o: Options, n: Quad, d: nat)
    requires Ahead(o, d)
    ensures Ahead(WithTimes(o, n), d + Miscount(o))
  {
    hide Ahead, LeaseOf;
    var o1 := DefaultTime(o, LEASE_TIME, n);
    var o2 := DefaultTime(o1, T1_VALUE, Be32(LeaseOf(o1) / 2));
    DefaultTimeAhead(o, LEASE_TIME, n, d);
    DefaultTimeAhead(o1, T1_VALUE, Be32(LeaseOf(o1) / 2), d + Recounted(o, LEASE_TIME));
    DefaultTimeAhead(o2, T2_VALUE, Be32(7 * LeaseOf(o1) / 8), d + Recounted(o, LEASE_TIME) + Recounted(o, T1_VALUE));
  }

  /** Each message moves num away from the number of set entries by exactly the number of time
      entries it leaves with a length other than four. */
  lemma CountDrift(o: Options, m: Reply, d: nat)
    requires ValidOptions(o) && ValidItems(m.items) && Ahead(o, d)
    ensures Ahead(Parsed(o, m), d + Miscount(Received(o, m.items)))
  {
    hide Received, WithAddresses, WithTimes, Ahead;
    ReceivedValid(o, m.items);
    ReceivedAhead(o, m.items, d);
    var c := Received(o, m.items);
    AddressesAhead(c, m, d);
    AddressesKeep(c, m, LEASE_TIME);
    AddressesKeep(c, m, T1_VALUE);
    AddressesKeep(c, m, T2_VALUE);
    TimesAhead(WithAddresses(c, m), m.nleaseTime, d);
  }

  /** The message brings each time option with four bytes, or not at all. */
  predicate TimesWellFormed(items: seq<Item>) {
    forall t :: IsTime(t) ==> |Last(items, t)| == 0 || |Last(items, t)| == 4
  }

  /** num stays exact across a message exactly when the time options it brings have length 4. */
  lemma CountExactIff(o: Options, m: Reply)
    requires ValidOptions(o) && ValidItems(m.items) && TimesFour(o) && Exact(o)
    ensures Exact(Parsed(o, m)) <==> TimesWellFormed(m.items)
  {
    hide Received, Parsed, Miscount, TimesWellFormed, TimesFour, Exact, Ahead, ValidOptions, ValidItems;
    var k := Miscount(Received(o, m.items));
    ExactAhead(o, 0);
    CountDrift(o, m, 0);
    MiscountZeroIff(o, m);
    ExactAhead(Parsed(o, m), k);
  }

  lemma ExactAhead(o: Options, d: nat)
    requires d <= 3
    ensures Ahead(o, d) ==> (Exact(o) <==> d == 0)
    ensures Exact(o) ==> Ahead(o, 0)
  {
    ModShift(|o.val|, d);
  }

  lemma MiscountZeroIff(o: Options, m: Reply)
    requires ValidOptions(o) && ValidItems(m.items) && TimesFour(o)
    ensures Miscount(Received(o, m.items)) == 0 <==> TimesWellFormed(m.items)
    ensures Miscount(Received(o, m.items)) <= 3
  {
    hide Received;
    ReceivedTime(o, m.items, LEASE_TIME);
    ReceivedTime(o, m.items, T1_VALUE);
    ReceivedTime(o, m.items, T2_VALUE);
  }

  lemma ModShift(n: nat, k: nat)
    requires k <= 3
    ensures (n + k) % 256 == n % 256 <==> k == 0
  {}

  // ---------------------------------------------------------------- runs

  const EMPTY := Options(0, map[])

  function ParseAll(o: Options, ms: seq<Reply>): (r: Options)
    requires ValidOptions(o) && forall i :: 0 <= i < |ms| ==> ValidItems(ms[i].items)
    ensures ValidOptions(r)
    decreases |ms|
  {
    if ms == [] then o else ParseAll(Parsed(o, ms[0]), ms[1..])
  }

  /** From the empty table on, through any sequence of messages with well-formed time options:
      the count is exact, and once a message came lease time and timers are defined. */
  lemma {:induction false} RunKeepsTable(o: Options, ms: seq<Reply>)
    requires ValidOptions(o) && TimesFour(o) && Exact(o)
    requires forall i :: 0 <= i < |ms| ==> ValidItems(ms[i].items) && TimesWellFormed(ms[i].items)
    ensures var r := ParseAll(o, ms);
            && Exact(r) && TimesFour(r)
            && (ms != [] ==> LEASE_TIME in r.val && T1_VALUE in r.val && T2_VALUE in r.val)
    decreases |ms|
  {
    if ms != [] {
      TimersNeverStale(o, ms[0]);
      CountExactIff(o, ms[0]);
      RunKeepsTable(Parsed(o, ms[0]), ms[1..]);
    }
  }

  // ---------------------------------------------------------------- the message type

  /** The type parseDhcpMsgRecv reports is the one in the message, or, for a message without
      one, whatever an earlier message left in the table. */
  lemma ReportedType(o: Options, m: Reply)
    requires ValidOptions(o) && ValidItems(m.items)
    ensures TypeOf(Parsed(o, m)) ==
            if Last(m.items, MESSAGE_TYPE) != [] then Last(m.items, MESSAGE_TYPE)[0] else TypeOf(o)
    ensures TypeOf(o) == if 53 in o.val then o.val[53][0] else 0
  {
    hide Apply, WithAddresses, WithTimes;
    ReceivedValid(o, m.items);
    ApplyGivesLast(ClearTimer(ClearTimer(o, T1_VALUE), T2_VALUE), m.items, MESSAGE_TYPE);
    AddressesKeep(Received(o, m.items), m, MESSAGE_TYPE);
    TimesKeep(WithAddresses(Received(o, m.items), m), m.nleaseTime, MESSAGE_TYPE);
  }

  lemma TimesKeep(o: Options, nleaseTime: Quad, t: byte)
    requires !IsTime(t)
    ensures var r := WithTimes(o, nleaseTime).val; (t in r <==> t in o.val) && (t in o.val ==> r[t] == o.val[t])
  {}

  // ---------------------------------------------------------------- the parser

  /** struct dhcpOptions. A NULL val pointer is an absent key; len is 0 there. */
  class OptionTable {
    var num: byte
    var len: seq<byte>
    var val: map<byte, seq<byte>>

    ghost predicate Valid()
      reads this
    {
      |len| == 256 &&
      forall t: byte :: (t in val ==> 0 < |val[t]| == len[t]) && (t !in val ==> len[t] == 0)
    }

    ghost function Table(): Options
      reads this
    {
      Options(num, val)
    }

    /** memset of the whole table. */
    constructor ()
      ensures Valid() && Table() == EMPTY && num == 0 && val == map[]
    {
      num, len, val := 0, Zeros(256), map[];
    }

    /** The loop over the option area: s is the receive buffer from the option field on. */
    method ScanOptions(s: seq<byte>, end: nat)
      requires Valid() && Scannable(s, 4, end)
      modifies this
      ensures Valid() && Table() == Apply(old(Table()), Decode(s, 4, end))
    {
      hide Decode, Apply, EncodeItem;
      var p := 4;
      while p < end
        invariant Scannable(s, p, end) && Valid()
        invariant Apply(Table(), Decode(s, p, end)) == Apply(old(Table()), Decode(s, 4, end))
        decreases |s| - p
      {
        if s[p] == END {
          break;
        }
        ghost var it := FirstItem(s, p, end);
        DecodeHead(s, p, end, it);
        ApplyCons(Table(), it, Decode(s, p + |EncodeItem(it)|, end));
        ItemLength(it);
        if s[p] == PAD {
          p := p + 1;
        } else {
          if s[p + 1] != 0 {
            StoreOption(s[p], s[p + 2..p + 2 + s[p + 1]]);
          }
          p := p + s[p + 1] + 2;
        }
      }
      DecodeStops(s, p, end);
      ApplyNil(Table());
    }

    lemma ApplyNil(o: Options)
      ensures Apply(o, []) == o
    {}

    lemma ApplyCons(o: Options, it: Item, rest: seq<Item>)
      ensures Apply(o, [it] + rest) == Apply(Take(o, it), rest)
    {
      assert ([it] + rest)[1..] == rest;
    }

    lemma ItemLength(it: Item)
      requires ValidItem(it)
      ensures |EncodeItem(it)| == if it.Pad? then 1 else |it.value| + 2
    {}

    /** A value of the stored length overwrites it in place, any other is allocated anew. */
    method StoreOption(tag: byte, v: seq<byte>)
      requires Valid() && 0 < |v| <= 255
      modifies this
      ensures Valid() && Table() == Put(old(Table()), tag, v)
    {
      if len[tag] != |v| {
        len := len[tag := |v|];
        if tag !in val {
          num := (num + 1) % 256;
        }
      }
      val := val[tag := v];
    }

    /** An option the server did not send: four bytes, counted as a new entry. */
    method SetMissing(tag: byte, v: Quad)
      requires Valid()
      modifies this
      ensures Valid() && Table() == Options((old(num) + 1) % 256, old(val)[tag := v])
    {
      val := val[tag := v];
      len := len[tag := 4];
      num := (num + 1) % 256;
    }

    /** memset of a stored timer. */
    method Clear(tag: byte)
      requires Valid()
      modifies this
      ensures Valid() && Table() == ClearTimer(old(Table()), tag)
    {
      if tag in val && len[tag] > 0 {
        val := val[tag := Zeros(len[tag])];
      }
    }

    method SettleTime(tag: byte, v: Quad)
      requires Valid()
      modifies this
      ensures Valid() && Table() == DefaultTime(old(Table()), tag, v)
    {
      if tag in val && len[tag] == 4 {
        if IsZero(val[tag]) {
          val := val[tag := v];
        }
      } else {
        SetMissing(tag, v);
      }
    }

    /** parseDhcpMsgRecv: s is the receive buffer from the option field on; the other
        parameters are the fields of Reply. */
    method ParseDhcpMsgRecv(s: seq<byte>, sender: Quad, yiaddr: Quad, ciaddr: Quad, nleaseTime: Quad, beyond: Quad)
      returns (r: byte)
      requires Valid() && Scannable(s, 4, OPTIONS_SIZE)
      modifies this
      ensures Valid() && ValidOptions(old(Table()))
      ensures Table() ==
              Parsed(old(Table()), Reply(Decode(s, 4, 312), sender, yiaddr, ciaddr, nleaseTime, beyond))
      ensures r == TypeOf(Table())
    {
      hide Apply, Decode, ClassMask, Broadcast, First4, Default, DefaultTime, ClearTimer, ValidOptions;
      assert ValidOptions(Table()) by {
        TableValid();
      }
      ghost var o, items := Table(), Decode(s, 4, OPTIONS_SIZE);
      Clear(T1_VALUE);
      Clear(T2_VALUE);
      ScanOptions(s, OPTIONS_SIZE);
      ghost var m := Reply(items, sender, yiaddr, ciaddr, nleaseTime, beyond);
      assert Table() == Received(o, items);
      ReceivedValid(o, items);
      SettleAddresses(sender, if IsZero(yiaddr) then ciaddr else yiaddr, beyond);
      assert Table() == WithAddresses(Received(o, items), m);
      SettleTimes(nleaseTime);
      assert Table() == Parsed(o, m);
      TableValid();
      r := if MESSAGE_TYPE in val then val[MESSAGE_TYPE][0] else 0;
    }

    lemma TableValid()
      requires Valid()
      ensures ValidOptions(Table())
    {}

    /** Lease time first, then the timers from it. */
    method SettleTimes(nleaseTime: Quad)
      requires Valid()
      modifies this
      ensures Valid() && Table() == WithTimes(old(Table()), nleaseTime)
    {
      hide DefaultTime, Be32, FromBe32;
      SettleTime(LEASE_TIME, nleaseTime);
      var lease: int := FromBe32(val[LEASE_TIME]);
      SettleTime(T1_VALUE, Be32(lease / 2));
      SettleTime(T2_VALUE, Be32(7 * lease / 8));
    }

    /** The address options a server may leave out, each derived from what is there by then. */
    method SettleAddresses(sender: Quad, address: Quad, beyond: Quad)
      requires Valid()
      modifies this
      ensures Valid()
      ensures var o1 := Default(old(Table()), SERVER_IDENTIFIER, sender);
              o1.val[SERVER_IDENTIFIER] != [] &&
              var o2 := Default(o1, DNS, First4(o1.val[SERVER_IDENTIFIER], beyond));
              var o3 := Default(o2, SUBNET_MASK, ClassMask(address));
              o3.val[SUBNET_MASK] != [] &&
              Table() == Default(o3, BROADCAST_ADDR, Broadcast(address, First4(o3.val[SUBNET_MASK], beyond)))
    {
      hide ClassMask, Broadcast, First4, Default;
      SettleAddress(SERVER_IDENTIFIER, sender);
      SettleAddress(DNS, First4(val[SERVER_IDENTIFIER], beyond));
      SettleAddress(SUBNET_MASK, ClassMask(address));
      SettleAddress(BROADCAST_ADDR, Broadcast(address, First4(val[SUBNET_MASK], beyond)));
    }

    method SettleAddress(tag: byte, v: Quad)
      requires Valid()
      modifies this
      ensures Valid() && Table() == Default(old(Table()), tag, v) && val[tag] != []
    {
      if tag !in val {
        SetMissing(tag, v);
      }
    }
  }
}

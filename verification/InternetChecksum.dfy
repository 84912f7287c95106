/** The Internet checksum of network/dhcpcd/udpipgen.c (RFC 1071). */
module InternetChecksum {
  import opened Bytes

  /** The machine's sum: little-endian words, an odd last byte alone in the low half. */
  function WordSum(s: seq<byte>): nat {
    if |s| == 0 then 0
    else if |s| == 1 then s[0]
    else Word(s[0], s[1]) + WordSum(s[2..])
  }

  /** One's complement addition: the carry out of bit 15 comes back in at bit 0. */
  function OcAdd(a: u16, b: u16): u16 {
    if a + b >= 0x1_0000 then a + b - 0xFFFF else a + b
  }

  /** The one's complement sum of section 1 of RFC 1071, on words as this machine reads them. */
  function OnesSum(s: seq<byte>): u16 {
    if |s| == 0 then 0
    else if |s| == 1 then s[0]
    else OcAdd(Word(s[0], s[1]), OnesSum(s[2..]))
  }

  /** The same sum on words in network order, as the RFC draws them. */
  function NetSum(s: seq<byte>): u16 {
    if |s| == 0 then 0
    else if |s| == 1 then 256 * s[0]
    else OcAdd(Word(s[1], s[0]), NetSum(s[2..]))
  }

  function Checksum(s: seq<byte>): u16 {
    0xFFFF - OnesSum(s)
  }

  /** The longest buffer whose word sum always fits a 32-bit int. */
  const MAX_LEN := 65537

  // ---------------------------------------------------------------- canonical sums

  /** The representative of n modulo 65535 that one's complement sums settle on:
      zero only for zero, otherwise 1 to 65535. */
  function Canon(n: nat): u16 {
    if n == 0 then 0 else 1 + (n - 1) % 0xFFFF
  }

  lemma CanonQuotient(n: nat) returns (q: int)
    ensures n == Canon(n) + 0xFFFF * q
    ensures Canon(n) == 0 <==> n == 0
  {
    q := if n == 0 then 0 else (n - 1) / 0xFFFF;
  }

  /** A 16-bit value congruent to n, zero exactly when n is, is the representative of n. */
  lemma CanonUnique(n: nat, r: u16, q: int)
    requires n == r + 0xFFFF * q && (r == 0 <==> n == 0)
    ensures r == Canon(n)
  {
    var p := CanonQuotient(n);
    assert 0xFFFF * (q - p) == Canon(n) - r;
  }

  lemma CanonStep(w: u16, n: nat)
    ensures OcAdd(w, Canon(n)) == Canon(w + n)
  {
    var q := CanonQuotient(n);
    CanonUnique(w + n, OcAdd(w, Canon(n)), if w + Canon(n) >= 0x1_0000 then q + 1 else q);
  }

  lemma {:induction false} OnesSumIsCanon(s: seq<byte>)
    ensures OnesSum(s) == Canon(WordSum(s))
  {
    if |s| >= 2 {
      OnesSumIsCanon(s[2..]);
      CanonStep(Word(s[0], s[1]), WordSum(s[2..]));
    }
  }

  // ---------------------------------------------------------------- overflow

  lemma {:induction false} WordSumBound(s: seq<byte>)
    ensures WordSum(s) <= 0xFFFF * (|s| / 2) + 0xFF * (|s| % 2)
  {
    if |s| >= 2 {
      WordSumBound(s[2..]);
    }
  }

  function AllOnes(n: nat): (s: seq<byte>)
    ensures |s| == n
  {
    seq(n, _ => 0xFF)
  }

  lemma {:induction false} AllOnesSum(n: nat)
    ensures WordSum(AllOnes(n)) == 0xFFFF * (n / 2) + 0xFF * (n % 2)
  {
    if n >= 2 {
      assert AllOnes(n)[2..] == AllOnes(n - 2);
      AllOnesSum(n - 2);
    }
  }

  predicate FitsInt(s: seq<byte>) {
    WordSum(s) < 0x8000_0000
  }

  lemma ShortFits(s: seq<byte>)
    requires |s| <= MAX_LEN
    ensures FitsInt(s)
  {
    WordSumBound(s);
  }

  /** in_cksum's int never overflows on any buffer of n bytes, iff n is at most 65537. */
  lemma SumFitsIff(n: nat)
    ensures (forall s: seq<byte> :: |s| == n ==> FitsInt(s)) <==> n <= MAX_LEN
  {
    forall s: seq<byte> | |s| == n && n <= MAX_LEN ensures FitsInt(s) {
      WordSumBound(s);
    }
    AllOnesSum(n);
    assert n > MAX_LEN ==> !FitsInt(AllOnes(n));
  }

  /** Two folds are enough for every non-negative int, and give the representative. */
  lemma TwoFolds(sum: int32)
    requires sum >= 0
    ensures var once := sum / 0x1_0000 + sum % 0x1_0000;
            once < 0x2_0000 &&
            (once + once / 0x1_0000) % 0x1_0000 == Canon(sum)
  {
    var once := sum / 0x1_0000 + sum % 0x1_0000;
    assert sum == 0xFFFF * (sum / 0x1_0000) + once;
    if once < 0x1_0000 {
      CanonUnique(sum, once, sum / 0x1_0000);
    } else {
      CanonUnique(sum, once - 0xFFFF, sum / 0x1_0000 + 1);
    }
  }

  lemma TwoMore(s: seq<byte>, w: nat, sum: int32)
    requires FitsInt(s) && w + 2 <= |s| && 0 <= sum && sum + WordSum(s[w..]) == WordSum(s)
    ensures var t := sum + Word(s[w], s[w + 1]);
            0 <= t < 0x8000_0000 && t + WordSum(s[w + 2..]) == WordSum(s)
  {
    assert s[w..][2..] == s[w + 2..];
  }

  lemma OneMore(s: seq<byte>, w: nat, sum: int32)
    requires FitsInt(s) && w <= |s| <= w + 1 && 0 <= sum && sum + WordSum(s[w..]) == WordSum(s)
    ensures var t := if w < |s| then sum + s[w] else sum as int;
            t < 0x8000_0000 && t == WordSum(s)
  {
  }

  /** The folds and the complement of a total that fits. */
  lemma FoldedIsChecksum(s: seq<byte>, sum: int32)
    requires FitsInt(s) && sum == WordSum(s)
    ensures var once := sum / 0x1_0000 + sum % 0x1_0000;
            && 0 <= once < 0x2_0000 && 0 <= once + once / 0x1_0000 < 0x2_0000
            && 0xFFFF - (once + once / 0x1_0000) % 0x1_0000 == Checksum(s)
  {
    hide WordSum, OnesSum, Canon;
    TwoFolds(sum);
    OnesSumIsCanon(s);
  }

  /** udpipgen.c in_cksum: sum is a 32-bit int, the result is ~sum cut to 16 bits. */
  method InCksum(addr: seq<byte>) returns (r: u16)
    requires FitsInt(addr)
    ensures r == Checksum(addr)
  {
    assert addr[0..] == addr;
    hide WordSum, FitsInt, Checksum, Word;
    var sum: int32 := 0;
    var w, nleft := 0, |addr|;
    while nleft > 1
      invariant 0 <= nleft && w == |addr| - nleft
      invariant 0 <= sum && sum + WordSum(addr[w..]) == WordSum(addr)
    {
      TwoMore(addr, w, sum);
      sum := sum + Word(addr[w], addr[w + 1]);
      w := w + 2;
      nleft := nleft - 2;
    }
    OneMore(addr, w, sum);
    if nleft == 1 {
      sum := sum + addr[w];
    }
    FoldedIsChecksum(addr, sum);
    sum := sum / 0x1_0000 + sum % 0x1_0000;
    sum := sum + sum / 0x1_0000;
    r := 0xFFFF - sum % 0x1_0000;
  }

  // ---------------------------------------------------------------- what the checksum detects

  lemma {:induction false} WordSumConcat(a: seq<byte>, b: seq<byte>)
    requires |a| % 2 == 0
    ensures WordSum(a + b) == WordSum(a) + WordSum(b)
  {
    if |a| == 0 {
      assert a + b == b;
    } else {
      assert (a + b)[2..] == a[2..] + b;
      WordSumConcat(a[2..], b);
    }
  }

  /** s with the word at byte position i replaced by w. */
  function WithWord(s: seq<byte>, i: nat, w: u16): (r: seq<byte>)
    requires i + 2 <= |s|
    ensures |r| == |s|
  {
    Splice(s, i, Le16(w))
  }

  function WordAt(s: seq<byte>, i: nat): u16
    requires i + 2 <= |s|
  {
    Word(s[i], s[i + 1])
  }

  /** The sum of all words but the one at i. */
  function RestSum(s: seq<byte>, i: nat): nat
    requires i + 2 <= |s|
  {
    WordSum(s[..i]) + WordSum(s[i + 2..])
  }

  lemma SplitAtWord(s: seq<byte>, i: nat)
    requires i % 2 == 0 && i + 2 <= |s|
    ensures WordSum(s) == RestSum(s, i) + WordAt(s, i)
  {
    assert s == s[..i] + s[i..];
    WordSumConcat(s[..i], s[i..]);
    assert s[i..][2..] == s[i + 2..];
  }

  lemma WithWordSum(s: seq<byte>, i: nat, w: u16)
    requires i % 2 == 0 && i + 2 <= |s|
    ensures WordSum(WithWord(s, i, w)) == RestSum(s, i) + w
  {
    var t := WithWord(s, i, w);
    SplitAtWord(t, i);
    assert t[..i] == s[..i] && t[i + 2..] == s[i + 2..];
  }

  /** Storing the checksum in a zeroed aligned word, the k-th, makes the whole buffer check. So does
      storing 0xFFFF for a computed 0, as RFC 768 asks. */
  lemma StoredChecksumVerifies(s: seq<byte>, k: nat, c: u16)
    requires 2 * k + 2 <= |s| && WordAt(s, 2 * k) == 0
    requires c == Checksum(s) || (Checksum(s) == 0 && c == 0xFFFF)
    ensures Checksum(WithWord(s, 2 * k, c)) == 0
  {
    var i := 2 * k;
    var t := WithWord(s, i, c);
    OnesSumIsCanon(s);
    OnesSumIsCanon(t);
    SplitAtWord(s, i);
    WithWordSum(s, i, c);
    var q := CanonQuotient(WordSum(s));
    CanonUnique(WordSum(t), 0xFFFF, if c == Checksum(s) then q else q + 1);
  }

  /** Overwriting a field between two pieces of a buffer. */
  lemma FillField(front: seq<byte>, field: seq<byte>, back: seq<byte>, v: seq<byte>)
    requires |field| == |v|
    ensures Splice(front + field + back, |front|, v) == front + v + back
  {}

  lemma StoredFieldVerifies(front: seq<byte>, back: seq<byte>, c: u16)
    requires |front| % 2 == 0
    requires var r := Checksum(front + [0, 0] + back); c == r || (r == 0 && c == 0xFFFF)
    ensures Checksum(front + Le16(c) + back) == 0
  {
    var blank := front + [0, 0] + back;
    FillField(front, [0, 0], back, Le16(c));
    assert blank[|front|] == 0 && blank[|front| + 1] == 0;
    StoredChecksumVerifies(blank, |front| / 2, c);
  }

  /** Replacing one aligned word goes unnoticed exactly when nothing changes, or when 0x0000
      and 0xFFFF trade places in a buffer whose other bytes are not all zero. */
  lemma WordChangeUndetectedIff(s: seq<byte>, i: nat, w: u16)
    requires i % 2 == 0 && i + 2 <= |s|
    ensures Checksum(WithWord(s, i, w)) == Checksum(s) <==>
            w == WordAt(s, i) ||
            (w + WordAt(s, i) == 0xFFFF && (w == 0 || WordAt(s, i) == 0) && RestSum(s, i) > 0)
  {
    hide WordSum, OnesSum, Canon, WithWord, RestSum;
    OnesSumIsCanon(s);
    OnesSumIsCanon(WithWord(s, i, w));
    SplitAtWord(s, i);
    WithWordSum(s, i, w);
    CanonSame(RestSum(s, i), WordAt(s, i), w);
  }

  lemma CanonSame(rest: nat, v: u16, w: u16)
    ensures Canon(rest + v) == Canon(rest + w) <==>
            v == w || (v + w == 0xFFFF && (v == 0 || w == 0) && rest > 0)
  {
    var p := CanonQuotient(rest + v);
    var q := CanonQuotient(rest + w);
    if Canon(rest + v) == Canon(rest + w) {
      assert v - w == 0xFFFF * p - 0xFFFF * q;
    }
    if w == 0xFFFF && v == 0 && rest > 0 {
      CanonUnique(rest + w, Canon(rest + v), p + 1);
    }
    if w == 0 && v == 0xFFFF && rest > 0 {
      CanonUnique(rest + v, Canon(rest + w), q + 1);
    }
  }

  // ---------------------------------------------------------------- byte order

  function Swap(x: u16): u16 {
    x / 256 + 256 * (x % 256)
  }

  function NetWordSum(s: seq<byte>): nat {
    if |s| == 0 then 0
    else if |s| == 1 then 256 * s[0]
    else Word(s[1], s[0]) + NetWordSum(s[2..])
  }

  lemma {:induction false} NetSumIsCanon(s: seq<byte>)
    ensures NetSum(s) == Canon(NetWordSum(s))
  {
    if |s| >= 2 {
      NetSumIsCanon(s[2..]);
      CanonStep(Word(s[1], s[0]), NetWordSum(s[2..]));
    }
  }

  lemma {:induction false} SumsCongruent(s: seq<byte>) returns (k: nat)
    ensures 256 * WordSum(s) == NetWordSum(s) + 0xFFFF * k
    ensures WordSum(s) == 0 <==> NetWordSum(s) == 0
  {
    if |s| < 2 {
      k := 0;
    } else {
      k := SumsCongruent(s[2..]);
      k := k + s[1];
    }
  }

  /** Section 2(B) of RFC 1071: the little-endian result, stored little endian, is on the
      wire the checksum the RFC defines in network order, odd lengths included. */
  lemma ByteOrderIndependent(s: seq<byte>)
    ensures Le16(Checksum(s)) == Be16(0xFFFF - NetSum(s))
  {
    var k := SumsCongruent(s);
    OnesSumIsCanon(s);
    NetSumIsCanon(s);
    var c := OnesSum(s);
    var q := CanonQuotient(WordSum(s));
    SwapCongruent(c);
    CanonUnique(NetWordSum(s), Swap(c), c / 256 + 256 * q - k);
  }

  lemma SwapCongruent(c: u16)
    ensures 256 * (c as int) == Swap(c) + 0xFFFF * (c / 256)
    ensures Swap(c) == 0 <==> c == 0
    ensures Le16(0xFFFF - c) == Be16(0xFFFF - Swap(c))
  {
    hide Le16, Be16, Low8, High8;
    var lo, hi := c % 256, c / 256;
    assert c == Word(lo, hi) && Swap(c) == Word(hi, lo);
    SameOctets(lo, hi);
  }

  lemma SameOctets(lo: byte, hi: byte)
    ensures Le16(0xFFFF - Word(lo, hi)) == Be16(0xFFFF - Word(hi, lo))
  {
    hide Low8, High8;
    var l, b := Le16(0xFFFF - Word(lo, hi)), Be16(0xFFFF - Word(hi, lo));
    assert l[0] == 255 - lo && l[1] == 255 - hi && b[1] == 255 - hi && b[0] == 255 - lo;
  }
}

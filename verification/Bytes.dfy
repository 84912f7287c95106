/** Bytes, machine words and in-place copies shared by the models.
    The target is little endian with an 8-bit unsigned char and a 32-bit int. */
module Bytes {

  type byte = x: int | 0 <= x < 0x100
  type u16 = x: int | 0 <= x < 0x1_0000
  type u32 = x: int | 0 <= x < 0x1_0000_0000
  type int32 = x: int | -0x8000_0000 <= x < 0x8000_0000

  // Shifting and cutting unsigned numbers without / and %: by the inequalities that fix the quotient, or
  // as repeated subtraction, a recursion being unfolded only as far as a proof asks for it.

  /** n >> 1 */
  function Half(n: nat): (q: nat)
    ensures 2 * q <= n < 2 * q + 2
  {
    assert 2 * (n / 2) <= n < 2 * (n / 2) + 2;
    var q: nat :| 2 * q <= n < 2 * q + 2; q
  }

  /** n & 3 */
  function Low2(n: nat): (r: nat)
    ensures r < 4
  {
    assert n == 4 * (n / 4) + n % 4;
    var q: nat :| 4 * q <= n < 4 * q + 4; n - 4 * q
  }

  function Low4(n: nat): (r: nat)
    ensures r < 16
  {
    if n < 16 then n else Low4(n - 16)
  }

  function Low7(n: nat): (r: nat)
    ensures r < 128
  {
    if n < 128 then n else Low7(n - 128)
  }

  function Low8(n: nat): (r: byte) {
    if n < 256 then n else Low8(n - 256)
  }

  function High8(n: nat): (q: nat)
    ensures n == 256 * q + Low8(n)
  {
    if n < 256 then 0 else High8(n - 256) + 1
  }

  function Low16(n: nat): (r: u16) {
    if n < 0x1_0000 then n else Low16(n - 0x1_0000)
  }

  /** They are what the machine computes. */
  lemma {:induction false} Low4IsMod(n: nat)
    ensures Low4(n) == n % 16
  {
    if n >= 16 {
      Low4IsMod(n - 16);
    }
  }

  lemma {:induction false} Low7IsMod(n: nat)
    ensures Low7(n) == n % 128
  {
    if n >= 128 {
      Low7IsMod(n - 128);
    }
  }

  lemma ByteCutsAreMod(n: nat)
    ensures Low8(n) == n % 256 && High8(n) == n / 256
  {
    assert n == 256 * High8(n) + Low8(n);
  }

  lemma {:induction false} Low16IsMod(n: nat)
    ensures Low16(n) == n % 0x1_0000
  {
    if n >= 0x1_0000 {
      Low16IsMod(n - 0x1_0000);
    }
  }

  lemma MulAtLeast(t: int, n: nat)
    requires t >= 1
    ensures t * n >= n
  {
    assert (t - 1) * n >= 0;
  }

  /** A remainder that fits is the remainder. */
  lemma ModUnique(x: nat, n: nat, q: nat, r: nat)
    requires n > 0 && r < n && x == q * n + r
    ensures x % n == r
  {
    var p, s := x / n, x % n;
    assert x == p * n + s;
    assert (q - p) * n == s - r;
    assert (p - q) * n == r - s;
    if p < q {
      MulAtLeast(q - p, n);
    } else if q < p {
      MulAtLeast(p - q, n);
    }
  }

  /** The two bytes of a word as the little-endian machine stores them. */
  function Le16(x: u16): (s: seq<byte>)
    ensures |s| == 2 && Word(s[0], s[1]) == x
  {
    [Low8(x), High8(x)]
  }

  /** The two bytes of a word in network order. */
  function Be16(x: u16): (s: seq<byte>)
    ensures |s| == 2 && Word(s[1], s[0]) == x
  {
    [High8(x), Low8(x)]
  }

  /** The number lo + 256 hi. */
  function Word(lo: int, hi: int): int {
    lo + 256 * hi
  }

  /** A 32-bit number read in network order, and written in it. */
  function FromBe32(s: seq<byte>): u32
    requires |s| == 4
  {
    FourBytes(s);
    BigEndian(s)
  }

  /** A number of any length read in network order. */
  function BigEndian(s: seq<byte>): nat {
    if s == [] then 0 else Word(s[|s| - 1], BigEndian(s[..|s| - 1]))
  }

  lemma FourBytes(s: seq<byte>)
    requires |s| == 4
    ensures BigEndian(s) == 0x1_0000 * Word(s[1], s[0]) + Word(s[3], s[2])
    ensures BigEndian(s) < 0x1_0000_0000
  {
    assert s[..3][..2] == s[..2] && s[..2][..1] == s[..1] && s[..1][..0] == [];
    assert BigEndian(s[..1]) == s[0] && BigEndian(s[..2]) == Word(s[1], s[0]);
    assert BigEndian(s[..3]) == Word(s[2], Word(s[1], s[0]));
  }

  function Be32(x: u32): (s: seq<byte>)
    ensures |s| == 4 && FromBe32(s) == x
  {
    var r := Be16(x / 0x1_0000) + Be16(x % 0x1_0000);
    FourBytes(r);
    r
  }

  /** n zero bytes. */
  function Zeros(n: nat): (s: seq<byte>)
    ensures |s| == n
  {
    seq(n, _ => 0)
  }

  /** s with the bytes from position i on overwritten by t. */
  function Splice(s: seq<byte>, i: nat, t: seq<byte>): (r: seq<byte>)
    requires i + |t| <= |s|
    ensures |r| == |s|
  {
    s[..i] + t + s[i + |t|..]
  }

  /** A store over everything, one next to the last, over the last, and over its tail. */
  lemma SpliceAll(s: seq<byte>, t: seq<byte>)
    requires |s| == |t|
    ensures Splice(s, 0, t) == t
  {}

  lemma SpliceTwice(s: seq<byte>, i: nat, t: seq<byte>, v: seq<byte>)
    requires i + |t| + |v| <= |s|
    ensures Splice(Splice(s, i, t), i + |t|, v) == Splice(s, i, t + v)
  {}

  lemma SpliceOver(s: seq<byte>, i: nat, t: seq<byte>, v: seq<byte>)
    requires i + |t| <= |s| && |t| == |v|
    ensures Splice(Splice(s, i, t), i, v) == Splice(s, i, v)
  {}

  lemma SpliceTail(s: seq<byte>, i: nat, t: seq<byte>, v: seq<byte>, w: seq<byte>)
    requires i + |t| + |v| <= |s| && |v| == |w|
    ensures Splice(Splice(s, i, t + v), i + |t|, w) == Splice(s, i, t + w)
  {}

  lemma SpliceHead(s: seq<byte>, i: nat, t: seq<byte>, v: seq<byte>, u: seq<byte>)
    requires i + |t| + |v| <= |s| && |t| == |u|
    ensures Splice(Splice(s, i, t + v), i, u) == Splice(s, i, u + v)
  {}

  lemma SpliceShift(o: seq<byte>, d: seq<byte>, i: nat, v: seq<byte>)
    requires i + |v| <= |d|
    ensures o + Splice(d, i, v) == Splice(o + d, |o| + i, v)
  {}

  /** What a store left behind and beyond it reads as. */
  lemma SpliceSlice(s: seq<byte>, i: nat, t: seq<byte>, n: nat)
    requires i + |t| <= i + n <= |s|
    ensures Splice(s, i, t)[i..i + n] == t + s[i + |t|..i + n]
  {}

  /** Slices of a buffer after a store: inside it, and clear of it. */
  lemma SliceIn(s: seq<byte>, i: nat, t: seq<byte>, a: nat, c: nat)
    requires i + |t| <= |s| && a <= c <= |t|
    ensures Splice(s, i, t)[i + a..i + c] == t[a..c]
  {
    assert forall k | a <= k < c :: Splice(s, i, t)[i + k] == t[k];
  }

  lemma ByteIn(s: seq<byte>, i: nat, t: seq<byte>, k: nat)
    requires i + |t| <= |s| && k < |t|
    ensures Splice(s, i, t)[i + k] == t[k]
  {}

  lemma ByteOut(s: seq<byte>, i: nat, t: seq<byte>, k: nat)
    requires i + |t| <= |s| && k < |s| && !(i <= k < i + |t|)
    ensures Splice(s, i, t)[k] == s[k]
  {}

  lemma SliceOut(s: seq<byte>, i: nat, t: seq<byte>, a: nat, c: nat)
    requires i + |t| <= |s| && a <= c <= |s| && (c <= i || i + |t| <= a)
    ensures Splice(s, i, t)[a..c] == s[a..c]
  {}

  lemma SliceOfSlice(s: seq<byte>, b: nat, e: nat, a: nat, c: nat)
    requires b <= e <= |s| && a <= c <= e - b
    ensures s[b..e][a..c] == s[b + a..b + c]
  {
    forall k | 0 <= k < c - a ensures s[b..e][a..c][k] == s[b + a..b + c][k] {
      assert s[b..e][a..c][k] == s[b..e][a + k];
    }
  }

  lemma Regroup(a: seq<byte>, b: seq<byte>, c: seq<byte>)
    ensures a + (b + c) == (a + b) + c
  {}

  /** C's memcpy from a value: the bytes of t land at a[i..], nothing else moves. */
  method Store(a: array<byte>, i: nat, t: seq<byte>)
    requires i + |t| <= a.Length
    modifies a
    ensures a[..] == Splice(old(a[..]), i, t)
  {
    forall k | 0 <= k < |t| {
      a[i + k] := t[k];
    }
  }

  /** C's memmove: source and destination may overlap. */
  method MemMove(a: array<byte>, dst: nat, src: nat, n: nat)
    requires dst + n <= a.Length && src + n <= a.Length
    modifies a
    ensures a[..] == Splice(old(a[..]), dst, old(a[..])[src..src + n])
  {
    forall k | 0 <= k < n {
      a[dst + k] := a[src + k];
    }
  }
}

/** The round robin of send_rs_frame in iec104/plcserver.c: where the next poll goes, and the
    order of all polls to come. */
module PollOrder {
  import opened Bytes

  /** The enabled channels among `n` candidates from position `a` on, counted around the ring. */
  function Window(flags: seq<bool>, a: nat, n: nat): seq<nat>
    requires flags != []
    decreases n
  {
    if n == 0 then []
    else
      var k := a % |flags|;
      (if flags[k] then [k] else []) + Window(flags, a + 1, n - 1)
  }

  /** The enabled channels in cyclic order, the one after `sub` first. */
  function EnabledAfter(flags: seq<bool>, sub: int): seq<nat>
    requires flags != [] && -1 <= sub < |flags|
  {
    Window(flags, sub + 1, |flags|)
  }

  /** The channel the loop stops at: at most `n` increments, ending early at an enabled one. */
  function Scan(flags: seq<bool>, sub: int, n: nat): (k: int)
    requires flags != [] && -1 <= sub < |flags|
    ensures -1 <= k < |flags|
    ensures n > 0 ==> k >= 0
    decreases n
  {
    if n == 0 then sub
    else
      var k := (sub + 1) % |flags|;
      if flags[k] then k else Scan(flags, k, n - 1)
  }

  function NextPoll(flags: seq<bool>, sub: int): (k: nat)
    requires flags != [] && -1 <= sub < |flags|
    ensures k < |flags|
  {
    Scan(flags, sub, |flags|)
  }

  /** The channels of `n` consecutive polls. */
  function Polls(flags: seq<bool>, sub: int, n: nat): (p: seq<nat>)
    requires flags != [] && -1 <= sub < |flags|
    ensures |p| == n
    decreases n
  {
    if n == 0 then [] else [NextPoll(flags, sub)] + Polls(flags, NextPoll(flags, sub), n - 1)
  }

  lemma AddRing(a: nat, n: nat)
    requires n > 0
    ensures (a + n) % n == a % n
  {
    var q, r := a / n, a % n;
    assert (q + 1) * n == q * n + n;
    ModUnique(a + n, n, q + 1, r);
  }

  lemma NextMod(a: nat, n: nat)
    requires n > 0
    ensures (a % n + 1) % n == (a + 1) % n
  {
    var q, r := a / n, a % n;
    if r + 1 == n {
      assert (q + 1) * n == q * n + n;
      ModUnique(a + 1, n, q + 1, 0);
      ModUnique(n, n, 1, 0);
    } else {
      ModUnique(a + 1, n, q, r + 1);
      ModUnique(r + 1, n, 0, r + 1);
    }
  }

  lemma {:induction false} WindowSplit(flags: seq<bool>, a: nat, m: nat, n: nat)
    requires flags != []
    ensures Window(flags, a, m + n) == Window(flags, a, m) + Window(flags, a + m, n)
    decreases m
  {
    if m > 0 {
      WindowSplit(flags, a + 1, m - 1, n);
    }
  }

  /** Positions that agree around the ring see the same channels. */
  lemma {:induction false} WindowShift(flags: seq<bool>, a: nat, b: nat, n: nat)
    requires flags != [] && a % |flags| == b % |flags|
    ensures Window(flags, a, n) == Window(flags, b, n)
    decreases n
  {
    if n > 0 {
      NextMod(a, |flags|);
      NextMod(b, |flags|);
      WindowShift(flags, a + 1, b + 1, n - 1);
    }
  }

  /** The loop stops at the first enabled channel of the window. */
  lemma {:induction false} ScanFirst(flags: seq<bool>, a: nat, sub: int, n: nat) returns (d: nat)
    requires flags != [] && -1 <= sub < |flags| && (sub + 1) % |flags| == a % |flags|
    requires Window(flags, a, n) != []
    ensures d < n && Window(flags, a, d) == []
    ensures flags[(a + d) % |flags|] && Scan(flags, sub, n) == (a + d) % |flags|
    decreases n
  {
    if flags[a % |flags|] {
      d := 0;
    } else {
      NextMod(a, |flags|);
      var e := ScanFirst(flags, a + 1, a % |flags|, n - 1);
      d := e + 1;
      assert a + d == a + 1 + e;
    }
  }

  lemma WindowFrom(flags: seq<bool>, a: nat, d: nat, n: nat)
    requires flags != [] && d < n && Window(flags, a, d) == [] && flags[(a + d) % |flags|]
    ensures Window(flags, a, n) == [(a + d) % |flags|] + Window(flags, a + d + 1, n - d - 1)
    ensures Window(flags, a, d + 1) == [(a + d) % |flags|]
  {
    WindowSplit(flags, a, d, n - d);
    WindowSplit(flags, a, d, 1);
  }

  /** One poll takes the head of the cyclic order and puts it at the end. */
  lemma PollRotates(flags: seq<bool>, sub: int)
    requires flags != [] && -1 <= sub < |flags| && EnabledAfter(flags, sub) != []
    ensures NextPoll(flags, sub) == EnabledAfter(flags, sub)[0]
    ensures EnabledAfter(flags, NextPoll(flags, sub)) == EnabledAfter(flags, sub)[1..] + [NextPoll(flags, sub)]
  {
    hide Window, Scan;
    var n, a := |flags|, sub + 1;
    var d := ScanFirst(flags, a, sub, n);
    var p := NextPoll(flags, sub);
    WindowFrom(flags, a, d, n);
    var rest := Window(flags, a + d + 1, n - d - 1);
    assert EnabledAfter(flags, sub) == [p] + rest;
    NextMod(a + d, n);
    WindowShift(flags, p + 1, a + d + 1, n);
    WindowSplit(flags, a + d + 1, n - d - 1, d + 1);
    assert a + d + 1 + (n - d - 1) == a + n;
    AddRing(a, n);
    WindowShift(flags, a + n, a, d + 1);
  }

  /** Any m consecutive polls, m the number of enabled channels, visit them in cyclic order. */
  lemma {:induction false} PollsCycle(flags: seq<bool>, sub: int, n: nat)
    requires flags != [] && -1 <= sub < |flags| && n <= |EnabledAfter(flags, sub)|
    ensures Polls(flags, sub, n) == EnabledAfter(flags, sub)[..n]
    decreases n
  {
    if n > 0 {
      var e, p := EnabledAfter(flags, sub), NextPoll(flags, sub);
      PollRotates(flags, sub);
      PollsCycle(flags, p, n - 1);
      assert e[..n] == [e[0]] + e[1..][..n - 1];
    }
  }

  function Count(flags: seq<bool>): nat {
    if flags == [] then 0 else (if flags[0] then 1 else 0) + Count(flags[1..])
  }

  lemma {:induction false} FirstWindow(flags: seq<bool>, a: nat, n: nat, k: nat)
    requires flags != [] && a + n <= |flags|
    ensures multiset(Window(flags, a, n))[k] == (if a <= k < a + n && flags[k] then 1 else 0)
    decreases n
  {
    if n > 0 {
      var w := Window(flags, a + 1, n - 1);
      FirstWindow(flags, a + 1, n - 1, k);
      ModUnique(a, |flags|, 0, a);
      if flags[a] {
        assert multiset([a] + w) == multiset{a} + multiset(w);
      } else {
        assert [] + w == w;
      }
    }
  }

  lemma {:induction false} WindowSize(flags: seq<bool>, a: nat, n: nat)
    requires flags != [] && a + n <= |flags|
    ensures |Window(flags, a, n)| == Count(flags[a..a + n])
    decreases n
  {
    if n > 0 {
      WindowSize(flags, a + 1, n - 1);
      ModUnique(a, |flags|, 0, a);
      assert flags[a..a + n][1..] == flags[a + 1..a + n];
    }
  }

  lemma WindowRotates(flags: seq<bool>, b: nat) returns (one: seq<nat>, rest: seq<nat>)
    requires flags != []
    ensures Window(flags, b, |flags|) == one + rest && Window(flags, b + 1, |flags|) == rest + one
  {
    hide Window;
    var n := |flags|;
    one, rest := Window(flags, b, 1), Window(flags, b + 1, n - 1);
    WindowSplit(flags, b, 1, n - 1);
    WindowSplit(flags, b + 1, n - 1, 1);
    AddRing(b, n);
    assert b + 1 + (n - 1) == b + n;
    WindowShift(flags, b + n, b, 1);
  }

  lemma {:induction false} WindowBag(flags: seq<bool>, a: nat)
    requires flags != []
    ensures multiset(Window(flags, a, |flags|)) == multiset(Window(flags, 0, |flags|))
    decreases a
  {
    hide Window;
    if a > 0 {
      WindowBag(flags, a - 1);
      var one, rest := WindowRotates(flags, a - 1);
      assert multiset(one + rest) == multiset(rest + one);
    }
  }

  lemma EnabledBag(flags: seq<bool>, sub: int)
    requires flags != [] && -1 <= sub < |flags|
    ensures |EnabledAfter(flags, sub)| == Count(flags)
    ensures multiset(EnabledAfter(flags, sub)) == multiset(Window(flags, 0, |flags|))
  {
    hide Window, Count;
    WindowBag(flags, sub + 1);
    WindowSize(flags, 0, |flags|);
    assert flags[0..0 + |flags|] == flags;
    var e, w := EnabledAfter(flags, sub), Window(flags, 0, |flags|);
    assert |e| == |multiset(e)| == |multiset(w)| == |w|;
  }

  /** From any position, also the initial -1: as many consecutive polls as there are enabled
      channels poll every enabled channel exactly once and no other. */
  lemma EachPolledOnce(flags: seq<bool>, sub: int, k: nat)
    requires flags != [] && -1 <= sub < |flags|
    ensures multiset(Polls(flags, sub, Count(flags)))[k] == (if k < |flags| && flags[k] then 1 else 0)
  {
    hide Window, Count, Polls;
    var e := EnabledAfter(flags, sub);
    EnabledBag(flags, sub);
    FirstWindow(flags, 0, |flags|, k);
    PollsCycle(flags, sub, |e|);
    assert e[..|e|] == e;
  }

  /** With nothing enabled the loop goes once around the ring. */
  lemma {:induction false} NoneEnabled(flags: seq<bool>, sub: int, n: nat)
    requires flags != [] && -1 <= sub < |flags| && Count(flags) == 0
    ensures n > 0 ==> Scan(flags, sub, n) == (sub + n) % |flags|
    decreases n
  {
    if n > 0 {
      var k := (sub + 1) % |flags|;
      CountZero(flags, k);
      if n > 1 {
        NoneEnabled(flags, k, n - 1);
        SumMod(sub + 1, n - 1, |flags|);
      }
    }
  }

  lemma {:induction false} CountZero(flags: seq<bool>, k: nat)
    requires k < |flags| && Count(flags) == 0
    ensures !flags[k]
    decreases k
  {
    if k > 0 {
      CountZero(flags[1..], k - 1);
    }
  }

  lemma {:induction false} SumMod(a: nat, m: nat, n: nat)
    requires n > 0
    ensures (a % n + m) % n == (a + m) % n
    decreases m
  {
    if m > 0 {
      SumMod(a, m - 1, n);
      NextMod(a % n + (m - 1), n);
      NextMod(a + (m - 1), n);
    } else {
      ModUnique(a % n, n, 0, a % n);
    }
  }
}

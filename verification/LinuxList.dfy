/** The intrusive circular list of network/esmtp-1.0/list.h. A ring is described by the sequence of
    its nodes from any one of them on; a list is the ring of its head followed by its entries. */
module LinuxList {

  /** struct list_head */
  class Node {
    var next: Node?
    var prev: Node?
  }

  predicate Distinct(r: seq<Node>) {
    forall i, j :: 0 <= i < j < |r| ==> r[i] != r[j]
  }

  predicate Link(x: Node, y: Node)
    reads x, y
  {
    x.next == y && y.prev == x
  }

  /** Neighbours in r are linked both ways. */
  ghost predicate Chain(r: seq<Node>)
    reads r
  {
    forall i :: 0 <= i < |r| - 1 ==> Link(r[i], r[i + 1])
  }

  /** Following next from r[0] passes through all of r and comes back, and prev undoes next. */
  ghost predicate Ring(r: seq<Node>)
    reads r
  {
    r != [] && Distinct(r) && Chain(r) && Link(r[|r| - 1], r[0])
  }

  lemma DistinctParts(a: seq<Node>, b: seq<Node>)
    ensures Distinct(a + b) <==> Distinct(a) && Distinct(b) && forall n :: n in a ==> n !in b
  {
    var r := a + b;
    if Distinct(r) {
      assert forall i :: 0 <= i < |a| ==> r[i] == a[i];
      assert forall i :: 0 <= i < |b| ==> r[|a| + i] == b[i];
    }
    if Distinct(a) && Distinct(b) && forall n :: n in a ==> n !in b {
      forall i, j | 0 <= i < j < |r| ensures r[i] != r[j] {
        if i < |a| <= j {
          assert r[i] in a && r[j] in b;
        }
      }
    }
  }

  lemma ChainParts(a: seq<Node>, b: seq<Node>)
    ensures Chain(a + b) <==>
      Chain(a) && Chain(b) && (a != [] && b != [] ==> Link(a[|a| - 1], b[0]))
  {
    var r := a + b;
    hide Link;
    if Chain(r) {
      forall i | 0 <= i < |a| - 1 ensures Link(a[i], a[i + 1]) {
        assert r[i] == a[i] && r[i + 1] == a[i + 1];
      }
      forall i | 0 <= i < |b| - 1 ensures Link(b[i], b[i + 1]) {
        assert r[|a| + i] == b[i] && r[|a| + i + 1] == b[i + 1];
      }
      if a != [] && b != [] {
        assert r[|a| - 1] == a[|a| - 1] && r[|a| - 1 + 1] == b[0];
      }
    }
    if Chain(a) && Chain(b) && (a != [] && b != [] ==> Link(a[|a| - 1], b[0])) {
      forall i | 0 <= i < |r| - 1 ensures Link(r[i], r[i + 1]) {
        if i < |a| - 1 {
          assert r[i] == a[i] && r[i + 1] == a[i + 1];
        } else if i >= |a| {
          assert r[i] == b[i - |a|] && r[i + 1] == b[i - |a| + 1];
        }
      }
    }
  }

  /** A ring may be read from any of its nodes on. */
  lemma Rotate(a: seq<Node>, b: seq<Node>)
    requires Ring(a + b)
    ensures Ring(b + a)
  {
    if a == [] || b == [] {
      assert a + b == b + a;
    } else {
      DistinctParts(a, b);
      DistinctParts(b, a);
      ChainParts(a, b);
      ChainParts(b, a);
      assert (a + b)[0] == a[0] && (a + b)[|a + b| - 1] == b[|b| - 1];
      assert (b + a)[0] == b[0] && (b + a)[|b + a| - 1] == a[|a| - 1];
    }
  }

  /** INIT_LIST_HEAD */
  method InitListHead(node: Node)
    modifies node
    ensures Ring([node])
  {
    node.next := node;
    node.prev := node;
  }

  /** __list_add, the ring read from `next` on: the entry closes it. */
  method AddBetween(node: Node, prev: Node, next: Node, ghost r: seq<Node>)
    requires Ring(r) && node !in r && next == r[0] && prev == r[|r| - 1]
    modifies node, prev`next, next`prev
    ensures Ring(r + [node])
  {
    next.prev := node;
    node.next := next;
    node.prev := prev;
    prev.next := node;
    DistinctParts(r, [node]);
    assert Chain(r);
    ChainParts(r, [node]);
  }

  /** list_add: right after any node of a ring; after the head, the entry becomes the first. */
  method ListAdd(node: Node, head: Node, ghost s: seq<Node>)
    requires Ring([head] + s) && node !in [head] + s
    modifies node, head, s
    ensures Ring([head, node] + s)
  {
    Rotate([head], s);
    assert s != [] ==> head.next == s[0] by { assert s != [] ==> Link(([head] + s)[0], ([head] + s)[1]); }
    AddBetween(node, head, head.next, s + [head]);
    assert s + [head] + [node] == s + [head, node];
    Rotate(s, [head, node]);
  }

  /** list_add_tail: right before any node; before the head, the entry becomes the last. */
  method ListAddTail(node: Node, head: Node, ghost s: seq<Node>)
    requires Ring([head] + s) && node !in [head] + s
    modifies node, head, s
    ensures Ring([head] + s + [node])
  {
    AddBetween(node, head.prev, head, [head] + s);
  }

  /** __list_del, the ring read from the entry on. */
  method Unlink(prev: Node, next: Node, ghost node: Node, ghost s: seq<Node>)
    requires Ring([node] + s) && s != [] && next == s[0] && prev == s[|s| - 1]
    modifies next`prev, prev`next
    ensures Ring(s)
  {
    DistinctParts([node], s);
    ChainParts([node], s);
    next.prev := prev;
    prev.next := next;
    assert Chain(s);
  }

  lemma HeadApart(head: Node, s: seq<Node>)
    requires Distinct([head] + s)
    ensures head !in s && Distinct(s)
  {
    DistinctParts([head], s);
    assert head in [head];
  }

  lemma Neighbours(node: Node, s: seq<Node>)
    requires Ring([node] + s) && s != []
    ensures node.next == s[0] && node.prev == s[|s| - 1]
  {
    var r := [node] + s;
    assert Link(r[0], r[1]) && Link(r[|r| - 1], r[0]);
  }

  /** list_del, `s` the ring without the entry. The entry is left without neighbours. */
  method ListDel(entry: Node, ghost s: seq<Node>)
    requires Ring([entry] + s) && s != []
    modifies entry, s
    ensures Ring(s) && entry.next == null && entry.prev == null
  {
    Neighbours(entry, s);
    HeadApart(entry, s);
    Unlink(entry.prev, entry.next, entry, s);
    entry.next := null;
    entry.prev := null;
  }

  /** list_del_init: the entry becomes a list of its own. */
  method ListDelInit(entry: Node, ghost s: seq<Node>)
    requires Ring([entry] + s) && s != []
    modifies entry, s
    ensures Ring(s) && Ring([entry])
  {
    Neighbours(entry, s);
    HeadApart(entry, s);
    Unlink(entry.prev, entry.next, entry, s);
    InitListHead(entry);
  }

  /** list_move within one ring: `t` is what remains without the entry, read from the new head on. */
  method ListMove(list: Node, head: Node, ghost s: seq<Node>, ghost t: seq<Node>)
    requires Ring([list] + s) && s != [] && SameRing(s, [head] + t)
    modifies list, s
    ensures Ring([head, list] + t)
  {
    Neighbours(list, s);
    HeadApart(list, s);
    Unlink(list.prev, list.next, list, s);
    Turn(s, [head] + t);
    assert head in [head] + t && head in s;
    assert forall i :: 0 <= i < |t| ==> t[i] in [head] + t && t[i] in s;
    ListAdd(list, head, t);
  }

  /** list_move_tail within one ring. */
  method ListMoveTail(list: Node, head: Node, ghost s: seq<Node>, ghost t: seq<Node>)
    requires Ring([list] + s) && s != [] && SameRing(s, [head] + t)
    modifies list, s
    ensures Ring([head] + t + [list])
  {
    Neighbours(list, s);
    HeadApart(list, s);
    Unlink(list.prev, list.next, list, s);
    Turn(s, [head] + t);
    assert head in [head] + t && head in s;
    assert forall i :: 0 <= i < |t| ==> t[i] in [head] + t && t[i] in s;
    ListAddTail(list, head, t);
  }

  /** r and q read the same ring from two of its nodes. */
  predicate SameRing(r: seq<Node>, q: seq<Node>) {
    |r| == |q| && exists k :: 0 <= k <= |r| && q == r[k..] + r[..k]
  }

  /** It can be read from any of them. */
  lemma FromAnyNode(r: seq<Node>, n: Node) returns (q: seq<Node>)
    requires n in r
    ensures SameRing(r, [n] + q)
  {
    var k :| 0 <= k < |r| && r[k] == n;
    q := r[k + 1..] + r[..k];
    assert [n] + q == r[k..] + r[..k];
  }

  lemma Turn(r: seq<Node>, q: seq<Node>)
    requires Ring(r) && SameRing(r, q)
    ensures Ring(q) && forall n :: n in r <==> n in q
  {
    var k :| 0 <= k <= |r| && q == r[k..] + r[..k];
    assert r == r[..k] + r[k..];
    Rotate(r[..k], r[k..]);
  }

  ghost predicate Apart(r: seq<Node>, q: seq<Node>) {
    forall n :: n in r ==> n !in q
  }

  lemma ApartParts(list: Node, s: seq<Node>, head: Node, t: seq<Node>)
    requires Apart([list] + s, [head] + t)
    ensures list != head && list !in t && head !in s && Apart(s, t)
  {
    assert list in [list] + s && head in [head] + t;
    assert forall n :: n in s ==> n in [list] + s;
    assert forall n :: n in t ==> n in [head] + t;
  }

  /** list_move from one list to another. */
  method ListMoveAcross(list: Node, head: Node, ghost s: seq<Node>, ghost t: seq<Node>)
    requires Ring([list] + s) && s != [] && Ring([head] + t) && Apart([list] + s, [head] + t)
    modifies list, s, head, t
    ensures Ring(s) && Ring([head, list] + t) && Apart(s, [head, list] + t)
  {
    Neighbours(list, s);
    ApartParts(list, s, head, t);
    HeadApart(list, s);
    assert s[0] in s && s[|s| - 1] in s;
    Unlink(list.prev, list.next, list, s);
    assert Ring([head] + t);
    assert Ring(s);
    assert forall i :: 0 <= i < |s| ==> s[i] !in t && s[i] != head && s[i] != list;
    ListAdd(list, head, t);
  }

  /** list_empty */
  method ListEmpty(head: Node, ghost s: seq<Node>) returns (empty: bool)
    requires Ring([head] + s)
    ensures empty <==> s == []
  {
    if s != [] {
      Neighbours(head, s);
      HeadApart(head, s);
    }
    empty := head.next == head;
  }

  /** __list_splice */
  method SpliceAfter(list: Node, head: Node, ghost s: seq<Node>, ghost t: seq<Node>)
    requires Ring([list] + s) && s != [] && Ring([head] + t) && Apart([list] + s, [head] + t)
    modifies s, head, t
    ensures Ring([head] + s + t)
  {
    Neighbours(list, s);
    ApartParts(list, s, head, t);
    HeadApart(list, s);
    ChainParts([list], s);
    Rotate([head], t);
    ghost var q := t + [head];
    HeadNext(head, t);
    var first := list.next;
    var last := list.prev;
    var at := head.next;
    first.prev := head;
    head.next := first;
    last.next := at;
    at.prev := last;
    assert Chain(s);
    assert Chain(q);
    ChainParts(q, s);
    DistinctParts(q, s);
    assert Link((q + s)[|q + s| - 1], (q + s)[0]);
    assert q + s == t + ([head] + s);
    Rotate(t, [head] + s);
  }

  lemma HeadNext(head: Node, t: seq<Node>)
    requires Ring([head] + t)
    ensures head.next == (t + [head])[0]
  {
    if t != [] {
      Neighbours(head, t);
    }
  }

  /** list_splice: the entries of one list in front of those of the other; `list` itself keeps
      pointing at them. */
  method ListSplice(list: Node, head: Node, ghost s: seq<Node>, ghost t: seq<Node>)
    requires Ring([list] + s) && Ring([head] + t) && Apart([list] + s, [head] + t)
    modifies s, head, t
    ensures Ring([head] + s + t) && list.next == old(list.next) && list.prev == old(list.prev)
  {
    ApartParts(list, s, head, t);
    HeadApart(list, s);
    var empty := ListEmpty(list, s);
    if !empty {
      SpliceAfter(list, head, s, t);
    } else {
      assert [head] + s + t == [head] + t;
    }
  }

  /** list_splice_init: all entries change lists, none is lost, and both heads are lists. */
  method ListSpliceInit(list: Node, head: Node, ghost s: seq<Node>, ghost t: seq<Node>)
    requires Ring([list] + s) && Ring([head] + t) && Apart([list] + s, [head] + t)
    modifies list, s, head, t
    ensures Ring([head] + s + t) && Ring([list]) && list !in [head] + s + t
  {
    ApartParts(list, s, head, t);
    HeadApart(list, s);
    var empty := ListEmpty(list, s);
    if !empty {
      SpliceAfter(list, head, s, t);
      InitListHead(list);
    } else {
      assert [head] + s + t == [head] + t;
      assert [list] + s == [list];
    }
  }

  /** The entries of s that are not to be dropped, in order. */
  ghost function Kept(s: seq<Node>, drop: set<Node>): (k: seq<Node>)
    ensures forall i :: 0 <= i < |k| ==> k[i] in s && k[i] !in drop
  {
    if s == [] then []
    else Kept(s[..|s| - 1], drop) + (if s[|s| - 1] in drop then [] else [s[|s| - 1]])
  }

  lemma KeptSnoc(s: seq<Node>, drop: set<Node>, n: Node)
    ensures Kept(s + [n], drop) == Kept(s, drop) + (if n in drop then [] else [n])
  {
    assert (s + [n])[..|s + [n]| - 1] == s;
  }

  /** The ring seen from the entry where the loop stands. */
  lemma AtPosition(head: Node, k: seq<Node>, pos: Node, rest: seq<Node>)
    requires Ring([head] + k + ([pos] + rest))
    ensures Ring([pos] + (rest + [head] + k)) && pos.next == (rest + [head])[0]
  {
    Rotate([head] + k, [pos] + rest);
    assert [pos] + rest + ([head] + k) == [pos] + (rest + [head] + k);
    Neighbours(pos, rest + [head] + k);
    assert (rest + [head] + k)[0] == (rest + [head])[0];
  }

  lemma FromPosition(head: Node, k: seq<Node>, rest: seq<Node>)
    requires Ring(rest + [head] + k)
    ensures Ring([head] + k + rest)
  {
    assert rest + [head] + k == rest + ([head] + k);
    Rotate(rest, [head] + k);
  }

  lemma RingDistinct(r: seq<Node>)
    requires Ring(r)
    ensures Distinct(r)
  {
  }

  lemma StartKept(head: Node, s: seq<Node>, drop: set<Node>)
    ensures [head] + Kept([], drop) + s == [head] + s
  {
  }

  lemma HeadLast(head: Node, done: seq<Node>, rest: seq<Node>)
    requires Distinct([head] + (done + rest))
    ensures (rest + [head])[0] == head <==> rest == []
  {
    HeadApart(head, done + rest);
    if rest != [] {
      assert rest[0] in done + rest;
    }
  }

  /** The body of the loop deleting the entry where it stands. */
  method DropAt(head: Node, pos: Node, ghost k: seq<Node>, ghost rest: seq<Node>)
    requires Ring([head] + k + ([pos] + rest))
    modifies pos, head, k, rest
    ensures Ring([head] + k + rest) && pos.next == null && pos.prev == null
  {
    AtPosition(head, k, pos, rest);
    ListDel(pos, rest + [head] + k);
    FromPosition(head, k, rest);
  }

  /** Entries already dropped are out of reach of the rest of the loop. */
  lemma DroppedApart(head: Node, done: seq<Node>, rest: seq<Node>, drop: set<Node>, m: Node)
    requires Distinct([head] + (done + rest)) && m in done && m in drop
    ensures m != head && m !in rest && m !in Kept(done, drop)
  {
    HeadApart(head, done + rest);
    DistinctParts(done, rest);
    assert m in done + rest;
  }

  /** The body of the loop at pos: it deletes the entry or leaves it. */
  method VisitAt(head: Node, pos: Node, drop: set<Node>, ghost done: seq<Node>, ghost rest: seq<Node>)
    requires Ring([head] + Kept(done, drop) + ([pos] + rest)) && Distinct([head] + (done + ([pos] + rest)))
    modifies head, pos, done, rest
    ensures Ring([head] + Kept(done + [pos], drop) + rest)
    ensures forall m :: m in done && m in drop ==> m.next == old(m.next) && m.prev == old(m.prev)
    ensures pos in drop ==> pos.next == null && pos.prev == null
  {
    hide Ring, Distinct, Kept;
    ghost var k := Kept(done, drop);
    KeptSnoc(done, drop, pos);
    if pos in drop {
      forall m | m in done && m in drop ensures m != head && m != pos && m !in rest && m !in k {
        DroppedApart(head, done, [pos] + rest, drop, m);
        assert pos in [pos] + rest && forall n :: n in rest ==> n in [pos] + rest;
      }
      assert forall i :: 0 <= i < |k| ==> k[i] in done;
      DropAt(head, pos, k, rest);
      assert k + [] == k;
    } else {
      assert [head] + k + ([pos] + rest) == [head] + (k + [pos]) + rest;
    }
  }

  /** list_for_each_safe with a body that deletes the entries in `drop`: every original entry is
      visited once, in order, and the others stay listed in order. */
  method ForEachSafe(head: Node, drop: set<Node>, ghost s: seq<Node>) returns (visited: seq<Node>)
    requires Ring([head] + s)
    modifies head, s
    ensures visited == s && Ring([head] + Kept(s, drop))
    ensures forall m :: m in s && m in drop ==> m.next == null && m.prev == null
  {
    hide Kept, Ring, Distinct;
    visited := [];
    RingDistinct([head] + s);
    HeadNext(head, s);
    ghost var done, rest := [], s;
    StartKept(head, s, drop);
    var pos: Node := head.next;
    var n := pos.next;
    while pos != head
      invariant done + rest == s && visited == done
      invariant Ring([head] + Kept(done, drop) + rest)
      invariant pos == (rest + [head])[0] && n == pos.next
      invariant forall m :: m in done && m in drop ==> m.next == null && m.prev == null
      decreases |rest|
    {
      ghost var later := rest[1..];
      assert rest == [pos] + later;
      AtPosition(head, Kept(done, drop), pos, later);
      assert forall i :: 0 <= i < |done| ==> done[i] in done + rest;
      assert forall i :: 0 <= i < |later| ==> later[i] in rest && later[i] in done + rest;
      assert pos in rest && pos in done + rest;
      visited := visited + [pos];
      VisitAt(head, pos, drop, done, later);
      assert done + rest == (done + [pos]) + later;
      done, rest := done + [pos], later;
      pos := n;
      n := pos.next;
    }
    HeadLast(head, done, rest);
    assert done == s && [head] + Kept(done, drop) + rest == [head] + Kept(s, drop);
  }
}

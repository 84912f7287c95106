/** Reassembly of Modbus RTU replies from arbitrary pieces: the function that check_modbus_frame
    of iec104/plcserver.c computes on (stored bytes, new bytes), and what follows for every split. */
module ModbusFrames {
  import opened Bytes

  /** sizeof asyn_buf */
  const ASYN_SIZE := 256

  datatype Outcome = Outcome(stored: seq<byte>, delivered: seq<seq<byte>>)

  /** The length announced by the first three bytes: an exception reply has five bytes,
      a data reply as many as its third byte says, plus five. */
  function Announced(d: seq<byte>): nat
    requires |d| >= 3
  {
    var count: int := d[2];
    if d[1] >= 0x80 then 5 else 5 + count
  }

  predicate Complete(d: seq<byte>) {
    |d| >= 3 && Announced(d) <= |d|
  }

  /** A reply frame: exactly as long as it announces. */
  predicate IsReply(d: seq<byte>) {
    |d| >= 3 && |d| == Announced(d)
  }

  /** One call: what is stored afterwards and what is handed to proc_sub_data. */
  function Feed(stored: seq<byte>, chunk: seq<byte>): Outcome {
    var d := stored + chunk;
    if stored == [] then
      if Complete(d) then Outcome([], [d[..Announced(d)]]) else Outcome(d, [])
    else if |d| >= ASYN_SIZE then
      Outcome(d[..ASYN_SIZE], [d[..ASYN_SIZE]])
    else if Complete(d) then
      Outcome([], [d[..Announced(d)]])
    else
      Outcome(d, [])
  }

  function Run(stored: seq<byte>, chunks: seq<seq<byte>>): Outcome
    decreases chunks
  {
    if chunks == [] then Outcome(stored, [])
    else
      var o := Feed(stored, chunks[0]);
      var r := Run(o.stored, chunks[1..]);
      Outcome(r.stored, o.delivered + r.delivered)
  }

  function Concat(chunks: seq<seq<byte>>): seq<byte> {
    if chunks == [] then [] else chunks[0] + Concat(chunks[1..])
  }

  predicate NonEmpty(chunks: seq<seq<byte>>) {
    forall i :: 0 <= i < |chunks| ==> chunks[i] != []
  }

  /** A proper prefix of a reply is never taken for a whole frame. */
  lemma PrefixIncomplete(frame: seq<byte>, n: nat)
    requires IsReply(frame) && n < |frame|
    ensures !Complete(frame[..n])
  {
  }

  /** While pieces arrive, the port stores the pieces so far; the last one releases the frame. */
  lemma {:induction false} RestDelivers(frame: seq<byte>, stored: seq<byte>, chunks: seq<seq<byte>>)
    requires IsReply(frame) && stored + Concat(chunks) == frame
    requires NonEmpty(chunks) && chunks != []
    requires |frame| < ASYN_SIZE || (stored == [] && |chunks| == 1)
    ensures Run(stored, chunks) == Outcome([], [frame]) && AllFit(stored, chunks)
    ensures Run(stored, chunks[..|chunks| - 1]).delivered == []
    decreases chunks
  {
    var d := stored + chunks[0];
    assert frame == d + Concat(chunks[1..]);
    if |chunks| == 1 {
      assert Concat(chunks[1..]) == [];
      assert d == frame;
      assert frame[..|frame|] == frame;
      assert Feed(stored, chunks[0]) == Outcome([], [frame]);
      assert Run([], chunks[1..]) == Outcome([], []);
    } else {
      var tail := chunks[1..];
      assert Concat(tail) == tail[0] + Concat(tail[1..]);
      assert tail[0] == chunks[1] != [];
      assert d == frame[..|d|];
      PrefixIncomplete(frame, |d|);
      assert Feed(stored, chunks[0]) == Outcome(d, []);
      assert forall i :: 0 <= i < |tail| ==> tail[i] == chunks[i + 1];
      RestDelivers(frame, d, tail);
      assert chunks[..|chunks| - 1][0] == chunks[0];
      assert chunks[..|chunks| - 1][1..] == tail[..|tail| - 1];
    }
  }

  /** A full buffer is never emptied: every later piece hands over the same 256 bytes. */
  lemma {:induction false} FullForever(stored: seq<byte>, chunks: seq<seq<byte>>)
    requires |stored| == 256
    ensures Run(stored, chunks).stored == stored
    ensures Run(stored, chunks).delivered == seq(|chunks|, i => stored)
    decreases chunks
  {
    if chunks != [] {
      assert (stored + chunks[0])[..ASYN_SIZE] == stored;
      FullForever(stored, chunks[1..]);
      assert seq(|chunks|, i => stored) == [stored] + seq(|chunks| - 1, i => stored);
    }
  }

  /** A longer frame in several pieces fills the buffer. */
  lemma {:induction false} LongFills(frame: seq<byte>, stored: seq<byte>, chunks: seq<seq<byte>>)
    requires IsReply(frame) && stored + Concat(chunks) == frame && |frame| >= ASYN_SIZE
    requires NonEmpty(chunks) && chunks != [] && 0 < |stored| <= ASYN_SIZE
    ensures Run(stored, chunks).stored == frame[..ASYN_SIZE]
    decreases chunks
  {
    var d := stored + chunks[0];
    assert frame == d + Concat(chunks[1..]);
    if |d| >= ASYN_SIZE {
      assert d[..ASYN_SIZE] == frame[..ASYN_SIZE];
      FullForever(d[..ASYN_SIZE], chunks[1..]);
    } else {
      assert d == frame[..|d|];
      PrefixIncomplete(frame, |d|);
      var tail := chunks[1..];
      assert forall i :: 0 <= i < |tail| ==> tail[i] == chunks[i + 1];
      LongFills(frame, d, tail);
    }
  }

  /** The copies of one call stay inside asyn_buf. The first piece of a reply is copied unchecked, and
      read brings up to 1024 bytes. */
  lemma FitsIff(stored: seq<byte>, chunk: seq<byte>)
    requires |stored| <= ASYN_SIZE
    ensures |Feed(stored, chunk).stored| <= 256 <==> stored != [] || Complete(chunk) || |chunk| <= 256
  {
    assert [] + chunk == chunk;
  }

  /** A first piece of a reply overflows it exactly when it has 257 bytes or more and lacks some. */
  lemma PrefixOverflowsIff(frame: seq<byte>, n: nat)
    requires IsReply(frame) && n <= |frame|
    ensures |Feed([], frame[..n]).stored| > 256 <==> 256 < n < |frame|
  {
    if n < |frame| {
      PrefixIncomplete(frame, n);
    } else {
      assert frame[..n] == frame;
    }
    FitsIff([], frame[..n]);
  }

  /** The longest reply has 260 bytes, so there are such pieces. */
  lemma OverflowingReply() returns (frame: seq<byte>, n: nat)
    ensures IsReply(frame) && n < |frame| && |Feed([], frame[..n]).stored| > 256
  {
    frame, n := [1, 3, 255] + Zeros(257), 259;
    PrefixOverflowsIff(frame, n);
  }

  /** All copies of a run stay inside. */
  predicate AllFit(stored: seq<byte>, chunks: seq<seq<byte>>)
    decreases chunks
  {
    chunks == [] ||
    (|Feed(stored, chunks[0]).stored| <= ASYN_SIZE && AllFit(Feed(stored, chunks[0]).stored, chunks[1..]))
  }

  lemma {:induction false} FullFits(stored: seq<byte>, chunks: seq<seq<byte>>)
    requires |stored| == ASYN_SIZE
    ensures AllFit(stored, chunks)
    decreases chunks
  {
    if chunks != [] {
      FullFits((stored + chunks[0])[..ASYN_SIZE], chunks[1..]);
    }
  }

  lemma {:induction false} RestFits(frame: seq<byte>, stored: seq<byte>, chunks: seq<seq<byte>>)
    requires IsReply(frame) && stored + Concat(chunks) == frame && NonEmpty(chunks) && 0 < |stored| <= ASYN_SIZE
    ensures AllFit(stored, chunks)
    decreases chunks
  {
    if chunks != [] {
      var d, tail := stored + chunks[0], chunks[1..];
      assert frame == d + Concat(tail);
      if |d| >= ASYN_SIZE {
        FullFits(d[..ASYN_SIZE], tail);
      } else if tail != [] {
        assert forall i :: 0 <= i < |tail| ==> tail[i] == chunks[i + 1];
        assert Concat(tail) == tail[0] + Concat(tail[1..]) && d == frame[..|d|];
        PrefixIncomplete(frame, |d|);
        RestFits(frame, d, tail);
      }
    }
  }

  /** So a split of a reply stays inside the buffer exactly when its first piece is the whole reply or
      has at most 256 bytes. */
  lemma SplitFitsIff(frame: seq<byte>, chunks: seq<seq<byte>>)
    requires IsReply(frame) && Concat(chunks) == frame && NonEmpty(chunks)
    ensures chunks != [] && (AllFit([], chunks) <==> |chunks| == 1 || |chunks[0]| <= 256)
  {
    var c, tail := chunks[0], chunks[1..];
    assert [] + c == c == frame[..|c|] && frame == c + Concat(tail);
    if tail == [] {
      assert frame[..|frame|] == frame;
      assert Feed([], c).stored == [];
    } else {
      assert forall i :: 0 <= i < |tail| ==> tail[i] == chunks[i + 1];
      assert Concat(tail) == tail[0] + Concat(tail[1..]);
      PrefixIncomplete(frame, |c|);
      assert Feed([], c) == Outcome(c, []);
      if |c| <= ASYN_SIZE {
        RestFits(frame, c, tail);
      }
    }
  }

  /** Every split of a reply into non-empty pieces stays inside the buffer, delivers exactly that
      reply, once, and leaves nothing behind, if and only if the reply is shorter than the buffer or
      arrives in one piece. */
  lemma DeliveredIff(frame: seq<byte>, chunks: seq<seq<byte>>)
    requires IsReply(frame) && Concat(chunks) == frame && NonEmpty(chunks)
    ensures chunks != []
    ensures AllFit([], chunks) && Run([], chunks) == Outcome([], [frame]) <==> |frame| <= 255 || |chunks| == 1
  {
    assert [] + Concat(chunks) == frame;
    if |frame| < ASYN_SIZE || |chunks| == 1 {
      RestDelivers(frame, [], chunks);
    } else {
      var c, tail := chunks[0], chunks[1..];
      assert forall i :: 0 <= i < |tail| ==> tail[i] == chunks[i + 1];
      assert Concat(tail) == tail[0] + Concat(tail[1..]);
      assert [] + c == c == frame[..|c|];
      PrefixIncomplete(frame, |c|);
      assert Feed([], c) == Outcome(c, []);
      if |c| <= ASYN_SIZE {
        LongFills(frame, c, tail);
      }
    }
  }

  /** An exception reply: address, function code with its top bit, exception code, checksum. In any
      pieces it comes out as these five bytes. */
  lemma ExceptionDelivered(addr: byte, fn: byte, code: byte, c0: byte, c1: byte, chunks: seq<seq<byte>>)
    requires fn >= 0x80 && Concat(chunks) == [addr, fn, code, c0, c1] && NonEmpty(chunks)
    ensures Run([], chunks) == Outcome([], [[addr, fn, code, c0, c1]])
  {
    var frame := [addr, fn, code, c0, c1];
    assert chunks != [];
    assert [] + Concat(chunks) == frame;
    RestDelivers(frame, [], chunks);
  }

  /** A data reply: address, function code, byte count, that many bytes, checksum. In any pieces it
      comes out whole, up to a count of 250. */
  lemma DataDelivered(addr: byte, fn: byte, data: seq<byte>, c0: byte, c1: byte, chunks: seq<seq<byte>>)
    requires fn < 0x80 && |data| <= 250 && NonEmpty(chunks)
    requires Concat(chunks) == [addr, fn, |data|] + data + [c0, c1]
    ensures Run([], chunks) == Outcome([], [[addr, fn, |data|] + data + [c0, c1]])
  {
    var frame := [addr, fn, |data|] + data + [c0, c1];
    assert frame[1] == fn && frame[2] == |data|;
    assert chunks != [];
    assert [] + Concat(chunks) == frame;
    RestDelivers(frame, [], chunks);
  }

  lemma {:induction false} RunAppend(stored: seq<byte>, a: seq<seq<byte>>, b: seq<seq<byte>>)
    ensures Run(stored, a + b).stored == Run(Run(stored, a).stored, b).stored
    ensures Run(stored, a + b).delivered == Run(stored, a).delivered + Run(Run(stored, a).stored, b).delivered
    decreases a
  {
    hide Feed;
    if a == [] {
      assert a + b == b;
    } else {
      assert (a + b)[0] == a[0] && (a + b)[1..] == a[1..] + b;
      RunAppend(Feed(stored, a[0]).stored, a[1..], b);
    }
  }

  /** The pieces of one reply after another. */
  function Pieces(replies: seq<seq<seq<byte>>>): seq<seq<byte>> {
    if replies == [] then [] else replies[0] + Pieces(replies[1..])
  }

  function Frames(replies: seq<seq<seq<byte>>>): seq<seq<byte>> {
    if replies == [] then [] else [Concat(replies[0])] + Frames(replies[1..])
  }

  /** A whole conversation: replies shorter than the buffer, each split in any way, come out
      one by one, complete and in order. */
  lemma {:induction false} ConversationDelivers(replies: seq<seq<seq<byte>>>)
    requires forall i :: 0 <= i < |replies| ==>
      NonEmpty(replies[i]) && IsReply(Concat(replies[i])) && |Concat(replies[i])| <= 255
    ensures Run([], Pieces(replies)) == Outcome([], Frames(replies))
    decreases replies
  {
    if replies != [] {
      var first := replies[0];
      assert first != [];
      assert [] + Concat(first) == Concat(first);
      RestDelivers(Concat(first), [], first);
      RunAppend([], first, Pieces(replies[1..]));
      ConversationDelivers(replies[1..]);
    }
  }
}

/** The IEC 60870-5-104 controlled station of iec104/plcserver.c: send window, acknowledge timer
    and start/stop of data transfer, for one client of client_tab. */
module Iec104 {
  import opened Bytes

  // init_iec104_par
  const T1 := 15
  const T2 := 6
  const WIN_K := 12

  const START_BYTE: byte := 0x68
  const TESTFR_ACT: byte := 0x43
  const TESTFR_CON: byte := 0x83
  const STOPDT_ACT: byte := 0x13
  const STOPDT_CON: byte := 0x23
  const STARTDT_ACT: byte := 0x07
  const STARTDT_CON: byte := 0x0B

  // ----- frames -----

  /** ((n % 256) << 1) & 0xfe and n / 256, each stored in one byte. */
  function Pack(n: nat): (s: seq<byte>)
    ensures |s| == 2
  {
    [2 * Low7(n), Low8(High8(n))]
  }

  /** (hi << 8) + (lo >> 1) */
  function Unpack(lo: byte, hi: byte): nat {
    var high: int := hi;
    256 * high + Half(lo)
  }

  function UFrame(control: byte): (f: seq<byte>)
    ensures |f| == 6 && f[2] == control
  {
    [START_BYTE, 4, control, 0, 0, 0]
  }

  function SFrame(vr: nat): (f: seq<byte>)
    ensures |f| == 6 && f[2] == 1
  {
    [START_BYTE, 4, 1, 0] + Pack(vr)
  }

  function IFrame(vs: nat, vr: nat, asdu: seq<byte>): (f: seq<byte>)
    ensures |f| == 6 + |asdu| && FormatOf(f) == I
  {
    [START_BYTE, 4] + Pack(vs) + Pack(vr) + asdu
  }

  datatype Format = S | U | I

  function FormatOf(f: seq<byte>): Format
    requires |f| >= 6
  {
    if Low2(f[2]) == 1 then S else if Low2(f[2]) == 3 then U else I
  }

  function SendNumber(f: seq<byte>): nat
    requires |f| >= 6
  {
    Unpack(f[2], f[3])
  }

  function ReceiveNumber(f: seq<byte>): nat
    requires |f| >= 6
  {
    Unpack(f[4], f[5])
  }

  // ----- one client and its steps -----

  /** The fields of struct IEC104_CLIENT that steer the link; `open` is a nonzero fd. */
  datatype Link = Link(open: bool, started: bool, vr: nat, vs: nat, t1: nat, t2: nat, winK: int)

  datatype Event = Transmit(asdu: seq<byte>) | Receive(frame: seq<byte>) | Second

  /** What leaves the station: a frame, or the closing of the connection. */
  datatype Output = Sent(frame: seq<byte>) | Close

  datatype Next = Next(link: Link, out: seq<Output>)

  /** An ASDU fits the 255-byte frame and a received frame has its six header bytes. */
  predicate Proper(e: Event) {
    match e
    case Transmit(asdu) => |asdu| <= 249
    case Receive(frame) => |frame| >= 6
    case Second => true
  }

  /** init_iec104_entry, with the accepted descriptor. */
  const FRESH := Link(true, false, 0, 0, 0, 0, WIN_K)

  function TransmitI(l: Link, asdu: seq<byte>): Next {
    if l.started && l.winK != 0 then
      Next(l.(winK := l.winK - 1, t1 := T1, t2 := 0, vs := l.vs + 1), [Sent(IFrame(l.vs, l.vr, asdu))])
    else
      Next(l, [])
  }

  function ReceiveU(l: Link, control: byte): Next {
    if control == TESTFR_ACT then Next(l, [Sent(UFrame(TESTFR_CON))])
    else if control == STOPDT_ACT then Next(l.(started := false), [Sent(UFrame(STOPDT_CON))])
    else if control == STARTDT_ACT then Next(l.(started := true), [Sent(UFrame(STARTDT_CON))])
    else Next(l, [])
  }

  function ReceiveI(l: Link, ns: nat, nr: nat): Next {
    if ns == l.vr && nr == l.vs then
      Next(l.(winK := WIN_K - l.vs + nr, vr := l.vr + 1, t2 := T2), [])
    else
      Next(l, [Close])
  }

  function ReceiveFrame(l: Link, f: seq<byte>): Next
    requires |f| >= 6
  {
    match FormatOf(f)
    case S => Next(l.(winK := WIN_K - l.vs + ReceiveNumber(f)), [])
    case U => ReceiveU(l, f[2])
    case I => if l.started then ReceiveI(l, SendNumber(f), ReceiveNumber(f)) else Next(l, [])
  }

  function OneSecond(l: Link): Next {
    if !l.open then Next(l, [])
    else
      Next(l.(t1 := if l.t1 > 0 then l.t1 - 1 else 0, t2 := if l.t2 > 0 then l.t2 - 1 else 0,
              open := l.t1 != 1),
           (if l.t1 == 1 then [Close] else []) + (if l.t2 == 1 then [Sent(SFrame(l.vr))] else []))
  }

  function Step(l: Link, e: Event): Next
    requires Proper(e)
  {
    match e
    case Transmit(asdu) => TransmitI(l, asdu)
    case Receive(frame) => ReceiveFrame(l, frame)
    case Second => OneSecond(l)
  }

  // ----- an observer that sees only events and output -----

  /** Counts taken on the wire: I-frames sent and accepted, the last number the peer
      acknowledged, the count of accepted frames the peer was last told, whether data transfer is
      switched on, the timer seconds since the last I-frame was sent and since the last was
      accepted, whether the connection has been closed, and whether the timer closed it. */
  datatype Audit = Audit(sent: nat, accepted: nat, acked: nat, told: nat, active: bool,
    quiet: nat, idle: nat, shut: bool, expired: bool)

  const NOTHING := Audit(0, 0, 0, 0, false, 0, 0, false, false)

  predicate IsData(o: Output) {
    o.Sent? && |o.frame| >= 6 && FormatOf(o.frame) == I
  }

  predicate Tells(o: Output) {
    o.Sent? && |o.frame| >= 6 && FormatOf(o.frame) != U
  }

  predicate Accepts(a: Audit, e: Event, out: seq<Output>)
    requires Proper(e)
  {
    e.Receive? && FormatOf(e.frame) == I && a.active && out == []
  }

  function Observe(a: Audit, e: Event, out: seq<Output>): Audit
    requires Proper(e)
  {
    var data := exists i :: 0 <= i < |out| && IsData(out[i]);
    var tells := exists i :: 0 <= i < |out| && Tells(out[i]);
    var accepted := if Accepts(a, e, out) then a.accepted + 1 else a.accepted;
    var shut := a.shut || Close in out;
    var ticks := e.Second? && !a.expired;
    Audit(
      if data then a.sent + 1 else a.sent,
      accepted,
      if e.Receive? && (FormatOf(e.frame) == S || Accepts(a, e, out)) then ReceiveNumber(e.frame) else a.acked,
      if tells && !shut then accepted else a.told,
      if e.Receive? && e.frame[2] == STARTDT_ACT then true
      else if e.Receive? && e.frame[2] == STOPDT_ACT then false else a.active,
      if data then 0 else if ticks then a.quiet + 1 else a.quiet,
      if Accepts(a, e, out) then 0 else if ticks then a.idle + 1 else a.idle,
      shut,
      a.expired || (e.Second? && Close in out))
  }

  datatype Trace = Trace(link: Link, audit: Audit)

  function Advance(t: Trace, e: Event): Trace
    requires Proper(e)
  {
    var n := Step(t.link, e);
    Trace(n.link, Observe(t.audit, e, n.out))
  }

  predicate AllProper(events: seq<Event>) {
    forall i :: 0 <= i < |events| ==> Proper(events[i])
  }

  /** The run over all events, latest last. */
  function Run(events: seq<Event>): Trace
    requires AllProper(events)
    decreases |events|
  {
    if events == [] then Trace(FRESH, NOTHING)
    else Advance(Run(events[..|events| - 1]), events[|events| - 1])
  }

  /** What ties the fields to the observer's counts. Closing by process_iec104_I leaves the entry of
      client_tab as it is, closing by the timer clears its descriptor. */
  predicate Linked(t: Trace) {
    && t.link.vs == t.audit.sent
    && t.link.vr == t.audit.accepted
    && t.link.winK == WIN_K - (t.audit.sent - t.audit.acked)
    && t.link.started == t.audit.active
    && t.link.open == !t.audit.expired
    && (t.audit.expired ==> t.audit.shut)
    && t.audit.told <= t.audit.accepted
    && (!t.audit.shut ==>
        t.link.t2 == (if t.audit.told == t.audit.accepted then 0 else T2 - t.audit.idle))
    && (!t.audit.shut && t.audit.told < t.audit.accepted ==> t.audit.idle < T2)
    && (t.link.open && t.audit.sent > 0 ==> t.audit.quiet < T1)
    && t.link.t1 == (if t.audit.sent == 0 || t.audit.quiet >= T1 then 0 else T1 - t.audit.quiet)
  }

  lemma SingleOutput(o: Output)
    ensures (exists i :: 0 <= i < |[o]| && IsData([o][i])) <==> IsData(o)
    ensures (exists i :: 0 <= i < |[o]| && Tells([o][i])) <==> Tells(o)
  {
    assert [o][0] == o;
  }

  lemma TransmitLinked(t: Trace, asdu: seq<byte>)
    requires Linked(t) && |asdu| <= 249
    ensures Linked(Advance(t, Transmit(asdu)))
  {
    var f := IFrame(t.link.vs, t.link.vr, asdu);
    SingleOutput(Sent(f));
    assert IsData(Sent(f)) && Tells(Sent(f));
  }

  lemma ReceiveLinked(t: Trace, f: seq<byte>)
    requires Linked(t) && |f| >= 6
    ensures Linked(Advance(t, Receive(f)))
  {
    match FormatOf(f)
    case S =>
    case U =>
      SingleOutput(Sent(UFrame(TESTFR_CON)));
      SingleOutput(Sent(UFrame(STOPDT_CON)));
      SingleOutput(Sent(UFrame(STARTDT_CON)));
    case I =>
      hide UFrame;
      SingleOutput(Close);
  }

  lemma SecondLinked(t: Trace)
    requires Linked(t)
    ensures Linked(Advance(t, Second))
  {
    var n := OneSecond(t.link);
    assert forall i :: 0 <= i < |n.out| ==> !IsData(n.out[i]);
    if t.link.open && t.link.t2 == 1 {
      assert n.out[|n.out| - 1] == Sent(SFrame(t.link.vr)) && Tells(n.out[|n.out| - 1]);
    } else {
      assert forall i :: 0 <= i < |n.out| ==> !Tells(n.out[i]);
    }
    if t.link.open && t.link.t1 == 1 {
      assert n.out[0] == Close;
    }
  }

  /** On every run: the window is what the last acknowledgement leaves of twelve, transfer is on
      exactly between STARTDT and STOPDT, whatever was accepted is acknowledged or about to be,
      and t1 runs from the last I-frame whatever has been acknowledged since. */
  lemma {:induction false} AlwaysLinked(events: seq<Event>)
    requires AllProper(events)
    ensures Linked(Run(events))
    decreases |events|
  {
    if events != [] {
      var before := events[..|events| - 1];
      var t := Run(before);
      AlwaysLinked(before);
      match events[|events| - 1]
      case Transmit(asdu) => TransmitLinked(t, asdu);
      case Receive(f) => ReceiveLinked(t, f);
      case Second => SecondLinked(t);
    }
  }

  /** Frames sent and not acknowledged after the first i events. */
  function Outstanding(events: seq<Event>, i: nat): int
    requires AllProper(events) && i <= |events|
  {
    var a := Run(events[..i]).audit;
    a.sent - a.acked
  }

  predicate WindowHeld(events: seq<Event>)
    requires AllProper(events)
  {
    forall i :: 0 <= i <= |events| ==> 0 <= Outstanding(events, i) <= WIN_K
  }

  /** An S-frame at i acknowledges a number the station has reached, and not more than twelve back. */
  predicate SoundAck(events: seq<Event>, i: nat)
    requires AllProper(events) && i < |events|
  {
    var sent: int := Run(events[..i]).audit.sent;
    events[i].Receive? && FormatOf(events[i].frame) == S ==>
      sent - WIN_K <= ReceiveNumber(events[i].frame) <= sent
  }

  lemma RunNext(events: seq<Event>, i: nat)
    requires AllProper(events) && i < |events|
    ensures Run(events[..i + 1]) == Advance(Run(events[..i]), events[i])
  {
    var next := events[..i + 1];
    assert next[..|next| - 1] == events[..i];
  }

  lemma OneAck(t: Trace, e: Event)
    requires Proper(e) && Linked(t) && 0 <= t.audit.sent - t.audit.acked <= WIN_K
    ensures var a := Advance(t, e).audit;
      0 <= a.sent - a.acked <= WIN_K <==>
      (e.Receive? && FormatOf(e.frame) == S ==>
        t.audit.sent - WIN_K <= ReceiveNumber(e.frame) <= t.audit.sent)
  {
    match e
    case Transmit(asdu) =>
      var f := IFrame(t.link.vs, t.link.vr, asdu);
      SingleOutput(Sent(f));
    case Receive(f) =>
      SingleOutput(Close);
      SingleOutput(Sent(UFrame(TESTFR_CON)));
      SingleOutput(Sent(UFrame(STOPDT_CON)));
      SingleOutput(Sent(UFrame(STARTDT_CON)));
    case Second =>
      var n := OneSecond(t.link);
      assert forall i :: 0 <= i < |n.out| ==> !IsData(n.out[i]);
  }

  lemma {:induction false} WindowUpTo(events: seq<Event>, n: nat)
    requires AllProper(events) && n <= |events|
    ensures (forall i :: 0 <= i <= n ==> 0 <= Outstanding(events, i) <= WIN_K) <==>
      (forall i :: 0 <= i < n ==> SoundAck(events, i))
    decreases n
  {
    hide Advance, Linked;
    if n == 0 {
      assert events[..0] == [];
      assert Outstanding(events, 0) == 0;
    } else {
      var m := n - 1;
      WindowUpTo(events, m);
      RunNext(events, m);
      AlwaysLinked(events[..m]);
      if 0 <= Outstanding(events, m) <= WIN_K {
        OneAck(Run(events[..m]), events[m]);
        assert 0 <= Outstanding(events, n) <= WIN_K <==> SoundAck(events, m);
      }
    }
  }

  /** Section 5.5: never more than twelve frames are outstanding, and never fewer than none, if and
      only if every S-frame acknowledges a number between V(S) - 12 and V(S). */
  lemma WindowIff(events: seq<Event>)
    requires AllProper(events)
    ensures WindowHeld(events) <==> forall i :: 0 <= i < |events| ==> SoundAck(events, i)
  {
    WindowUpTo(events, |events|);
  }

  lemma RunSnoc(events: seq<Event>, later: seq<Event>)
    requires AllProper(events) && AllProper(later) && later != []
    ensures AllProper(events + later) && AllProper(later[..|later| - 1]) && AllProper(events + later[..|later| - 1])
    ensures Run(events + later) == Advance(Run(events + later[..|later| - 1]), later[|later| - 1])
  {
    assert (events + later)[..|events + later| - 1] == events + later[..|later| - 1];
  }

  /** Neither an acknowledgement nor the end of transfer. */
  predicate Neutral(e: Event)
    requires Proper(e)
  {
    e.Receive? ==> FormatOf(e.frame) == U && e.frame[2] != STOPDT_ACT
  }

  function Transmits(events: seq<Event>): nat {
    if events == [] then 0
    else Transmits(events[..|events| - 1]) + (if events[|events| - 1].Transmit? then 1 else 0)
  }

  /** Once below zero the window blocks nothing any more: until the next acknowledgement every frame
      offered goes out, however many. */
  lemma {:induction false} BelowZeroUnblocked(events: seq<Event>, later: seq<Event>)
    requires AllProper(events) && AllProper(later) && forall i :: 0 <= i < |later| ==> Neutral(later[i])
    requires Run(events).link.started && Run(events).link.winK < 0
    ensures AllProper(events + later)
    ensures Run(events + later).link.started && Run(events + later).link.winK < 0
    ensures Run(events + later).audit.sent == Run(events).audit.sent + Transmits(later)
    decreases |later|
  {
    if later == [] {
      assert events + later == events;
    } else {
      var before, e := later[..|later| - 1], later[|later| - 1];
      RunSnoc(events, later);
      BelowZeroUnblocked(events, before);
      OneUnblocked(Run(events + before), e);
    }
  }

  lemma OneUnblocked(t: Trace, e: Event)
    requires Proper(e) && Neutral(e) && t.link.started && t.link.winK < 0
    ensures var u := Advance(t, e);
      u.link.started && u.link.winK < 0 && u.audit.sent == t.audit.sent + (if e.Transmit? then 1 else 0)
  {
    match e
    case Transmit(asdu) => SingleOutput(Sent(IFrame(t.link.vs, t.link.vr, asdu)));
    case Receive(f) =>
      SingleOutput(Sent(UFrame(TESTFR_CON)));
      SingleOutput(Sent(UFrame(STARTDT_CON)));
    case Second =>
      var n := OneSecond(t.link);
      assert forall i :: 0 <= i < |n.out| ==> !IsData(n.out[i]);
  }

  predicate IsStart(e: Event) {
    e.Receive? && |e.frame| >= 6 && e.frame[2] == STARTDT_ACT
  }

  predicate IsStop(e: Event) {
    e.Receive? && |e.frame| >= 6 && e.frame[2] == STOPDT_ACT
  }

  /** A STARTDT was received and no STOPDT after it. */
  predicate Transferring(events: seq<Event>) {
    exists i :: 0 <= i < |events| && IsStart(events[i]) && forall j :: i < j < |events| ==> !IsStop(events[j])
  }

  lemma TransferringSnoc(before: seq<Event>, e: Event)
    ensures Transferring(before + [e]) <==> IsStart(e) || (Transferring(before) && !IsStop(e))
  {
    hide IsStart, IsStop;
    var events := before + [e];
    assert events[|before|] == e && forall j :: 0 <= j < |before| ==> events[j] == before[j];
    if Transferring(before) && !IsStop(e) {
      var i :| 0 <= i < |before| && IsStart(before[i]) && forall j :: i < j < |before| ==> !IsStop(before[j]);
      assert IsStart(events[i]);
    }
    if Transferring(events) && !IsStart(e) {
      var i :| 0 <= i < |events| && IsStart(events[i]) && forall j :: i < j < |events| ==> !IsStop(events[j]);
      assert i < |before| && !IsStop(events[|before|]);
      assert IsStart(before[i]);
      assert forall j :: i < j < |before| ==> !IsStop(events[j]) && events[j] == before[j];
    }
  }

  lemma {:induction false} ActiveIsTransferring(events: seq<Event>)
    requires AllProper(events)
    ensures Run(events).audit.active <==> Transferring(events)
    decreases |events|
  {
    hide Step;
    if events != [] {
      hide Transferring;
      var before, last := events[..|events| - 1], events[|events| - 1];
      ActiveIsTransferring(before);
      TransferringSnoc(before, last);
      assert events == before + [last];
    }
  }

  lemma DataNeedsActive(t: Trace, e: Event)
    requires Proper(e) && Linked(t)
    ensures Advance(t, e).audit.sent > t.audit.sent || Advance(t, e).audit.accepted > t.audit.accepted ==>
      t.audit.active
  {
    if e.Receive? {
      SingleOutput(Close);
      SingleOutput(Sent(UFrame(TESTFR_CON)));
      SingleOutput(Sent(UFrame(STOPDT_CON)));
      SingleOutput(Sent(UFrame(STARTDT_CON)));
    } else if e.Second? {
      var n := OneSecond(t.link);
      assert forall i :: 0 <= i < |n.out| ==> !IsData(n.out[i]);
    }
  }

  /** No I-frame is sent or accepted unless a STARTDT was received and no STOPDT since. */
  lemma DataOnlyWhileTransferring(events: seq<Event>, e: Event)
    requires AllProper(events) && Proper(e)
    requires Advance(Run(events), e).audit.sent > Run(events).audit.sent ||
      Advance(Run(events), e).audit.accepted > Run(events).audit.accepted
    ensures Transferring(events)
  {
    hide Run, Transferring, Advance, Linked;
    AlwaysLinked(events);
    ActiveIsTransferring(events);
    DataNeedsActive(Run(events), e);
  }

  function Seconds(events: seq<Event>): nat {
    if events == [] then 0
    else Seconds(events[..|events| - 1]) + (if events[|events| - 1].Second? then 1 else 0)
  }

  /** What one event does to the seconds since the last acceptance and to what the peer was told. */
  lemma IdleStep(t: Trace, e: Event)
    requires Proper(e) && Linked(t)
    ensures var u := Advance(t, e);
      && u.audit.accepted >= t.audit.accepted && (t.audit.shut ==> u.audit.shut)
      && (!u.audit.shut && u.audit.accepted == t.audit.accepted ==>
          u.audit.idle == t.audit.idle + (if e.Second? then 1 else 0))
      && (!u.audit.shut && u.audit.sent == t.audit.sent ==>
          u.audit.told == if t.audit.told < t.audit.accepted && e.Second? && t.audit.idle == T2 - 1
                          then t.audit.accepted else t.audit.told)
      && t.audit.told <= u.audit.told
  {
    match e
    case Transmit(asdu) => TransmitLinked(t, asdu);
    case Receive(f) =>
      ReceiveLinked(t, f);
      SingleOutput(Close);
      SingleOutput(Sent(UFrame(TESTFR_CON)));
      SingleOutput(Sent(UFrame(STOPDT_CON)));
      SingleOutput(Sent(UFrame(STARTDT_CON)));
    case Second =>
      SecondLinked(t);
      TellsOfSecond(t.link);
  }

  lemma TellsOfSecond(l: Link)
    ensures var out := OneSecond(l).out;
      ((exists i :: 0 <= i < |out| && Tells(out[i])) <==> l.open && l.t2 == 1) &&
      (Sent(SFrame(l.vr)) in out <==> l.open && l.t2 == 1) &&
      (Close in out <==> l.open && l.t1 == 1) &&
      (forall i :: 0 <= i < |out| ==> !IsData(out[i]))
  {
    var out := OneSecond(l).out;
    if l.open && l.t2 == 1 {
      assert out[|out| - 1] == Sent(SFrame(l.vr)) && Tells(out[|out| - 1]);
    }
    if l.open && l.t1 == 1 {
      assert out[0] == Close;
    }
  }

  lemma {:induction false} IdleCounts(events: seq<Event>, later: seq<Event>)
    requires AllProper(events) && AllProper(later)
    ensures AllProper(events + later)
    ensures Run(events + later).audit.accepted >= Run(events).audit.accepted
    ensures var t := Run(events + later);
      t.audit.accepted == Run(events).audit.accepted && !t.audit.shut ==>
      t.audit.idle == Run(events).audit.idle + Seconds(later)
    decreases |later|
  {
    if later == [] {
      assert events + later == events;
    } else {
      hide Advance;
      var before, e := later[..|later| - 1], later[|later| - 1];
      RunSnoc(events, later);
      IdleCounts(events, before);
      AlwaysLinked(events + before);
      hide Linked;
      IdleStep(Run(events + before), e);
    }
  }

  /** Section 5.2: six seconds after the last accepted I-frame, on a connection nobody has closed, the
      peer has been told of it. */
  lemma AcknowledgedInTime(events: seq<Event>, later: seq<Event>)
    requires AllProper(events) && AllProper(later) && AllProper(events + later)
    requires Seconds(later) >= T2 && !Run(events + later).audit.shut
    requires Run(events + later).audit.accepted == Run(events).audit.accepted
    ensures Run(events + later).audit.told == Run(events).audit.accepted
  {
    hide Run;
    IdleCounts(events, later);
    AlwaysLinked(events + later);
  }

  /** An S-frame goes out exactly at the sixth second since the last accepted I-frame, if that is not
      acknowledged yet. Every accepted frame starts the six seconds anew. */
  lemma AcknowledgesIff(events: seq<Event>)
    requires AllProper(events) && !Run(events).audit.shut
    ensures var a := Run(events).audit;
      Sent(SFrame(a.accepted)) in Step(Run(events).link, Second).out <==>
      a.told < a.accepted && a.idle == T2 - 1
  {
    hide Run;
    AlwaysLinked(events);
    TellsOfSecond(Run(events).link);
  }

  /** No second is the sixth since the last acceptance. */
  predicate NeverSix(events: seq<Event>, later: seq<Event>)
    requires AllProper(events) && AllProper(later)
  {
    forall i :: 0 <= i < |later| ==> !Sixth(events, later, i)
  }

  predicate Sixth(events: seq<Event>, later: seq<Event>, i: nat)
    requires AllProper(events) && AllProper(later) && i < |later|
  {
    assert AllProper(events + later[..i]);
    later[i].Second? && Run(events + later[..i]).audit.idle == T2 - 1
  }

  /** While the station has nothing to send itself, an accepted frame stays unacknowledged on an open
      connection if and only if frames keep arriving before the sixth second. */
  lemma {:induction false} UnacknowledgedIff(events: seq<Event>, later: seq<Event>)
    requires AllProper(events) && AllProper(later) && AllProper(events + later)
    requires Run(events).audit.told < Run(events).audit.accepted
    requires !Run(events + later).audit.shut && Run(events + later).audit.sent == Run(events).audit.sent
    ensures Run(events + later).audit.told == Run(events).audit.told <==> NeverSix(events, later)
    ensures Run(events + later).audit.told >= Run(events).audit.told
    decreases |later|
  {
    if later == [] {
      assert events + later == events;
    } else {
      hide Advance, Linked, NeverSix, Sixth;
      var before, e := later[..|later| - 1], later[|later| - 1];
      RunSnoc(events, later);
      AlwaysLinked(events + before);
      var t := Run(events + before);
      IdleStep(t, e);
      SentGrows(events, before);
      OneSent(t, e);
      UnacknowledgedIff(events, before);
      IdleCounts(events, before);
      NeverSixSnoc(events, later);
      hide Run, Seconds;
    }
  }

  lemma NeverSixSnoc(events: seq<Event>, later: seq<Event>)
    requires AllProper(events) && AllProper(later) && later != []
    ensures AllProper(later[..|later| - 1]) && AllProper(events + later[..|later| - 1])
    ensures var before, last := later[..|later| - 1], later[|later| - 1];
      var sixth := last.Second? && Run(events + before).audit.idle == T2 - 1;
      NeverSix(events, later) <==> NeverSix(events, before) && !sixth
  {
    hide Run;
    var m := |later| - 1;
    var before := later[..m];
    assert forall i :: 0 <= i < m ==> before[..i] == later[..i] && before[i] == later[i];
    assert forall i :: 0 <= i < m ==> (Sixth(events, before, i) <==> Sixth(events, later, i));
    assert Sixth(events, later, m) <==> later[m].Second? && Run(events + before).audit.idle == T2 - 1;
  }

  lemma OneSent(t: Trace, e: Event)
    requires Proper(e)
    ensures Advance(t, e).audit.sent >= t.audit.sent
  {
  }

  lemma {:induction false} SentGrows(events: seq<Event>, later: seq<Event>)
    requires AllProper(events) && AllProper(later)
    ensures AllProper(events + later) && Run(events + later).audit.sent >= Run(events).audit.sent
    decreases |later|
  {
    if later == [] {
      assert events + later == events;
    } else {
      hide Advance;
      RunSnoc(events, later);
      SentGrows(events, later[..|later| - 1]);
      OneSent(Run(events + later[..|later| - 1]), later[|later| - 1]);
    }
  }

  /** No run accepts more than 128 I-frames: the number 128 cannot be read off a frame. */
  lemma {:induction false} AcceptedAtMost128(events: seq<Event>)
    requires AllProper(events)
    ensures Run(events).audit.accepted <= 128
    decreases |events|
  {
    if events != [] {
      var before, e := events[..|events| - 1], events[|events| - 1];
      hide Run, Step;
      AcceptedAtMost128(before);
      CountsAccepted(before);
      CountsAccepted(events);
      AcceptsReadable(Run(before).link, e);
      RunLink(events);
    }
  }

  lemma RunLink(events: seq<Event>)
    requires AllProper(events) && events != []
    ensures Run(events).link == Step(Run(events[..|events| - 1]).link, events[|events| - 1]).link
  {
    hide Step, Observe;
  }

  lemma CountsAccepted(events: seq<Event>)
    requires AllProper(events)
    ensures Run(events).link.vr == Run(events).audit.accepted
  {
    hide Run;
    AlwaysLinked(events);
  }

  /** An I-frame is accepted only under a number whose bit 7 is clear. */
  lemma AcceptsReadable(l: Link, e: Event)
    requires Proper(e)
    ensures Step(l, e).link.vr == l.vr || (Step(l, e).link.vr == l.vr + 1 && l.vr != 128)
  {
    if e.Receive? {
      UnpackLow(e.frame[2], e.frame[3]);
    }
  }

  lemma UnpackLow(lo: byte, hi: byte)
    ensures Unpack(lo, hi) % 256 < 128
  {
    var high: int := hi;
    assert Unpack(lo, hi) == 256 * high + Half(lo) && Half(lo) < 128;
  }

  /** The k-th I-frame of a peer that has nothing to acknowledge, and five seconds of silence. */
  function FrameAndPause(k: nat): (events: seq<Event>) {
    [Receive(IFrame(k, 0, [])), Second, Second, Second, Second, Second]
  }

  function Chatter(k: nat): (events: seq<Event>)
    ensures AllProper(events)
    decreases k
  {
    if k == 0 then [Receive(UFrame(STARTDT_ACT))] else Chatter(k - 1) + FrameAndPause(k - 1)
  }

  /** k frames accepted, none acknowledged, t2 seconds to go. */
  predicate Chattered(t: Trace, k: nat, t2: nat) {
    && t.link == Link(true, true, k, 0, 0, t2, WIN_K)
    && t.audit.accepted == k && t.audit.told == 0 && t.audit.sent == 0 && !t.audit.shut && t.audit.active
  }

  /** An I-frame that starts no control, read with number k and acknowledging nothing. */
  predicate IsFirst(f: seq<byte>, k: nat) {
    |f| == 6 && FormatOf(f) == I && SendNumber(f) == k && ReceiveNumber(f) == 0 &&
    f[2] != STARTDT_ACT && f[2] != STOPDT_ACT
  }

  lemma NextAccepted(t: Trace, k: nat, t2: nat, f: seq<byte>)
    requires Chattered(t, k, t2) && IsFirst(f, k)
    ensures Chattered(Advance(t, Receive(f)), k + 1, T2)
  {
    hide Unpack;
  }

  lemma FirstNumbers(k: nat, f: seq<byte>)
    requires k < 128 && f == IFrame(k, 0, [])
    ensures IsFirst(f, k)
  {
    hide Pack, Unpack, FormatOf;
    SmallPack(k);
    SmallPack(0);
    assert f == [START_BYTE, 4] + [2 * k, 0] + [0, 0] + [];
    hide IFrame;
    SixBytes(2 * k, f);
    LowNumbers(k, f);
  }

  lemma LowNumbers(k: nat, f: seq<byte>)
    requires k < 128 && |f| == 6 && f[2] == 2 * k && f[3] == 0 && f[4] == 0 && f[5] == 0
    ensures FormatOf(f) == I && SendNumber(f) == k && ReceiveNumber(f) == 0
  {
    EvenByte(k);
  }

  lemma SmallPack(n: nat)
    requires n < 128
    ensures Pack(n) == [2 * n, 0]
  {
  }

  lemma SixBytes(low: byte, f: seq<byte>)
    requires f == [START_BYTE, 4] + [low, 0] + [0, 0] + []
    ensures |f| == 6 && f[2] == low && f[3] == 0 && f[4] == 0 && f[5] == 0
  {
  }

  lemma PauseOnce(t: Trace, k: nat, t2: nat)
    requires Chattered(t, k, t2) && t2 > 1
    ensures Chattered(Advance(t, Second), k, t2 - 1)
  {
    TellsOfSecond(t.link);
  }

  lemma PauseAfter(b: seq<Event>, k: nat, t2: nat) returns (c: seq<Event>)
    requires AllProper(b) && Chattered(Run(b), k, t2) && t2 > 1
    ensures AllProper(c) && c == b + [Second] && Chattered(Run(c), k, t2 - 1) && Seconds(c) == Seconds(b) + 1
  {
    hide Chattered, Advance;
    c := b + [Second];
    RunSnoc(b, [Second]);
    assert [Second][..0] == [] && b + [] == b;
    assert c[..|c| - 1] == b;
    PauseOnce(Run(b), k, t2);
  }

  /** So 128 frames, the first of them more than ten minutes old, can all be unacknowledged on an open
      connection; win_w, the number of frames after which to acknowledge, is never looked at. */
  lemma {:induction false} Postponed(k: nat)
    requires k <= 128
    ensures Chattered(Run(Chatter(k)), k, if k == 0 then 0 else 1) && Seconds(Chatter(k)) == 5 * k
    decreases k
  {
    hide Chattered, Advance, IFrame, UFrame, Run, Seconds, FrameAndPause;
    if k == 0 {
      Started();
    } else {
      Postponed(k - 1);
      var a := Chatter(k - 1);
      var b := FrameAfter(a, k - 1, if k - 1 == 0 then 0 else 1);
      var c := PauseAfter(b, k, 6);
      c := PauseAfter(c, k, 5);
      c := PauseAfter(c, k, 4);
      c := PauseAfter(c, k, 3);
      c := PauseAfter(c, k, 2);
      SixEvents(a, k - 1, b, c);
    }
  }

  lemma SixEvents(a: seq<Event>, k: nat, b: seq<Event>, c: seq<Event>)
    requires b == a + [Receive(IFrame(k, 0, []))] && c == b + [Second] + [Second] + [Second] + [Second] + [Second]
    ensures c == a + FrameAndPause(k)
  {
    hide IFrame;
  }

  lemma FrameAfter(a: seq<Event>, k: nat, t2: nat) returns (b: seq<Event>)
    requires AllProper(a) && Chattered(Run(a), k, t2) && k < 128
    ensures b == a + [Receive(IFrame(k, 0, []))] && AllProper(b)
    ensures Chattered(Run(b), k + 1, T2) && Seconds(b) == Seconds(a)
  {
    hide Chattered, Advance, IFrame;
    var e := Receive(IFrame(k, 0, []));
    b := a + [e];
    RunSnoc(a, [e]);
    assert [e][..0] == [] && a + [] == a;
    assert b[..|b| - 1] == a;
    FirstNumbers(k, e.frame);
    hide IsFirst;
    NextAccepted(Run(a), k, t2, e.frame);
  }

  lemma Started()
    ensures Chattered(Run(Chatter(0)), 0, 0) && Seconds(Chatter(0)) == 0
  {
    var start := Receive(UFrame(STARTDT_ACT));
    FirstStep(start);
    hide UFrame, Advance, Chattered;
    var none: seq<Event> := [];
    RunSnoc(none, [start]);
    assert none + [start] == [start] && [start][..0] == none && none + none == none;
    assert Chatter(0) == [start];
  }

  lemma FirstStep(start: Event)
    requires start == Receive(UFrame(STARTDT_ACT))
    ensures Chattered(Advance(Trace(FRESH, NOTHING), start), 0, 0)
  {
    SingleOutput(Sent(UFrame(STARTDT_CON)));
  }

  /** t1 is never stopped: a second closes the connection exactly when it is the fifteenth
      since the last I-frame was sent, acknowledged or not. */
  lemma ClosesIff(events: seq<Event>)
    requires AllProper(events) && !Run(events).audit.shut
    ensures Close in Step(Run(events).link, Second).out <==>
      Run(events).audit.sent > 0 && Run(events).audit.quiet == T1 - 1
  {
    hide Run;
    AlwaysLinked(events);
    TellsOfSecond(Run(events).link);
  }

  /** A connection closed for a frame out of sequence is closed by the timer once more. */
  lemma ClosesAgainIff(events: seq<Event>)
    requires AllProper(events) && Run(events).audit.shut
    ensures Close in Step(Run(events).link, Second).out <==>
      !Run(events).audit.expired && Run(events).audit.sent > 0 && Run(events).audit.quiet == T1 - 1
  {
    hide Run;
    AlwaysLinked(events);
    TellsOfSecond(Run(events).link);
  }

  // ----- what is on the wire -----

  /** Every I-frame carries the count of frames sent before it, every I- and S-frame the count of
      frames accepted, each as the station writes numbers, and the ASDU follows unchanged. */
  lemma WireNumbers(events: seq<Event>, e: Event, o: Output)
    requires AllProper(events) && Proper(e) && o in Step(Run(events).link, e).out && o.Sent?
    ensures Tells(o) ==> o.frame[4..6] == Pack(Run(events).audit.accepted)
    ensures IsData(o) ==> e.Transmit? && o.frame[2..4] == Pack(Run(events).audit.sent) && o.frame[6..] == e.asdu
    ensures !Tells(o) ==> e.Receive?
  {
    hide Run;
    AlwaysLinked(events);
  }

  /** The two octets of a number on the wire. */
  predicate Octets(n: nat, lo: byte, hi: byte) {
    lo == 2 * Low7(n) && hi == Low8(High8(n))
  }

  /** An ASDU offered at the end of a run goes out if and only if transfer is on and the count of
      unacknowledged frames is not exactly 12; then as one I-frame, octet by octet. */
  lemma OfferLaw(events: seq<Event>, asdu: seq<byte>)
    requires AllProper(events) && |asdu| <= 249
    ensures var a, out := Run(events).audit, Step(Run(events).link, Transmit(asdu)).out;
      if a.active && a.sent - a.acked != 12
      then
        |out| == 1 && out[0].Sent? && |out[0].frame| == 6 + |asdu| &&
        var f := out[0].frame;
        f[0] == 0x68 && f[1] == 4 && Octets(a.sent, f[2], f[3]) && Octets(a.accepted, f[4], f[5]) && f[6..] == asdu
      else out == []
  {
    hide Run;
    AlwaysLinked(events);
  }

  /** What a received frame is answered with: an activation by its confirmation, octet by octet, an
      I-frame out of sequence by closing, and nothing else by anything. */
  lemma AnswerLaw(events: seq<Event>, f: seq<byte>)
    requires AllProper(events) && |f| >= 6
    ensures var a, out := Run(events).audit, Step(Run(events).link, Receive(f)).out;
      var ns: int := f[3];
      var nr: int := f[5];
      if f[2] == 0x43 then out == [Sent([0x68, 4, 0x83, 0, 0, 0])]
      else if f[2] == 0x13 then out == [Sent([0x68, 4, 0x23, 0, 0, 0])]
      else if f[2] == 0x07 then out == [Sent([0x68, 4, 0x0B, 0, 0, 0])]
      else if Low2(f[2]) in {0, 2} && a.active &&
        !(256 * ns + Half(f[2]) == a.accepted && 256 * nr + Half(f[4]) == a.sent)
      then out == [Close]
      else out == []
  {
    hide Run;
    AlwaysLinked(events);
  }

  /** What a second brings on a connection nobody has closed: the end of t1 closes it, the end of t2
      sends an S-frame, octet by octet, the closing first. */
  lemma SecondLaw(events: seq<Event>)
    requires AllProper(events) && !Run(events).audit.shut
    ensures var a, out := Run(events).audit, Step(Run(events).link, Second).out;
      var closes, tells := a.sent > 0 && a.quiet == 14, a.told < a.accepted && a.idle == 5;
      |out| == (if closes then 1 else 0) + (if tells then 1 else 0) &&
      (closes ==> out[0] == Close) &&
      (tells ==>
        out[|out| - 1].Sent? && |out[|out| - 1].frame| == 6 &&
        var f := out[|out| - 1].frame;
        f[0] == 0x68 && f[1] == 4 && f[2] == 1 && f[3] == 0 && Octets(a.accepted, f[4], f[5]))
  {
    hide Run;
    AlwaysLinked(events);
  }

  /** Each activation is confirmed at once, the confirmation being the next higher bit of the
      control octet, and other U-frames are not answered. */
  lemma Confirmed(l: Link, f: seq<byte>)
    requires |f| >= 6 && FormatOf(f) == U
    ensures var out := Step(l, Receive(f)).out;
      if f[2] in {TESTFR_ACT, STOPDT_ACT, STARTDT_ACT}
      then out == [Sent([0x68, 4, 2 * f[2] - 3, 0, 0, 0])]
      else out == []
  {
  }

  /** The encoding of the standard: fifteen bits, the low seven in the upper part of the first octet. */
  function StandardPack(n: nat): (s: seq<byte>)
    requires n < 32768
    ensures |s| == 2
  {
    [2 * (n % 128), n / 128]
  }

  /** The station reads back what it writes exactly for the numbers whose bit 7 is clear. */
  lemma PackRoundTripIff(n: nat)
    ensures Unpack(Pack(n)[0], Pack(n)[1]) == n <==> n < 65536 && n % 256 < 128
  {
    var q, r := n / 256, n % 256;
    LowSeven(n);
    PackIsMod(n);
    assert n == 256 * q + r;
    assert q % 256 == q <==> q < 256;
    assert r % 128 == r <==> r < 128;
    assert Unpack(Pack(n)[0], Pack(n)[1]) == 256 * (q % 256) + r % 128;
    assert q % 256 <= q && r % 128 <= r;
  }

  lemma PackIsMod(n: nat)
    ensures Pack(n) == [2 * (n % 128), (n / 256) % 256]
  {
    Low7IsMod(n);
    ByteCutsAreMod(n);
    ByteCutsAreMod(n / 256);
  }

  lemma LowSeven(n: nat)
    ensures n % 128 == (n % 256) % 128
  {
    var q, r := n / 256, n % 256;
    var k, m := r / 128, r % 128;
    assert n == 128 * (2 * q + k) + m && 0 <= m < 128;
  }

  lemma StandardPackIff(n: nat)
    requires n < 32768
    ensures Pack(n) == StandardPack(n) <==> n < 128
  {
    PackIsMod(n);
    assert Pack(n)[1] == n / 256;
    assert StandardPack(n)[1] == n / 128;
    assert n >= 128 ==> n / 256 < n / 128;
  }

  lemma ReadsStandardIff(n: nat)
    requires n < 32768
    ensures Unpack(StandardPack(n)[0], StandardPack(n)[1]) == n <==> n < 128
  {
    assert n == 128 * (n / 128) + n % 128;
  }

  /** An I-frame in sequence, numbered as the standard says, keeps the connection if and only if
      both sides have counted fewer than 128 frames. */
  lemma StandardPeerKeptIff(l: Link, f: seq<byte>)
    requires l.started && |f| >= 6 && l.vr < 32768 && l.vs < 32768
    requires f[2..4] == StandardPack(l.vr) && f[4..6] == StandardPack(l.vs)
    ensures Step(l, Receive(f)).out == [] <==> l.vr < 128 && l.vs < 128
  {
    assert f[2] == f[2..4][0] && f[3] == f[2..4][1] && f[4] == f[4..6][0] && f[5] == f[4..6][1];
    ReadsStandardIff(l.vr);
    ReadsStandardIff(l.vs);
    EvenByte(l.vr % 128);
  }

  lemma EvenByte(x: nat)
    ensures (2 * x) % 4 != 1 && (2 * x) % 4 != 3
  {
  }

  /** The length octet of an I-frame is right exactly when it carries no ASDU. */
  lemma LengthOctetIff(vs: nat, vr: nat, asdu: seq<byte>)
    ensures IFrame(vs, vr, asdu)[1] == |IFrame(vs, vr, asdu)| - 2 <==> asdu == []
  {
  }

  // ----- the station in place -----

  /** One entry of client_tab. */
  class Client {
    var fd: nat
    var clientState: nat
    var vr: nat
    var vs: nat
    var t1: nat
    var t2: nat
    var winK: int

    ghost function Abs(): Link
      reads this
    {
      Link(fd != 0, clientState != 0, vr, vs, t1, t2, winK)
    }

    /** init_iec104_entry, then the accepted descriptor. */
    constructor (accepted: nat)
      requires accepted != 0
      ensures Abs() == FRESH
    {
      fd, clientState, vr, vs, t1, t2, winK := accepted, 0, 0, 0, 0, 0, 12;
    }

    /** send_I_frame: what it hands to send(), if anything. */
    method SendIFrame(buf: seq<byte>) returns (out: seq<Output>)
      requires |buf| <= 249
      modifies this
      ensures Next(Abs(), out) == Step(old(Abs()), Transmit(buf)) && fd == old(fd)
    {
      out := [];
      if clientState == 0 {
        return;
      }
      var sendBuf := [START_BYTE, 4] + Pack(vs) + Pack(vr) + buf;
      if winK != 0 {
        winK := winK - 1;
        out := [Sent(sendBuf)];
        t1 := T1;
        t2 := 0;
        vs := vs + 1;
      }
    }

    /** process_iec104_S */
    method ProcessS(frame: seq<byte>)
      requires |frame| >= 6 && FormatOf(frame) == S
      modifies this`winK
      ensures Next(Abs(), []) == Step(old(Abs()), Receive(frame))
    {
      var nr: int := Unpack(frame[4], frame[5]);
      winK := WIN_K - vs + nr;
    }

    /** process_iec104_U */
    method ProcessU(frame: seq<byte>) returns (out: seq<Output>)
      requires |frame| >= 6 && FormatOf(frame) == U
      modifies this`clientState
      ensures Next(Abs(), out) == Step(old(Abs()), Receive(frame))
    {
      out := [];
      if frame[2] == TESTFR_ACT {
        out := [Sent(UFrame(TESTFR_CON))];
      } else if frame[2] == STOPDT_ACT {
        clientState := 0;
        out := [Sent(UFrame(STOPDT_CON))];
      } else if frame[2] == STARTDT_ACT {
        clientState := 1;
        out := [Sent(UFrame(STARTDT_CON))];
      }
    }

    /** process_iec104_I: a frame out of sequence closes the connection. */
    method ProcessI(frame: seq<byte>) returns (out: seq<Output>)
      requires |frame| >= 6 && FormatOf(frame) == I && clientState > 0
      modifies this`winK, this`vr, this`t2
      ensures Next(Abs(), out) == Step(old(Abs()), Receive(frame))
    {
      var ns: int := Unpack(frame[2], frame[3]);
      var nr: int := Unpack(frame[4], frame[5]);
      out := [];
      if ns == vr {
        if nr == vs {
          winK := WIN_K - vs + nr;
          vr := vr + 1;
          t2 := T2;
        } else {
          out := [Close];
        }
      } else {
        out := [Close];
      }
    }

    /** get_iec104_frame */
    method GetFrame(frame: seq<byte>) returns (out: seq<Output>)
      requires |frame| >= 6
      modifies this
      ensures Next(Abs(), out) == Step(old(Abs()), Receive(frame)) && fd == old(fd)
    {
      out := [];
      if frame[2] % 4 == 1 {
        ProcessS(frame);
      } else if frame[2] % 4 == 3 {
        out := ProcessU(frame);
      } else {
        if clientState > 0 {
          out := ProcessI(frame);
        }
      }
    }

    /** The part of proc_timer for one client, once a second. */
    method Timer() returns (out: seq<Output>)
      modifies this`fd, this`t1, this`t2
      ensures Next(Abs(), out) == Step(old(Abs()), Second)
    {
      out := [];
      if fd != 0 {
        if t1 > 0 {
          t1 := t1 - 1;
          if t1 == 0 {
            out := [Close];
            fd := 0;
          }
        }
        if t2 > 0 {
          t2 := t2 - 1;
          if t2 == 0 {
            out := out + [Sent(SFrame(vr))];
          }
        }
      }
    }
  }
}

/** The lease machine of network/dhcpcd: the state functions of client.c, the alarm handler of
    signals.c and the driver loops of dhcpcd.c (section 4.4 of RFC 2131). Time is in seconds. */
module DhcpLease {
  import opened Bytes
  import opened DhcpOptions

  const DHCP_BOOTREPLY: byte := 2
  const DHCP_OFFER: byte := 2
  const DHCP_ACK: byte := 5
  const DHCP_NAK: byte := 6

  /** The functions currState can point to. */
  datatype Fn = Reboot | Init | Bound | Renew | Rebind | Stop | Start

  /** Where control is: about to call currState, or blocked inside the call. dhcpRequest runs
      inside dhcpReboot or dhcpInit. */
  datatype Place =
    | Call(f: Fn)
    | Discovering
    | Requesting(caller: Fn)
    | Configuring(caller: Fn)
    | BoundWait
    | RenewWait
    | RebindWait
    | Exited

  datatype Alarm = Off | At(time: int)

  /** ackLease is the lease time the table held right after the last ACK. */
  datatype State = State(
    at: Place, now: int, alarm: Alarm, daemon: bool,
    reqSentTime: int, xid: u32, table: Options, ackLease: u32)

  datatype Event =
    | Tick
    | AlarmRings
    | Receive(xid: u32, op: byte, htypeOk: bool, m: Reply)
    | SocketError
    | RunState(cached: bool, xid: u32)
    | Configured
    | ConfigFails
    | AddressInUse
    | SleepEndsEarly
    | Terminate

  /** What the user configured: the timeout for the first lease and the default lease time. */
  datatype Config = Config(timeOut: nat, nleaseTime: Quad)

  /** The difference of two times and an unsigned interval, cut to a 32-bit int. */
  function ToInt32(x: int): (r: int32)
    decreases if x < 0 then -2 * x - 1 else 2 * x + 1
  {
    if x < -0x8000_0000 then ToInt32(x + 0x1_0000_0000)
    else if x >= 0x8000_0000 then ToInt32(x - 0x1_0000_0000)
    else x
  }

  predicate TimesKnown(o: Options) {
    TimesFour(o) && LEASE_TIME in o.val && T1_VALUE in o.val && T2_VALUE in o.val
  }

  /** i of dhcpBound, dhcpRenew and dhcpRebind: what is left of a time option since the last ACK. */
  function Left(s: State, tag: byte): int
    requires tag in s.table.val && |s.table.val[tag]| == 4
  {
    ToInt32(s.reqSentTime + TimeOf(s.table, tag) - s.now)
  }

  // ---------------------------------------------------------------- one step

  predicate Waiting(at: Place) {
    !at.Call? && !at.Exited?
  }

  predicate Listening(at: Place) {
    at.Discovering? || at.Requesting? || at.RenewWait? || at.RebindWait?
  }

  predicate Leased(at: Place) {
    at.BoundWait? || at.RenewWait? || at.RebindWait?
  }

  /** The states in which the lease times of the table are used. */
  predicate UsesTimes(at: Place) {
    Leased(at) || (at.Call? && (at.f.Bound? || at.f.Renew? || at.f.Rebind?))
  }

  predicate ValidState(s: State) {
    ValidOptions(s.table) && (UsesTimes(s.at) || s.at.Configuring? ==> TimesKnown(s.table))
  }

  /** Time passes only while the client is blocked and no alarm is due: alarms are prompt. */
  predicate Enabled(c: Config, s: State, e: Event) {
    match e
    case Tick => Waiting(s.at) && (s.alarm.At? ==> s.now < s.alarm.time)
    case AlarmRings => Waiting(s.at) && s.alarm.At? && s.alarm.time <= s.now
    case Receive(_, _, _, m) => Listening(s.at) && ValidItems(m.items) && m.nleaseTime == c.nleaseTime
    case SocketError => Listening(s.at)
    case RunState(_, _) => s.at.Call?
    case Configured | ConfigFails | AddressInUse => s.at.Configuring?
    case SleepEndsEarly => s.at.BoundWait?
    case Terminate => Waiting(s.at)
  }

  /** dhcpSendAndRecv looks at a reply only if it is a BOOTREPLY to the xid sent. */
  predicate Addressed(s: State, e: Event) {
    e.Receive? && e.xid == s.xid && e.htypeOk && e.op == DHCP_BOOTREPLY
  }

  function Wanted(at: Place): byte {
    if at.Discovering? then DHCP_OFFER else DHCP_ACK
  }

  /** Where the client goes when dhcpSendAndRecv fails. */
  function OnFailure(s: State): State {
    match s.at
    case Discovering => s.(at := Exited)
    case Requesting(_) => s.(at := Call(Init))
    case RenewWait => s.(at := Call(Rebind))
    case _ => s.(at := Call(Stop))
  }

  function OnWanted(s: State): State
    requires s.at.Discovering? || TimesKnown(s.table)
  {
    match s.at
    case Discovering => s.(at := Requesting(Init))
    case Requesting(f) => s.(at := Configuring(f), reqSentTime := s.now, ackLease := LeaseOf(s.table))
    case _ => s.(at := Call(Bound), reqSentTime := s.now, ackLease := LeaseOf(s.table))
  }

  function OnReply(s: State, m: Reply): State
    requires ValidOptions(s.table) && ValidItems(m.items)
  {
    TimersNeverStale(s.table, m);
    var s' := s.(table := Parsed(s.table, m));
    var reported := TypeOf(s'.table);
    if reported == Wanted(s.at) then OnWanted(s')
    else if reported == DHCP_NAK then OnFailure(s')
    else s'
  }

  /** sigHandler for SIGALRM: jump back into the interrupted state function, or give up. */
  function OnAlarm(c: Config, s: State): State {
    var s := s.(alarm := Off);
    match s.at
    case BoundWait => s.(at := Call(Renew))
    case RenewWait => s.(at := Call(Rebind))
    case RebindWait => s.(at := Call(Stop))
    case Requesting(f) => if f.Reboot? then s.(at := Call(Init), alarm := At(s.now + c.timeOut)) else s.(at := Exited)
    case Configuring(f) => if f.Reboot? then s.(at := Call(Init), alarm := At(s.now + c.timeOut)) else s.(at := Exited)
    case _ => s.(at := Exited)
  }

  /** Arm the alarm and wait, or go straight to the next state. */
  function WaitOr(s: State, tag: byte, at: Place, next: Fn): State
    requires tag in s.table.val && |s.table.val[tag]| == 4
  {
    if Left(s, tag) > 0 then s.(at := at, alarm := At(s.now + Left(s, tag))) else s.(at := Call(next))
  }

  function OnRun(s: State, cached: bool, xid: u32): State
    requires s.at.Call? && ValidState(s)
  {
    match s.at.f
    case Reboot => s.(table := EMPTY, xid := xid, at := if cached then Requesting(Reboot) else Call(Init))
    case Init => s.(table := EMPTY, xid := xid, at := Discovering)
    case Bound => WaitOr(s, T1_VALUE, BoundWait, Renew)
    case Renew => WaitOr(s.(xid := xid), T2_VALUE, RenewWait, Rebind)
    case Rebind => WaitOr(s.(xid := xid), LEASE_TIME, RebindWait, Stop)
    case Stop => s.(table := EMPTY, at := Call(Start))
    case Start => s.(at := Call(Init))
  }

  function Next(c: Config, s: State, e: Event): State
    requires ValidState(s) && Enabled(c, s, e)
  {
    match e
    case Tick => s.(now := s.now + 1)
    case AlarmRings => OnAlarm(c, s)
    case Receive(_, _, _, m) => if Addressed(s, e) then OnReply(s, m) else s
    case SocketError => OnFailure(s)
    case RunState(cached, xid) => OnRun(s, cached, xid)
    case Configured => s.(at := Call(Bound), alarm := if s.daemon then s.alarm else Off, daemon := true)
    case ConfigFails => s.(at := Exited)
    case AddressInUse => s.(at := Call(Init))
    case SleepEndsEarly => s.(at := Call(Renew))
    case Terminate => s.(at := Exited)
  }

  // ---------------------------------------------------------------- runs

  /** A start of the program: alarm(TimeOut), then the first driver loop. */
  predicate Initial(c: Config, s: State) {
    s.at == Call(Reboot) && s.alarm == At(s.now + c.timeOut) && !s.daemon && s.table == EMPTY
  }

  predicate Run(c: Config, s: State, es: seq<Event>, t: State)
    decreases |es|
  {
    if es == [] then s == t
    else ValidState(s) && Enabled(c, s, es[0]) && Run(c, Next(c, s, es[0]), es[1..], t)
  }

  lemma NextValid(c: Config, s: State, e: Event)
    requires ValidState(s) && Enabled(c, s, e)
    ensures ValidState(Next(c, s, e))
  {
    hide Parsed, Left, Last, LeaseAfter, TypeOf, ToInt32;
    if e.Receive? && Addressed(s, e) {
      TimersNeverStale(s.table, e.m);
    }
  }

  // ---------------------------------------------------------------- which step leads where

  /** A reply to the message sent, after which the table names this type. */
  predicate GotType(s: State, e: Event, v: byte)
    requires ValidState(s) && (e.Receive? ==> ValidItems(e.m.items))
  {
    e.Receive? && e.op == 2 && e.xid == s.xid && e.htypeOk && TypeOf(Parsed(s.table, e.m)) == v
  }

  /** The cut to an int: the only number of that range with the same 32 bits. */
  lemma {:induction false} CutKeepsBits(x: int)
    ensures (ToInt32(x) - x) % 0x1_0000_0000 == 0 && -0x8000_0000 <= ToInt32(x) < 0x8000_0000
    decreases if x < 0 then -2 * x - 1 else 2 * x + 1
  {
    if x < -0x8000_0000 {
      CutKeepsBits(x + 0x1_0000_0000);
    } else if x >= 0x8000_0000 {
      CutKeepsBits(x - 0x1_0000_0000);
    }
  }

  lemma XidLeft(s: State, e: Event, tag: byte)
    requires tag in s.table.val && |s.table.val[tag]| == 4 && e.RunState?
    ensures Left(s.(xid := e.xid), tag) == Left(s, tag)
  {}

  lemma XidsLeft(s: State, e: Event)
    requires ValidState(s) && e.RunState?
    ensures s.at == Call(Renew) ==> Left(s.(xid := e.xid), 59) == Left(s, 59)
    ensures s.at == Call(Rebind) ==> Left(s.(xid := e.xid), 51) == Left(s, 51)
  {
    hide Left;
    if s.at == Call(Renew) {
      XidLeft(s, e, 59);
    }
    if s.at == Call(Rebind) {
      XidLeft(s, e, 51);
    }
  }

  /** The client turns to its own server when the wait for T1 ends, or at once if T1 is past. */
  lemma RenewEntered(c: Config, s: State, e: Event)
    requires ValidState(s) && Enabled(c, s, e) && s.at != Call(Renew)
    ensures Next(c, s, e).at == Call(Renew) <==>
            (s.at.BoundWait? && (e.AlarmRings? || e.SleepEndsEarly?)) ||
            (s.at == Call(Bound) && e.RunState? && Left(s, 58) <= 0)
  {
    hide Parsed, Left, LeaseAfter, ToInt32;
    if e.RunState? {
      XidsLeft(s, e);
    }
  }

  /** It turns to all servers when Renew runs into T2, is refused or fails, or at once if T2 is past. */
  lemma RebindEntered(c: Config, s: State, e: Event)
    requires ValidState(s) && Enabled(c, s, e) && s.at != Call(Rebind)
    ensures Next(c, s, e).at == Call(Rebind) <==>
            (s.at.RenewWait? && (e.AlarmRings? || e.SocketError? || GotType(s, e, 6))) ||
            (s.at == Call(Renew) && e.RunState? && Left(s, 59) <= 0)
  {
    hide Parsed, Left, LeaseAfter, ToInt32;
    if e.RunState? {
      XidsLeft(s, e);
    }
  }

  /** It gives the lease up when Rebind runs into its end, is refused or fails, or at once if it is over. */
  lemma StopEntered(c: Config, s: State, e: Event)
    requires ValidState(s) && Enabled(c, s, e) && s.at != Call(Stop)
    ensures Next(c, s, e).at == Call(Stop) <==>
            (s.at.RebindWait? && (e.AlarmRings? || e.SocketError? || GotType(s, e, 6))) ||
            (s.at == Call(Rebind) && e.RunState? && Left(s, 51) <= 0)
  {
    hide Parsed, Left, LeaseAfter, ToInt32;
    if e.RunState? {
      XidsLeft(s, e);
    }
  }

  /** It starts over: a request refused, failed or, for the cached address, timed out; an address in
      use; nothing cached; or everything stopped. */
  lemma InitEntered(c: Config, s: State, e: Event)
    requires ValidState(s) && Enabled(c, s, e) && s.at != Call(Init)
    ensures Next(c, s, e).at == Call(Init) <==>
            (s.at.Requesting? && (e.SocketError? || GotType(s, e, 6))) ||
            ((s.at == Requesting(Reboot) || s.at == Configuring(Reboot)) && e.AlarmRings?) ||
            (s.at.Configuring? && e.AddressInUse?) ||
            (s.at == Call(Reboot) && e.RunState? && !e.cached) || (s.at == Call(Start) && e.RunState?)
  {
    hide Parsed, Left, LeaseAfter, ToInt32;
  }

  /** It ends: by a signal, or because the first lease does not come in time, is refused or cannot be
      configured. */
  lemma ExitedEntered(c: Config, s: State, e: Event)
    requires ValidState(s) && Enabled(c, s, e) && s.at != Exited
    ensures Next(c, s, e).at == Exited <==>
            e.Terminate? || (s.at.Configuring? && e.ConfigFails?) ||
            (s.at.Discovering? && (e.SocketError? || e.AlarmRings? || GotType(s, e, 6))) ||
            ((s.at.Requesting? || s.at.Configuring?) && e.AlarmRings? && s.at.caller != Reboot)
  {
    hide Parsed, Left, LeaseAfter, ToInt32;
  }

  /** It is bound once an address is configured or a lease renewed. */
  lemma BoundEntered(c: Config, s: State, e: Event)
    requires ValidState(s) && Enabled(c, s, e) && s.at != Call(Bound)
    ensures Next(c, s, e).at == Call(Bound) <==>
            (s.at.Configuring? && e.Configured?) || ((s.at.RenewWait? || s.at.RebindWait?) && GotType(s, e, 5))
  {
    hide Parsed, Left, LeaseAfter, ToInt32;
  }

  /** The waits begin with a call that finds time left. */
  lemma WaitsEntered(c: Config, s: State, e: Event)
    requires ValidState(s) && Enabled(c, s, e)
    ensures !s.at.BoundWait? ==>
      (Next(c, s, e).at.BoundWait? <==> s.at == Call(Bound) && e.RunState? && Left(s, 58) > 0)
    ensures !s.at.RenewWait? ==>
      (Next(c, s, e).at.RenewWait? <==> s.at == Call(Renew) && e.RunState? && Left(s, 59) > 0)
    ensures !s.at.RebindWait? ==>
      (Next(c, s, e).at.RebindWait? <==> s.at == Call(Rebind) && e.RunState? && Left(s, 51) > 0)
  {
    hide Parsed, Left, LeaseAfter, ToInt32;
    if e.RunState? {
      XidsLeft(s, e);
    }
  }

  /** The way to a first lease: discover, request what was offered or cached, configure what was
      acknowledged; and the way back after a stop. */
  lemma AcquiringEntered(c: Config, s: State, e: Event)
    requires ValidState(s) && Enabled(c, s, e)
    ensures !s.at.Discovering? ==> (Next(c, s, e).at.Discovering? <==> s.at == Call(Init) && e.RunState?)
    ensures s.at != Call(Start) ==> (Next(c, s, e).at == Call(Start) <==> s.at == Call(Stop) && e.RunState?)
    ensures s.at != Call(Reboot) ==> Next(c, s, e).at != Call(Reboot)
  {
    hide Parsed, Left, LeaseAfter, ToInt32;
  }

  lemma RequestingEntered(c: Config, s: State, e: Event, f: Fn)
    requires ValidState(s) && Enabled(c, s, e) && s.at != Requesting(f)
    ensures Next(c, s, e).at == Requesting(f) <==>
            (f == Init && s.at.Discovering? && GotType(s, e, 2)) ||
            (f == Reboot && s.at == Call(Reboot) && e.RunState? && e.cached)
  {
    hide Parsed, Left, LeaseAfter, ToInt32;
  }

  lemma ConfiguringEntered(c: Config, s: State, e: Event, f: Fn)
    requires ValidState(s) && Enabled(c, s, e) && s.at != Configuring(f)
    ensures Next(c, s, e).at == Configuring(f) <==> s.at == Requesting(f) && GotType(s, e, 5)
  {
    hide Parsed, Left, LeaseAfter, ToInt32;
  }

  /** The alarm is set by the calls that wait, starts over when the cached address is given up, and is
      off once it has rung or the first lease is configured. */
  lemma AlarmLaw(c: Config, s: State, e: Event)
    requires ValidState(s) && Enabled(c, s, e)
    ensures Next(c, s, e).alarm ==
      if e.AlarmRings? then
        if s.at == Requesting(Reboot) || s.at == Configuring(Reboot) then At(s.now + c.timeOut) else Off
      else if e.RunState? && s.at == Call(Bound) && Left(s, 58) > 0 then At(s.now + Left(s, 58))
      else if e.RunState? && s.at == Call(Renew) && Left(s, 59) > 0 then At(s.now + Left(s, 59))
      else if e.RunState? && s.at == Call(Rebind) && Left(s, 51) > 0 then At(s.now + Left(s, 51))
      else if e.Configured? && !s.daemon then Off
      else s.alarm
  {
    hide Parsed, Left, LeaseAfter, ToInt32;
    if e.RunState? {
      XidsLeft(s, e);
    }
  }

  /** The clock, the time and the lease of the last ACK, the xid and the table. */
  lemma DataLaw(c: Config, s: State, e: Event)
    requires ValidState(s) && Enabled(c, s, e)
    ensures var n := Next(c, s, e);
      var acked := (s.at.Requesting? || s.at.RenewWait? || s.at.RebindWait?) && GotType(s, e, 5);
      && n.now == (if e.Tick? then s.now + 1 else s.now)
      && n.reqSentTime == (if acked then s.now else s.reqSentTime)
      && (acked ==> n.ackLease == LeaseAfter(s.table, e.m)) && (!acked ==> n.ackLease == s.ackLease)
      && (n.daemon <==> s.daemon || e.Configured?)
      && n.xid == (if e.RunState? && s.at.f in {Reboot, Init, Renew, Rebind} then e.xid else s.xid)
      && n.table == if e.Receive? && e.op == 2 && e.xid == s.xid && e.htypeOk then Parsed(s.table, e.m)
                    else if e.RunState? && s.at.f in {Reboot, Init, Stop} then EMPTY else s.table
  {
    hide Parsed, Left, LeaseAfter, ToInt32;
    if Addressed(s, e) {
      TimersNeverStale(s.table, e.m);
    }
  }

  // ---------------------------------------------------------------- the first lease in time

  /** Before the first lease: the alarm that ends the program is set, and no time lies behind it. */
  predicate Starting(c: Config, s: State, start: int) {
    s.daemon || s.at.Exited? ||
    (ValidState(s) && s.alarm.At? && s.now <= s.alarm.time &&
     match s.at
     case Call(f) =>
       (f == Reboot && s.alarm.time == start + c.timeOut) || (f == Init && s.alarm.time <= start + 2 * c.timeOut)
     case Discovering => s.alarm.time <= start + 2 * c.timeOut
     case Requesting(f) => s.alarm.time <= start + (if f == Reboot then 1 else 2) * c.timeOut
     case Configuring(f) => s.alarm.time <= start + (if f == Reboot then 1 else 2) * c.timeOut
     case _ => false)
  }

  lemma StartingKept(c: Config, s: State, e: Event, start: int)
    requires ValidState(s) && Starting(c, s, start) && Enabled(c, s, e)
    ensures Starting(c, Next(c, s, e), start)
  {
    hide Parsed, Left, LeaseAfter, ToInt32;
    NextValid(c, s, e);
  }

  lemma {:induction false} StartingOnRun(c: Config, s: State, es: seq<Event>, t: State, start: int)
    requires ValidState(s) && Starting(c, s, start) && Run(c, s, es, t)
    ensures Starting(c, t, start)
    decreases |es|
  {
    hide Starting, Next, Enabled, ValidState;
    if es != [] {
      StartingKept(c, s, es[0], start);
      NextValid(c, s, es[0]);
      StartingOnRun(c, Next(c, s, es[0]), es[1..], t, start);
    }
  }

  /** On every run of the program a first lease is configured within the timeout, or within twice the
      timeout if a cached address was asked for first, or the program has ended. */
  lemma FirstLeaseInTime(c: Config, s0: State, es: seq<Event>, t: State)
    requires Initial(c, s0) && Run(c, s0, es, t) && !t.daemon && !t.at.Exited?
    ensures t.now <= s0.now + 2 * c.timeOut
    ensures t.at == Requesting(Reboot) || t.at == Configuring(Reboot) ==> t.now <= s0.now + c.timeOut
  {
    assert Starting(c, s0, s0.now);
    hide Run;
    StartingOnRun(c, s0, es, t, s0.now);
  }

  // ---------------------------------------------------------------- only an ACK makes a lease

  predicate OwnType(m: Reply, v: byte) {
    Last(m.items, MESSAGE_TYPE) != [] && Last(m.items, MESSAGE_TYPE)[0] == v
  }

  /** While a first lease is being requested no ACK type lies in the table. */
  predicate NoStaleAck(s: State) {
    ValidState(s) && (s.at.Requesting? ==> TypeOf(s.table) != DHCP_ACK)
  }

  lemma NoStaleAckKept(c: Config, s: State, e: Event)
    requires NoStaleAck(s) && Enabled(c, s, e)
    ensures NoStaleAck(Next(c, s, e))
  {
    NextValid(c, s, e);
  }

  lemma {:induction false} NoStaleAckOnRun(c: Config, s: State, es: seq<Event>, t: State)
    requires NoStaleAck(s) && Run(c, s, es, t)
    ensures NoStaleAck(t)
    decreases |es|
  {
    if es != [] {
      NoStaleAckKept(c, s, es[0]);
      NoStaleAckOnRun(c, Next(c, s, es[0]), es[1..], t);
    }
  }

  /** On every run a new lease is taken only at the moment a BOOTREPLY to the xid sent arrives
      that itself carries the type DHCP_ACK. */
  lemma AcquiredOnlyByAck(c: Config, s0: State, es: seq<Event>, s: State, e: Event)
    requires Initial(c, s0) && Run(c, s0, es, s) && ValidState(s) && Enabled(c, s, e)
    requires !s.at.Configuring? && Next(c, s, e).at.Configuring?
    ensures s.at.Requesting? && Addressed(s, e) && OwnType(e.m, DHCP_ACK)
  {
    hide Parsed, Left, LeaseAfter, ToInt32;
    NoStaleAckOnRun(c, s0, es, s);
    if e.Receive? && Addressed(s, e) {
      ReportedType(s.table, e.m);
    }
  }

  /** A lease is renewed exactly by a BOOTREPLY to the xid sent that carries DHCP_ACK, or that
      carries no type at all while the type of an earlier ACK still lies in the table. */
  lemma RenewedIff(c: Config, s: State, e: Event)
    requires ValidState(s) && Enabled(c, s, e) && (s.at.RenewWait? || s.at.RebindWait?)
    ensures Next(c, s, e).at == Call(Bound) <==>
            Addressed(s, e) &&
            (OwnType(e.m, DHCP_ACK) || (Last(e.m.items, MESSAGE_TYPE) == [] && TypeOf(s.table) == DHCP_ACK))
  {
    hide Parsed, Left, LeaseAfter, ToInt32;
    if Addressed(s, e) {
      ReportedType(s.table, e.m);
    }
  }

  // ---------------------------------------------------------------- no lease outlives its time

  const HALF := 0x8000_0000

  function Elapsed(s: State): int {
    s.now - s.reqSentTime
  }

  // What the three state functions do with t1, t2 and lease time l when called y seconds after the
  // last ACK, whenever the waits between them end: no wait reaches beyond limit.

  predicate RebindSafe(l: int, y: int, limit: int) {
    ToInt32(l - y) > 0 ==> y + ToInt32(l - y) <= limit
  }

  predicate RenewSafe(t2: int, l: int, y: int, limit: int) {
    var v := ToInt32(t2 - y);
    if v > 0 then y + v <= limit && (forall z :: y <= z <= y + v ==> RebindSafe(l, z, limit))
    else RebindSafe(l, y, limit)
  }

  predicate BoundSafe(t1: int, t2: int, l: int, y: int, limit: int) {
    var v := ToInt32(t1 - y);
    if v > 0 then y + v <= limit && (forall z :: y <= z <= y + v ==> RenewSafe(t2, l, z, limit))
    else RenewSafe(t2, l, y, limit)
  }

  /** Both timers end within the lease, and in order unless T1 fits a 32-bit int. */
  predicate GoodTimes(t1: int, t2: int, l: int) {
    0 <= t1 <= l && 0 <= t2 <= l && (t1 <= t2 || t1 < HALF)
  }

  /** A positive remainder is exact as long as the lapse exceeds the interval by less than 2^31. */
  lemma CutExact(x: int)
    requires -HALF <= x < 2 * HALF
    ensures ToInt32(x) > 0 ==> ToInt32(x) == x
  {
    if x >= HALF {
      assert ToInt32(x) == ToInt32(x - 2 * HALF) == x - 2 * HALF;
    }
  }

  lemma RebindWithin(l: int, y: int)
    requires 0 <= y && 0 <= l < 2 * HALF && (y < HALF || y <= l)
    ensures RebindSafe(l, y, l)
  {
    CutExact(l - y);
  }

  lemma RenewWithin(t2: int, l: int, y: int)
    requires 0 <= y && 0 <= t2 <= l < 2 * HALF && (y < HALF || y <= t2)
    ensures RenewSafe(t2, l, y, l)
  {
    CutExact(t2 - y);
    hide ToInt32, RebindSafe;
    if ToInt32(t2 - y) > 0 {
      forall z | y <= z <= t2 ensures RebindSafe(l, z, l) {
        RebindWithin(l, z);
      }
    } else {
      RebindWithin(l, y);
    }
  }

  lemma GoodTimesSafe(t1: int, t2: int, l: int, y: int)
    requires GoodTimes(t1, t2, l) && l < 2 * HALF && 0 <= y < HALF
    ensures BoundSafe(t1, t2, l, y, l)
  {
    CutExact(t1 - y);
    hide ToInt32, RebindSafe, RenewSafe;
    if ToInt32(t1 - y) > 0 {
      forall z | y <= z <= t1 ensures RenewSafe(t2, l, z, l) {
        RenewWithin(t2, l, z);
      }
    } else {
      RenewWithin(t2, l, y);
    }
  }

  /** What the server and the configuration step are trusted with. */
  predicate Fair(s: State, e: Event)
    requires ValidState(s)
  {
    match e
    case Receive(_, _, _, m) =>
      Addressed(s, e) && ValidItems(m.items) && !s.at.Discovering? ==>
        var o := Parsed(s.table, m);
        if TypeOf(o) == DHCP_ACK
        then TimesKnown(o) && GoodTimes(TimeOf(o, T1_VALUE), TimeOf(o, T2_VALUE), LeaseOf(o))
        else s.at.Requesting? || Last(m.items, LEASE_TIME) == []
    case Tick => s.at.Configuring? ==> Elapsed(s) + 1 < HALF
    case _ => true
  }

  predicate FairRun(c: Config, s: State, es: seq<Event>, t: State)
    decreases |es|
  {
    if es == [] then s == t
    else ValidState(s) && Enabled(c, s, es[0]) && Fair(s, es[0]) && FairRun(c, Next(c, s, es[0]), es[1..], t)
  }

  /** When the alarm rings, in seconds after the last ACK. */
  function AlarmAfter(s: State): int
    requires s.alarm.At?
  {
    s.alarm.time - s.reqSentTime
  }

  predicate AlarmWithin(s: State) {
    s.alarm.At? && Elapsed(s) <= AlarmAfter(s) <= s.ackLease
  }

  predicate Inv(c: Config, s: State) {
    && ValidState(s)
    && (UsesTimes(s.at) || s.at.Configuring? ==>
          0 <= Elapsed(s) && (LeaseOf(s.table) == 0 ==> FromBe32(c.nleaseTime) == 0) &&
          var t1, t2, l := TimeOf(s.table, T1_VALUE), TimeOf(s.table, T2_VALUE), LeaseOf(s.table);
          match s.at
          case Configuring(_) => GoodTimes(t1, t2, l) && Elapsed(s) < HALF && l == s.ackLease
          case BoundWait =>
            AlarmWithin(s) && forall z :: Elapsed(s) <= z <= AlarmAfter(s) ==> RenewSafe(t2, l, z, s.ackLease)
          case RenewWait =>
            AlarmWithin(s) && forall z :: Elapsed(s) <= z <= AlarmAfter(s) ==> RebindSafe(l, z, s.ackLease)
          case RebindWait => AlarmWithin(s)
          case Call(f) =>
            (match f
             case Bound => BoundSafe(t1, t2, l, Elapsed(s), s.ackLease)
             case Renew => RenewSafe(t2, l, Elapsed(s), s.ackLease)
             case Rebind => RebindSafe(l, Elapsed(s), s.ackLease)
             case _ => true)
          case _ => true)
  }

  lemma LeftIs(s: State, tag: byte)
    requires tag in s.table.val && |s.table.val[tag]| == 4
    ensures Left(s, tag) == ToInt32(TimeOf(s.table, tag) - Elapsed(s))
  {
    hide TimeOf;
    assert s.reqSentTime + TimeOf(s.table, tag) - s.now == TimeOf(s.table, tag) - Elapsed(s);
  }

  lemma BoundKeeps(c: Config, s: State, cached: bool, xid: u32)
    requires Inv(c, s) && s.at == Call(Bound)
    ensures Inv(c, OnRun(s, cached, xid))
  {
    hide Left, ToInt32, TimeOf, FromBe32, RenewSafe, RebindSafe;
    LeftIs(s, T1_VALUE);
  }

  lemma RenewKeeps(c: Config, s: State, cached: bool, xid: u32)
    requires Inv(c, s) && s.at == Call(Renew)
    ensures Inv(c, OnRun(s, cached, xid))
  {
    hide Left, ToInt32, TimeOf, FromBe32, BoundSafe, RebindSafe;
    LeftIs(s.(xid := xid), T2_VALUE);
  }

  lemma RebindKeeps(c: Config, s: State, cached: bool, xid: u32)
    requires Inv(c, s) && s.at == Call(Rebind)
    ensures Inv(c, OnRun(s, cached, xid))
  {
    hide Left, ToInt32, FromBe32, BoundSafe, RenewSafe;
    LeftIs(s.(xid := xid), LEASE_TIME);
  }

  lemma RunStateKeeps(c: Config, s: State, cached: bool, xid: u32)
    requires Inv(c, s) && s.at.Call?
    ensures Inv(c, OnRun(s, cached, xid))
  {
    hide Left, ToInt32, TimeOf, FromBe32, BoundSafe, RenewSafe;
    match s.at.f
    case Bound => BoundKeeps(c, s, cached, xid);
    case Renew => RenewKeeps(c, s, cached, xid);
    case Rebind => RebindKeeps(c, s, cached, xid);
    case _ =>
  }

  lemma ReplyKeeps(c: Config, s: State, e: Event)
    requires Inv(c, s) && Enabled(c, s, e) && Fair(s, e) && Addressed(s, e)
    ensures Inv(c, OnReply(s, e.m))
  {
    hide Parsed, Left, Last, BoundSafe, RenewSafe, RebindSafe, ToInt32, FromBe32;
    NextValid(c, s, e);
    TimersNeverStale(s.table, e.m);
    LeaseKept(s.table, e.m);
    var o := Parsed(s.table, e.m);
    if TypeOf(o) == DHCP_ACK && !s.at.Discovering? {
      GoodTimesSafe(TimeOf(o, T1_VALUE), TimeOf(o, T2_VALUE), LeaseOf(o), 0);
    }
  }

  /** The lease time in the table after a reply; zero only if that is configured. */
  lemma LeaseKept(o: Options, m: Reply)
    requires ValidOptions(o) && ValidItems(m.items)
    ensures LeaseAfter(o, m) == 0 ==> FromBe32(m.nleaseTime) == 0
    ensures TimesKnown(o) && Last(m.items, LEASE_TIME) == [] && (LeaseOf(o) == 0 ==> FromBe32(m.nleaseTime) == 0)
            ==> LeaseAfter(o, m) == LeaseOf(o)
  {
    var v := Last(m.items, LEASE_TIME);
    var w := if v == [] && LEASE_TIME in o.val then o.val[LEASE_TIME] else v;
    if |w| == 4 {
      ZeroIff(w);
    }
  }

  lemma ZeroIff(s: Quad)
    ensures FromBe32(s) == 0 <==> IsZero(s)
  {
    var a: int, b: int, c: int, d: int := s[0], s[1], s[2], s[3];
    FourBytes(s);
    assert FromBe32(s) == 0x100_0000 * a + 0x1_0000 * b + 0x100 * c + d;
    assert IsZero(s) <==> a == 0 && b == 0 && c == 0 && d == 0;
  }

  lemma InvKept(c: Config, s: State, e: Event)
    requires Inv(c, s) && Enabled(c, s, e) && Fair(s, e)
    ensures Inv(c, Next(c, s, e))
  {
    hide Left, Parsed, Last, BoundSafe, RenewSafe, RebindSafe, ToInt32, FromBe32;
    if e.Receive? && Addressed(s, e) {
      ReplyKeeps(c, s, e);
    } else if e.RunState? {
      RunStateKeeps(c, s, e.cached, e.xid);
    } else if e.Configured? {
      GoodTimesSafe(TimeOf(s.table, T1_VALUE), TimeOf(s.table, T2_VALUE), LeaseOf(s.table), Elapsed(s));
    }
  }

  lemma {:induction false} InvOnRun(c: Config, s: State, es: seq<Event>, t: State)
    requires Inv(c, s) && FairRun(c, s, es, t)
    ensures Inv(c, t)
    decreases |es|
  {
    hide Inv, Next, Enabled, Fair, ValidState;
    if es != [] {
      InvKept(c, s, es[0]);
      InvOnRun(c, Next(c, s, es[0]), es[1..], t);
    }
  }

  predicate InTime(s: State) {
    Leased(s.at) ==> s.now <= s.reqSentTime + s.ackLease
  }

  lemma InvInTime(c: Config, s: State, es: seq<Event>, t: State)
    requires Inv(c, s) && FairRun(c, s, es, t)
    ensures InTime(t)
  {
    InvOnRun(c, s, es, t);
    hide FairRun;
  }

  /** On every fair run from program start, the client is in Bound, Renew or Rebind only within
      the lease time counted from the last ACK. */
  lemma LeaseNeverOutlived(c: Config, s0: State, es: seq<Event>, t: State)
    requires Initial(c, s0) && FairRun(c, s0, es, t)
    ensures InTime(t)
  {
    assert Inv(c, s0);
    hide Inv;
    InvInTime(c, s0, es, t);
  }

  // ---------------------------------------------------------------- the condition is exact

  /** n seconds of waiting. */
  function Ticks(n: nat): seq<Event> {
    seq(n, _ => Tick)
  }

  lemma {:induction false} WaitRun(c: Config, s: State, n: nat)
    requires ValidState(s) && Leased(s.at) && s.alarm.At? && s.now + n <= s.alarm.time
    ensures FairRun(c, s, Ticks(n), s.(now := s.now + n))
    decreases n
  {
    if n > 0 {
      assert Ticks(n)[1..] == Ticks(n - 1);
      WaitRun(c, s.(now := s.now + 1), n - 1);
    }
  }

  lemma {:induction false} FairRunJoin(c: Config, s: State, es: seq<Event>, u: State, fs: seq<Event>, t: State)
    requires FairRun(c, s, es, u) && FairRun(c, u, fs, t)
    ensures FairRun(c, s, es + fs, t)
    decreases |es|
  {
    hide Next, Enabled, Fair, ValidState;
    if es == [] {
      assert es + fs == fs;
    } else {
      assert (es + fs)[1..] == es[1..] + fs;
      FairRunJoin(c, Next(c, s, es[0]), es[1..], u, fs, t);
    }
  }

  lemma FairStep(c: Config, s: State, e: Event)
    requires ValidState(s) && Enabled(c, s, e) && Fair(s, e)
    ensures FairRun(c, s, [e], Next(c, s, e))
  {
    assert [e][1..] == [];
  }

  predicate Timed(f: Fn) {
    f.Bound? || f.Renew? || f.Rebind?
  }

  /** The time option a state function waits for, and where it waits. */
  function TagOf(f: Fn): byte
    requires Timed(f)
  {
    if f.Bound? then T1_VALUE else if f.Renew? then T2_VALUE else LEASE_TIME
  }

  function WaitOf(f: Fn): Place
    requires Timed(f)
  {
    if f.Bound? then BoundWait else if f.Renew? then RenewWait else RebindWait
  }

  /** What is left when the state function that is due is called. */
  function Due(s: State): int
    requires ValidState(s) && s.at.Call? && Timed(s.at.f)
  {
    ToInt32(TimeOf(s.table, TagOf(s.at.f)) - Elapsed(s))
  }

  lemma Called(c: Config, s: State)
    requires ValidState(s) && s.at.Call? && Timed(s.at.f)
    ensures var n := Next(c, s, RunState(false, s.xid));
      FairRun(c, s, [RunState(false, s.xid)], n) &&
      n == if Due(s) > 0 then s.(at := WaitOf(s.at.f), alarm := At(s.now + Due(s)))
           else s.(at := Call(if s.at.f.Bound? then Renew else if s.at.f.Renew? then Rebind else Stop))
  {
    LeftIs(s, TagOf(s.at.f));
    hide Left, ToInt32, TimeOf;
    assert s.(xid := s.xid) == s;
    FairStep(c, s, RunState(false, s.xid));
  }

  /** A call that arms the alarm, and the wait until w seconds after the last ACK. */
  lemma CallAndWait(c: Config, s: State, w: int) returns (es: seq<Event>, t: State)
    requires ValidState(s) && s.at.Call? && Timed(s.at.f) && Due(s) > 0
    requires Elapsed(s) <= w <= Elapsed(s) + Due(s)
    ensures FairRun(c, s, es, t) && ValidState(t) && es == [RunState(false, s.xid)] + Ticks(w - Elapsed(s))
    ensures t == s.(at := WaitOf(s.at.f), now := s.reqSentTime + w, alarm := At(s.now + Due(s)))
  {
    Called(c, s);
    var run := RunState(false, s.xid);
    var u := Next(c, s, run);
    hide Due, Next, TimeOf, FairRun;
    WaitRun(c, u, w - Elapsed(s));
    FairRunJoin(c, s, [run], u, Ticks(w - Elapsed(s)), u.(now := u.now + (w - Elapsed(s))));
    es := [run] + Ticks(w - Elapsed(s));
    t := u.(now := u.now + (w - Elapsed(s)));
  }

  /** The wait of the state function that is due goes beyond the lease. */
  lemma WaitOverstays(c: Config, s: State) returns (es: seq<Event>, t: State)
    requires ValidState(s) && s.at.Call? && Timed(s.at.f) && Due(s) > 0 && Elapsed(s) + Due(s) > s.ackLease
    ensures FairRun(c, s, es, t) && !InTime(t)
  {
    hide Due, FairRun;
    es, t := CallAndWait(c, s, if Elapsed(s) > s.ackLease then Elapsed(s) else s.ackLease as int + 1);
  }

  /** Some step e of a waiting client at time z leads to a state from which the lease is outlived. */
  lemma StepAndJoin(c: Config, s: State, es: seq<Event>, u: State, e: Event, fs: seq<Event>, t: State)
    returns (gs: seq<Event>)
    requires FairRun(c, s, es, u) && ValidState(u) && Enabled(c, u, e) && Fair(u, e) && FairRun(c, Next(c, u, e), fs, t)
    ensures FairRun(c, s, gs, t)
  {
    hide Next, Enabled, Fair, ValidState, FairRun;
    FairStep(c, u, e);
    FairRunJoin(c, s, es, u, [e], Next(c, u, e));
    FairRunJoin(c, s, es + [e], Next(c, u, e), fs, t);
    gs := es + [e] + fs;
  }

  /** Waiting in Renew until an unlucky moment, at which the socket fails. */
  lemma RenewWaitOverstays(c: Config, s: State, z: int) returns (es: seq<Event>, t: State)
    requires ValidState(s) && s.at.RenewWait? && s.alarm.At? && Elapsed(s) <= z <= AlarmAfter(s)
    requires !RebindSafe(LeaseOf(s.table), z, s.ackLease)
    ensures FairRun(c, s, es, t) && !InTime(t)
  {
    hide FairRun, ToInt32, FromBe32;
    var u := s.(now := s.reqSentTime + z);
    WaitRun(c, s, z - Elapsed(s));
    var fs;
    fs, t := WaitOverstays(c, Next(c, u, SocketError));
    es := StepAndJoin(c, s, Ticks(z - Elapsed(s)), u, SocketError, fs, t);
  }

  lemma RenewOverstays(c: Config, s: State) returns (es: seq<Event>, t: State)
    requires ValidState(s) && s.at == Call(Renew)
    requires !RenewSafe(TimeOf(s.table, T2_VALUE), LeaseOf(s.table), Elapsed(s), s.ackLease)
    ensures FairRun(c, s, es, t) && !InTime(t)
  {
    hide FairRun, ToInt32, FromBe32, InTime;
    var l := LeaseOf(s.table);
    if Due(s) <= 0 {
      Called(c, s);
      var run := RunState(false, s.xid);
      var fs;
      fs, t := WaitOverstays(c, Next(c, s, run));
      FairRunJoin(c, s, [run], Next(c, s, run), fs, t);
      es := [run] + fs;
    } else if Elapsed(s) + Due(s) > s.ackLease {
      es, t := WaitOverstays(c, s);
    } else {
      var z :| Elapsed(s) <= z <= Elapsed(s) + Due(s) && !RebindSafe(l, z, s.ackLease);
      var fs, u := CallAndWait(c, s, z);
      var gs;
      gs, t := RenewWaitOverstays(c, u, z);
      FairRunJoin(c, s, fs, u, gs, t);
      es := fs + gs;
    }
  }

  /** If the times are not safe, waiting outlives the lease. */
  lemma Overstays(c: Config, s: State) returns (es: seq<Event>, t: State)
    requires ValidState(s) && s.at == Call(Bound)
    requires !BoundSafe(TimeOf(s.table, T1_VALUE), TimeOf(s.table, T2_VALUE), LeaseOf(s.table), Elapsed(s), s.ackLease)
    ensures FairRun(c, s, es, t) && !InTime(t)
  {
    hide FairRun, ToInt32, FromBe32, InTime, RenewSafe;
    var t2, l := TimeOf(s.table, T2_VALUE), LeaseOf(s.table);
    var fs;
    if Due(s) <= 0 {
      Called(c, s);
      var run := RunState(false, s.xid);
      fs, t := RenewOverstays(c, Next(c, s, run));
      FairRunJoin(c, s, [run], Next(c, s, run), fs, t);
      es := [run] + fs;
    } else if Elapsed(s) + Due(s) > s.ackLease {
      es, t := WaitOverstays(c, s);
    } else {
      var z :| Elapsed(s) <= z <= Elapsed(s) + Due(s) && !RenewSafe(t2, l, z, s.ackLease);
      var gs, u := CallAndWait(c, s, z);
      fs, t := RenewOverstays(c, Next(c, u, SleepEndsEarly));
      es := StepAndJoin(c, s, gs, u, SleepEndsEarly, fs, t);
    }
  }

  /** From Bound, whatever the times and however long ago the ACK was sent for, no fair continuation
      outlives the lease if and only if the times are safe. */
  lemma BoundInTimeIff(c: Config, s: State)
    requires ValidState(s) && s.at == Call(Bound) && 0 <= Elapsed(s)
    requires LeaseOf(s.table) == 0 ==> FromBe32(c.nleaseTime) == 0
    ensures (forall es, t :: FairRun(c, s, es, t) ==> InTime(t)) <==>
            BoundSafe(TimeOf(s.table, T1_VALUE), TimeOf(s.table, T2_VALUE), LeaseOf(s.table), Elapsed(s), s.ackLease)
  {
    hide FairRun, InTime, BoundSafe, FromBe32;
    if BoundSafe(TimeOf(s.table, T1_VALUE), TimeOf(s.table, T2_VALUE), LeaseOf(s.table), Elapsed(s), s.ackLease) {
      assert Inv(c, s);
      forall es, t | FairRun(c, s, es, t) ensures InTime(t) {
        InvInTime(c, s, es, t);
      }
    } else {
      var es, t := Overstays(c, s);
      assert FairRun(c, s, es, t) && !InTime(t);
    }
  }

  /** How long the client stays in Bound: a T1 that does not fit an int counts as past. */
  function BoundFor(t1: int): int {
    if t1 < HALF then t1 else 0
  }

  lemma SafeAtOnceIff(t1: int, t2: int, l: int)
    requires 0 <= t1 < 2 * HALF && 0 <= t2 < 2 * HALF && 0 <= l < 2 * HALF
    ensures BoundSafe(t1, t2, l, 0, l) <==> BoundFor(t1) <= l && (t2 <= l || t2 - BoundFor(t1) >= HALF)
  {
    var r := BoundFor(t1);
    CutExact(t1);
    hide ToInt32, RenewSafe;
    if r <= l {
      forall z | 0 <= z <= r && (t2 <= l || t2 - r >= HALF) ensures RenewSafe(t2, l, z, l) {
        RenewUntil(t2, l, z);
      }
      RenewUntil(t2, l, r);
    }
  }

  /** Renew, called within the lease and within 2^31 seconds. */
  lemma RenewUntil(t2: int, l: int, y: int)
    requires 0 <= y < HALF && y <= l < 2 * HALF && 0 <= t2 < 2 * HALF
    ensures RenewSafe(t2, l, y, l) <==> t2 <= l || t2 - y >= HALF
  {
    CutExact(t2 - y);
    if t2 <= l {
      RenewWithin(t2, l, y);
    } else {
      RebindWithin(l, y);
    }
    hide RebindSafe;
  }

  /** Right after an ACK. */
  predicate JustBound(s: State) {
    ValidState(s) && s.at == Call(Bound) && s.now == s.reqSentTime && s.ackLease == LeaseOf(s.table)
  }

  /** Right after an ACK, for timers of every size, no fair continuation outlives the lease if and only
      if the wait for T1 and the wait for T2, so far as they take place, end within it. */
  lemma InTimeIff(c: Config, s: State)
    requires JustBound(s) && (s.ackLease == 0 ==> FromBe32(c.nleaseTime) == 0)
    ensures var t1, t2 := TimeOf(s.table, T1_VALUE), TimeOf(s.table, T2_VALUE);
      (forall es, t :: FairRun(c, s, es, t) ==> InTime(t)) <==>
      BoundFor(t1) <= s.ackLease && (t2 <= s.ackLease || t2 - BoundFor(t1) >= HALF)
  {
    hide FairRun, InTime, BoundSafe, FromBe32;
    BoundInTimeIff(c, s);
    SafeAtOnceIff(TimeOf(s.table, T1_VALUE), TimeOf(s.table, T2_VALUE), LeaseOf(s.table));
  }

  // ---------------------------------------------------------------- the timetable

  /** Nobody answers, nothing fails, and every sleep lasts. */
  predicate Quiet(es: seq<Event>) {
    forall i :: 0 <= i < |es| ==> es[i].Tick? || es[i].AlarmRings? || es[i].RunState?
  }

  /** Where a client with these times is when nobody has answered since the ACK. */
  predicate OnTime(s: State, t1: int, t2: int, l: int) {
    var y := Elapsed(s);
    && ValidState(s)
    && (UsesTimes(s.at) ==>
          TimeOf(s.table, 58) == t1 && TimeOf(s.table, 59) == t2 && TimeOf(s.table, 51) == l)
    && match s.at
       case Call(f) =>
         (match f
          case Bound => y == 0
          case Renew => y == t1
          case Rebind => y == t2
          case Reboot => false
          case _ => y >= l)
       case BoundWait => s.alarm == At(s.reqSentTime + t1) && 0 <= y <= t1
       case RenewWait => s.alarm == At(s.reqSentTime + t2) && t1 <= y <= t2
       case RebindWait => s.alarm == At(s.reqSentTime + l) && t2 <= y <= l
       case Discovering => y >= l
       case Exited => y >= l
       case _ => false
  }

  lemma OnTimeCalled(c: Config, s: State, e: Event, t1: int, t2: int, l: int)
    requires 0 < t1 < t2 < l < HALF && OnTime(s, t1, t2, l) && s.at.Call? && UsesTimes(s.at) && e.RunState?
    ensures OnTime(Next(c, s, e), t1, t2, l)
  {
    hide TimeOf, Left;
    LeftIs(s, TagOf(s.at.f));
    XidsLeft(s, e);
    CutExact(t1);
    CutExact(t2 - t1);
    CutExact(l - t2);
    assert ToInt32(t1) == t1 && ToInt32(t2 - t1) == t2 - t1 && ToInt32(l - t2) == l - t2;
    hide ToInt32;
  }

  lemma OnTimeKept(c: Config, s: State, e: Event, t1: int, t2: int, l: int)
    requires 0 < t1 < t2 < l < HALF && OnTime(s, t1, t2, l) && Enabled(c, s, e)
    requires e.Tick? || e.AlarmRings? || e.RunState?
    ensures OnTime(Next(c, s, e), t1, t2, l)
  {
    hide Left, TimeOf, ToInt32;
    if e.RunState? && UsesTimes(s.at) {
      OnTimeCalled(c, s, e, t1, t2, l);
    }
  }

  lemma {:induction false} AlwaysOnTime(c: Config, s: State, es: seq<Event>, t: State, t1: int, t2: int, l: int)
    requires 0 < t1 < t2 < l < HALF && OnTime(s, t1, t2, l) && FairRun(c, s, es, t) && Quiet(es)
    ensures OnTime(t, t1, t2, l)
    decreases |es|
  {
    hide OnTime, Next, Enabled, Fair, ValidState;
    if es != [] {
      assert forall i :: 0 <= i < |es| - 1 ==> es[1..][i] == es[i + 1];
      OnTimeKept(c, s, es[0], t1, t2, l);
      AlwaysOnTime(c, Next(c, s, es[0]), es[1..], t, t1, t2, l);
    }
  }

  /** A client that nobody answers keeps section 4.4.5 of RFC 2131 to the second: idle up to T1, asking
      its server from T1 to T2, asking everybody from T2 to the end of the lease, and without the
      lease from then on. */
  lemma Timetable(c: Config, s: State, es: seq<Event>, t: State)
    requires JustBound(s) && FairRun(c, s, es, t) && Quiet(es)
    requires 0 < TimeOf(s.table, 58) < TimeOf(s.table, 59) < TimeOf(s.table, 51) < HALF
    ensures var t1, t2, l, y := TimeOf(s.table, 58), TimeOf(s.table, 59), TimeOf(s.table, 51), t.now - s.now;
      && (y < t1 ==> t.at == Call(Bound) || t.at.BoundWait?)
      && (t1 < y < t2 ==> t.at.RenewWait?)
      && (t2 < y < l ==> t.at.RebindWait?)
      && (y > l ==> !Leased(t.at))
      && (t.at.RenewWait? ==> t1 <= y <= t2) && (t.at.RebindWait? ==> t2 <= y <= l)
  {
    var t1, t2, l := TimeOf(s.table, 58), TimeOf(s.table, 59), TimeOf(s.table, 51);
    hide FairRun, TimeOf;
    SentTimeKept(c, s, es, t);
    AlwaysOnTime(c, s, es, t, t1, t2, l);
  }

  /** Such runs there are, up to every second of the lease. */
  lemma QuietRun(c: Config, s: State, y: int) returns (es: seq<Event>, t: State)
    requires JustBound(s) && 0 < TimeOf(s.table, 58) < TimeOf(s.table, 59) < TimeOf(s.table, 51) < HALF
    requires 0 <= y <= TimeOf(s.table, 51)
    ensures FairRun(c, s, es, t) && Quiet(es) && t.now == s.now + y
  {
    var t1, t2, l := TimeOf(s.table, 58), TimeOf(s.table, 59), TimeOf(s.table, 51);
    CutExact(t1);
    CutExact(t2 - t1);
    CutExact(l - t2);
    assert ToInt32(t1) == t1 && ToInt32(t2 - t1) == t2 - t1 && ToInt32(l - t2) == l - t2;
    hide FairRun, TimeOf, ToInt32, Quiet;
    var u, fs, gs;
    if y <= t1 {
      es, t := QuietWait(c, s, y);
    } else {
      es, u := QuietWait(c, s, t1);
      es, u := QuietAlarm(c, s, es, u);
      if y <= t2 {
        fs, t := QuietWait(c, u, y);
        es := QuietJoin(c, s, es, u, fs, t);
      } else {
        fs, t := QuietWait(c, u, t2);
        es := QuietJoin(c, s, es, u, fs, t);
        es, u := QuietAlarm(c, s, es, t);
        gs, t := QuietWait(c, u, y);
        es := QuietJoin(c, s, es, u, gs, t);
      }
    }
  }

  lemma QuietWait(c: Config, s: State, w: int) returns (es: seq<Event>, t: State)
    requires ValidState(s) && s.at.Call? && Timed(s.at.f) && Due(s) > 0 && Elapsed(s) <= w <= Elapsed(s) + Due(s)
    ensures FairRun(c, s, es, t) && ValidState(t) && Quiet(es)
    ensures t == s.(at := WaitOf(s.at.f), now := s.reqSentTime + w, alarm := At(s.now + Due(s)))
  {
    hide FairRun, Due;
    es, t := CallAndWait(c, s, w);
  }

  lemma QuietAlarm(c: Config, s: State, es: seq<Event>, u: State) returns (fs: seq<Event>, t: State)
    requires FairRun(c, s, es, u) && Quiet(es) && ValidState(u) && Leased(u.at) && u.alarm == At(u.now)
    ensures FairRun(c, s, fs, t) && Quiet(fs) && ValidState(t)
    ensures t.at == Call(if u.at.BoundWait? then Renew else if u.at.RenewWait? then Rebind else Stop)
    ensures t == u.(alarm := Off, at := t.at)
  {
    NextValid(c, u, AlarmRings);
    t := Next(c, u, AlarmRings);
    FairStep(c, u, AlarmRings);
    hide FairRun;
    FairRunJoin(c, s, es, u, [AlarmRings], t);
    fs := es + [AlarmRings];
  }

  lemma QuietJoin(c: Config, s: State, es: seq<Event>, u: State, fs: seq<Event>, t: State) returns (gs: seq<Event>)
    requires FairRun(c, s, es, u) && FairRun(c, u, fs, t) && Quiet(es) && Quiet(fs)
    ensures FairRun(c, s, gs, t) && Quiet(gs)
  {
    hide FairRun;
    FairRunJoin(c, s, es, u, fs, t);
    gs := es + fs;
  }

  lemma {:induction false} SentTimeKept(c: Config, s: State, es: seq<Event>, t: State)
    requires FairRun(c, s, es, t) && Quiet(es)
    ensures t.reqSentTime == s.reqSentTime
    decreases |es|
  {
    if es != [] {
      assert forall i :: 0 <= i < |es| - 1 ==> es[1..][i] == es[i + 1];
      DataLaw(c, s, es[0]);
      hide Next, Enabled, Fair, ValidState;
      SentTimeKept(c, Next(c, s, es[0]), es[1..], t);
    }
  }

  // ---------------------------------------------------------------- a lease time without an ACK

  lemma RebindFromIff(l: int, y: int, a: int, limit: int)
    requires 0 <= y <= a <= limit && 0 <= l < 2 * HALF && limit < 2 * HALF
    ensures (forall z :: y <= z <= a ==> RebindSafe(l, z, limit)) <==>
            (l <= limit || l - a >= HALF) && a - l <= HALF
  {
    if a - l > HALF {
      assert ToInt32(l - a) == l - a + 2 * HALF;
      assert !RebindSafe(l, a, limit);
    } else {
      CutExact(l - a);
      forall z | y <= z <= a && (l <= limit || l - a >= HALF) ensures RebindSafe(l, z, limit) {
        CutExact(l - z);
      }
      if l > limit && l - a < HALF {
        assert !RebindSafe(l, a, limit);
      }
    }
  }

  /** A reply that is neither ACK nor NAK stores its lease time all the same. In Renew it then decides
      how long Rebind waits: no fair continuation outlives the lease of the last ACK if and only if
      the new time ends within that lease, or overflows the int that Rebind computes. */
  lemma StrayLeaseIff(c: Config, s: State, e: Event)
    requires Inv(c, s) && s.at.RenewWait? && Enabled(c, s, e) && Addressed(s, e)
    requires var reported := TypeOf(Parsed(s.table, e.m)); reported != DHCP_ACK && reported != DHCP_NAK
    ensures var l, a := LeaseAfter(s.table, e.m), AlarmAfter(s);
      (forall es, t :: FairRun(c, Next(c, s, e), es, t) ==> InTime(t)) <==>
      (l <= s.ackLease || l - a >= HALF) && a - l <= HALF
  {
    hide FairRun, InTime, FromBe32, Parsed, RebindSafe, RenewSafe, ToInt32, Last;
    TimersNeverStale(s.table, e.m);
    LeaseKept(s.table, e.m);
    NextValid(c, s, e);
    var n := Next(c, s, e);
    var l := LeaseAfter(s.table, e.m);
    assert n == s.(table := Parsed(s.table, e.m)) && LeaseOf(n.table) == l;
    RebindFromIff(l, Elapsed(s), AlarmAfter(s), s.ackLease);
    if z :| Elapsed(s) <= z <= AlarmAfter(s) && !RebindSafe(l, z, s.ackLease) {
      var es, t := RenewWaitOverstays(c, n, z);
      assert FairRun(c, n, es, t) && !InTime(t);
    } else {
      assert Inv(c, n);
      forall es, t | FairRun(c, n, es, t) ensures InTime(t) {
        InvInTime(c, n, es, t);
      }
    }
  }

  // ---------------------------------------------------------------- both failures from program start

  lemma {:induction false} RunSnoc(c: Config, s: State, es: seq<Event>, u: State, e: Event)
    requires Run(c, s, es, u) && ValidState(u) && Enabled(c, u, e)
    ensures Run(c, s, es + [e], Next(c, u, e))
    decreases |es|
  {
    hide Next, Enabled, ValidState;
    if es == [] {
      assert es + [e] == [e] && [e][1..] == [];
    } else {
      assert (es + [e])[0] == es[0] && (es + [e])[1..] == es[1..] + [e];
      RunSnoc(c, Next(c, s, es[0]), es[1..], u, e);
    }
  }

  lemma {:induction false} RunJoin(c: Config, s: State, es: seq<Event>, u: State, fs: seq<Event>, t: State)
    requires Run(c, s, es, u) && FairRun(c, u, fs, t)
    ensures Run(c, s, es + fs, t)
    decreases |fs|
  {
    hide Next, Enabled, Fair, ValidState;
    if fs == [] {
      assert es + fs == es;
    } else {
      assert es + fs == (es + [fs[0]]) + fs[1..];
      RunSnoc(c, s, es, u, fs[0]);
      RunJoin(c, s, es + [fs[0]], Next(c, u, fs[0]), fs[1..], t);
    }
  }

  /** A reply that carries just these options. */
  function Plain(c: Config, items: seq<Item>): (m: Reply) {
    Reply(items, NO_QUAD, NO_QUAD, NO_QUAD, c.nleaseTime, NO_QUAD)
  }

  const NO_QUAD: Quad := [0, 0, 0, 0]

  /** From program start to Requesting: the reboot finds no cache, a server offers. */
  lemma ReachRequesting(c: Config, s0: State) returns (es: seq<Event>, t: State)
    requires Initial(c, s0)
    ensures Run(c, s0, es, t) && ValidState(t)
    ensures t.at == Requesting(Init) && !t.daemon && t.now == s0.now
  {
    hide Parsed, Left, LeaseAfter, ToInt32;
    var run := RunState(false, 0);
    var offer := Plain(c, [Opt(MESSAGE_TYPE, [DHCP_OFFER])]);
    var receive := Receive(0, DHCP_BOOTREPLY, true, offer);
    var a := Next(c, s0, run);
    var b := Next(c, a, run);
    assert Last(offer.items, MESSAGE_TYPE) == [DHCP_OFFER];
    ReportedType(b.table, offer);
    t := Next(c, b, receive);
    NextValid(c, b, receive);
    assert Run(c, s0, [], s0);
    hide Run, Next;
    RunSnoc(c, s0, [], s0, run);
    RunSnoc(c, s0, [run], a, run);
    RunSnoc(c, s0, [run] + [run], b, receive);
    es := [run] + [run] + [receive];
  }

  /** From program start to Bound, by any ACK. */
  lemma ReachBound(c: Config, s0: State, m: Reply) returns (es: seq<Event>, o: Options, t: State)
    requires Initial(c, s0) && ValidItems(m.items) && m.nleaseTime == c.nleaseTime && OwnType(m, DHCP_ACK)
    ensures Run(c, s0, es, t) && ValidState(t) && ValidOptions(o)
    ensures t.at == Call(Bound) && t.table == Parsed(o, m) && TypeOf(t.table) == DHCP_ACK
    ensures t.now == t.reqSentTime && t.ackLease == LeaseOf(t.table)
  {
    hide Run, Parsed, Left, LeaseAfter, ToInt32;
    var fs, u := ReachRequesting(c, s0);
    o := u.table;
    var receive := Receive(u.xid, DHCP_BOOTREPLY, true, m);
    ReportedType(o, m);
    NextValid(c, u, receive);
    var v := Next(c, u, receive);
    NextValid(c, v, Configured);
    t := Next(c, v, Configured);
    RunSnoc(c, s0, fs, u, receive);
    RunSnoc(c, s0, fs + [receive], v, Configured);
    es := fs + [receive] + [Configured];
  }

  /** An ACK with a lease of one second and T1 of two makes the client outlive its lease. */
  lemma OverstaysFromStart(c: Config, s0: State) returns (es: seq<Event>, t: State)
    requires Initial(c, s0)
    ensures Run(c, s0, es, t) && !InTime(t)
  {
    hide Run, FairRun, Parsed, InTime;
    var m := Plain(c, [Opt(MESSAGE_TYPE, [DHCP_ACK]), Opt(LEASE_TIME, [0, 0, 0, 1]), Opt(T1_VALUE, [0, 0, 0, 2])]);
    ThreeItems(m, 1, 2);
    var fs, o, u := ReachBound(c, s0, m);
    TimersNeverStale(o, m);
    var gs;
    gs, t := Overstays(c, u);
    RunJoin(c, s0, fs, u, gs, t);
    es := fs + gs;
  }

  lemma SmallTime(x: byte)
    requires x > 0
    ensures var v: seq<byte> := [0, 0, 0, x]; |v| == 4 && !IsZero(v) && FromBe32(v) == x
  {
    var v: seq<byte> := [0, 0, 0, x];
    FourBytes(v);
    assert v[3] == x;
  }

  lemma LastOfThree(a: Item, b: Item, c: Item, tag: byte)
    requires a.Opt? && b.Opt? && c.Opt? && a.value != [] && b.value != [] && c.value != []
    ensures Last([a, b, c], tag) ==
      if c.tag == tag then c.value else if b.tag == tag then b.value else if a.tag == tag then a.value else []
  {
    assert [a, b, c][1..] == [b, c] && [b, c][1..] == [c] && [c][1..] == [];
    assert Last([c], tag) == if c.tag == tag then c.value else [];
    assert Last([b, c], tag) == if c.tag == tag then c.value else if b.tag == tag then b.value else [];
  }

  lemma ThreeItems(m: Reply, lease: byte, t1: byte)
    requires m.items == [Opt(MESSAGE_TYPE, [DHCP_ACK]), Opt(LEASE_TIME, [0, 0, 0, lease]), Opt(T1_VALUE, [0, 0, 0, t1])]
    requires lease > 0 && t1 > 0
    ensures ValidItems(m.items) && OwnType(m, DHCP_ACK)
    ensures Last(m.items, LEASE_TIME) == [0, 0, 0, lease] && Last(m.items, T1_VALUE) == [0, 0, 0, t1]
    ensures Last(m.items, T2_VALUE) == []
    ensures forall o :: LeaseAfter(o, m) == lease
    ensures TimerAfter(m.items, T1_VALUE, lease / 2) == t1
    ensures TimerAfter(m.items, T2_VALUE, 7 * lease / 8) == 7 * lease / 8
  {
    var a, b, c := Opt(MESSAGE_TYPE, [DHCP_ACK]), Opt(LEASE_TIME, [0, 0, 0, lease]), Opt(T1_VALUE, [0, 0, 0, t1]);
    assert m.items == [a, b, c];
    LastOfThree(a, b, c, MESSAGE_TYPE);
    LastOfThree(a, b, c, LEASE_TIME);
    LastOfThree(a, b, c, T1_VALUE);
    LastOfThree(a, b, c, T2_VALUE);
    SmallTime(lease);
    SmallTime(t1);
    hide Last, IsZero, FromBe32;
  }

  /** A client in Renew whose lease is renewed by a reply that carries no option at all. */
  lemma RenewedWithoutType(c: Config, s0: State) returns (es: seq<Event>, s: State, e: Event)
    requires Initial(c, s0)
    ensures Run(c, s0, es, s) && ValidState(s) && Enabled(c, s, e)
    ensures s.at.RenewWait? && e.Receive? && e.m.items == [] && Next(c, s, e).at == Call(Bound)
  {
    hide Run, FairRun, Parsed;
    var m := Plain(c, [Opt(MESSAGE_TYPE, [DHCP_ACK]), Opt(LEASE_TIME, [0, 0, 0, 8]), Opt(T1_VALUE, [0, 0, 0, 4])]);
    ThreeItems(m, 8, 4);
    var fs, o, u := ReachBound(c, s0, m);
    TimersNeverStale(o, m);
    assert Due(u) == 4;
    var gs, w := CallAndWait(c, u, 0);
    var v := Next(c, w, SleepEndsEarly);
    RunJoin(c, s0, fs, u, gs, w);
    RunSnoc(c, s0, fs + gs, w, SleepEndsEarly);
    NextValid(c, w, SleepEndsEarly);
    assert Due(v) == 7;
    Called(c, v);
    var run := RunState(false, v.xid);
    s := Next(c, v, run);
    NextValid(c, v, run);
    RunSnoc(c, s0, fs + gs + [SleepEndsEarly], v, run);
    es := fs + gs + [SleepEndsEarly] + [run];
    e := Receive(s.xid, DHCP_BOOTREPLY, true, Plain(c, []));
    RenewedIff(c, s, e);
  }
}

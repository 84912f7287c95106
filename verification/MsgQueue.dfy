/** The request/reply protocol of interface/src/sys_msg_drv.c: threads of many processes call one
    server through a single message queue and a single shared segment, each process under its own
    mutex. Every interleaving of the steps of the calls and of the server is covered. */
module MsgQueue {
  import opened Bytes

  const SERVER := 1
  /** PROC_MEM_SIZE and MAX_SHARE_PROC */
  const SLOT := 12288
  const SEGMENT := SLOT * 9

  /** (gSysProcId - MSG_TYPE_MSG1 - 1) * PROC_MEM_SIZE */
  function Base(id: int): int {
    (id - 1 - 1) * SLOT
  }

  /** The ids SysDrvInit lets through. */
  predicate Accepted(id: int) {
    1 <= id < 14
  }

  lemma SlotInsideIff(id: int)
    ensures 0 <= Base(id) && Base(id) + SLOT <= SEGMENT <==> 2 <= id <= 10
    ensures Accepted(id) && !(2 <= id <= 10) <==> id in {1, 11, 12, 13}
  {
  }

  lemma SlotsDisjoint(a: int, b: int)
    requires a != b
    ensures Base(a) + SLOT <= Base(b) || Base(b) + SLOT <= Base(a)
  {
  }

  // ----- calls and messages -----

  /** SetSysCommon, GetSysUserAuthority and GetDhcpEn. */
  datatype Call = Set(cmd: int, data: seq<byte>) | Exchange(data: seq<byte>) | Get(len: nat)

  const GET_USER_AUTHORITY := 264
  const GET_DHCP_EN := 0

  /** Which call of which thread. */
  datatype Tag = Tag(thread: nat, serial: nat)

  /** SYS_MSG_BUF. `data` and `tag` are history: the shared bytes the sender left for the
      receiver, and the call the message belongs to. */
  datatype Msg = Msg(des: int, src: int, cmd: int, length: int, offset: int, data: seq<byte>, tag: Tag)

  function DataOf(c: Call): seq<byte> {
    match c
    case Set(_, data) => data
    case Exchange(data) => data
    case Get(_) => []
  }

  /** The command a call sends. */
  function CmdOf(c: Call): int {
    match c
    case Set(cmd, _) => cmd
    case Exchange(_) => GET_USER_AUTHORITY
    case Get(_) => GET_DHCP_EN
  }

  function Request(id: int, c: Call, tag: Tag): (m: Msg)
    ensures m.tag == tag && m.des == SERVER && m.src == id && m.cmd == CmdOf(c)
  {
    match c
    case Set(cmd, data) => Msg(SERVER, id, cmd, |data|, Base(id), data, tag)
    case Exchange(data) => Msg(SERVER, id, GET_USER_AUTHORITY, |data|, Base(id), data, tag)
    case Get(_) => Msg(SERVER, id, GET_DHCP_EN, 0, 0, [], tag)
  }

  // ----- processes, threads and state -----

  /** Which process a thread runs in, and the id its process passed to SysDrvInit. */
  datatype Config = Config(proc: map<nat, nat>, id: map<nat, int>)

  predicate Proper(cfg: Config) {
    forall t :: t in cfg.proc ==> cfg.proc[t] in cfg.id && 2 <= cfg.id[cfg.proc[t]] <= 10
  }

  predicate DistinctIds(cfg: Config) {
    forall t, u :: t in cfg.proc && u in cfg.proc && cfg.proc[t] in cfg.id && cfg.proc[u] in cfg.id ==>
      (cfg.id[cfg.proc[t]] == cfg.id[cfg.proc[u]] ==> cfg.proc[t] == cfg.proc[u])
  }

  function Id(cfg: Config, t: nat): (id: int)
    requires Proper(cfg) && t in cfg.proc
    ensures 2 <= id <= 10
  {
    cfg.id[cfg.proc[t]]
  }

  /** Where a thread stands in its call. */
  datatype Phase = Idle | Wanting(call: Call) | Locked(call: Call) | Written(call: Call) |
    Waiting(call: Call) | Got(call: Call, reply: Msg)

  predicate Inside(p: Phase) {
    p.Locked? || p.Written? || p.Waiting? || p.Got?
  }

  datatype Done = Done(tag: Tag, call: Call, reply: Msg, ret: int, bytes: seq<byte>)

  datatype State = State(
    phase: map<nat, Phase>,
    serial: map<nat, nat>,
    holder: map<nat, nat>,
    queue: seq<Msg>,
    serving: seq<Msg>,
    mem: seq<byte>,
    log: seq<Done>)

  predicate Started(cfg: Config, s: State) {
    && s.phase.Keys == cfg.proc.Keys && s.serial.Keys == cfg.proc.Keys
    && (forall t :: t in s.phase ==> s.phase[t] == Idle)
    && s.holder == map[] && s.queue == [] && s.serving == [] && s.log == []
    && |s.mem| == SEGMENT
  }

  datatype Step =
    | Begin(t: nat, call: Call)
    | Acquire(t: nat)
    | Write(t: nat)
    | Send(t: nat)
    | Take(i: nat)
    | Answer(i: nat, length: int, offset: nat, data: seq<byte>)
    | Receive(t: nat, i: nat)
    | Finish(t: nat)

  /** The server answers into the slot of the request's sender, `length` bytes if not an error. */
  predicate SoundAnswer(m: Msg, length: int, offset: nat, data: seq<byte>) {
    && offset + |data| <= SEGMENT
    && (data != [] ==> Base(m.src) <= offset && offset + |data| <= Base(m.src) + SLOT)
    && (length >= 0 ==> |data| == length)
  }

  predicate Enabled(cfg: Config, s: State, e: Step)
    requires Proper(cfg)
  {
    match e
    case Begin(t, call) => t in s.phase && t in s.serial && s.phase[t] == Idle
    case Acquire(t) => t in s.phase && t in cfg.proc && s.phase[t].Wanting? && cfg.proc[t] !in s.holder
    case Write(t) =>
      t in s.phase && t in cfg.proc && s.phase[t].Locked? && |s.mem| == SEGMENT
    case Send(t) => t in s.phase && t in cfg.proc && t in s.serial && s.phase[t].Written?
    case Take(i) => i < |s.queue| && s.queue[i].des == SERVER
    case Answer(i, length, offset, data) =>
      i < |s.serving| && |s.mem| == SEGMENT && SoundAnswer(s.serving[i], length, offset, data)
    case Receive(t, i) =>
      t in s.phase && t in cfg.proc && s.phase[t].Waiting? && i < |s.queue| && s.queue[i].des == Id(cfg, t)
    case Finish(t) =>
      t in s.phase && t in cfg.proc && t in s.serial && s.phase[t].Got? && |s.mem| == SEGMENT &&
      0 <= s.phase[t].reply.offset && s.phase[t].reply.offset + s.phase[t].reply.length <= SEGMENT
  }

  function Without(q: seq<Msg>, i: nat): seq<Msg>
    requires i < |q|
  {
    q[..i] + q[i + 1..]
  }

  function Reply(m: Msg, length: int, offset: nat, data: seq<byte>): Msg {
    Msg(m.src, SERVER, m.cmd, length, offset, data, m.tag)
  }

  function Read(mem: seq<byte>, offset: int, length: int): seq<byte>
    requires 0 <= offset && offset + length <= |mem|
  {
    if length <= 0 then [] else mem[offset..offset + length]
  }

  /** What a call returns and what it copied out of the segment. */
  function Outcome(tag: Tag, c: Call, m: Msg, mem: seq<byte>): Done
    requires 0 <= m.offset && m.offset + m.length <= |mem|
  {
    match c
    case Set(_, _) => Done(tag, c, m, m.length, [])
    case Exchange(data) =>
      if m.length == |data| then Done(tag, c, m, 0, Read(mem, m.offset, m.length)) else Done(tag, c, m, -1, [])
    case Get(len) =>
      if m.length == len then Done(tag, c, m, 0, Read(mem, m.offset, m.length)) else Done(tag, c, m, -1, [])
  }

  function Next(cfg: Config, s: State, e: Step): State
    requires Proper(cfg) && Enabled(cfg, s, e)
  {
    match e
    case Begin(t, call) => s.(phase := s.phase[t := Wanting(call)], serial := s.serial[t := s.serial[t] + 1])
    case Acquire(t) => s.(phase := s.phase[t := Locked(s.phase[t].call)], holder := s.holder[cfg.proc[t] := t])
    case Write(t) =>
      var c := s.phase[t].call;
      s.(phase := s.phase[t := Written(c)],
         mem := if c.Get? then s.mem else SlotWrite(cfg, s, t))
    case Send(t) =>
      var c := s.phase[t].call;
      s.(phase := s.phase[t := Waiting(c)], queue := s.queue + [Request(Id(cfg, t), c, Tag(t, s.serial[t]))])
    case Take(i) => s.(queue := Without(s.queue, i), serving := s.serving + [s.queue[i]])
    case Answer(i, length, offset, data) =>
      s.(serving := Without(s.serving, i), mem := Splice(s.mem, offset, data),
         queue := s.queue + [Reply(s.serving[i], length, offset, data)])
    case Receive(t, i) =>
      s.(phase := s.phase[t := Got(s.phase[t].call, s.queue[i])], queue := Without(s.queue, i))
    case Finish(t) =>
      s.(phase := s.phase[t := Idle], holder := s.holder - {cfg.proc[t]},
         log := s.log + [Outcome(Tag(t, s.serial[t]), s.phase[t].call, s.phase[t].reply, s.mem)])
  }

  function SlotWrite(cfg: Config, s: State, t: nat): seq<byte>
    requires Proper(cfg) && Enabled(cfg, s, Write(t))
  {
    var base := Base(Id(cfg, t));
    assert 0 <= base <= SEGMENT;
    Splice(s.mem, base, Clip(DataOf(s.phase[t].call), SEGMENT - base))
  }

  /** What of the data lands in the segment; the rest is written behind it and not followed here. */
  function Clip(data: seq<byte>, room: nat): (r: seq<byte>)
    ensures |r| <= room && (|data| <= room ==> r == data)
  {
    if |data| <= room then data else data[..room]
  }

  /** A call brings at most max bytes. Nothing in the calls checks that they fit the slot. */
  predicate Fits(e: Step, max: nat) {
    e.Begin? ==> |DataOf(e.call)| <= max
  }

  predicate Fitting(steps: seq<Step>, max: nat) {
    forall i :: 0 <= i < |steps| ==> Fits(steps[i], max)
  }

  // ----- the invariant: what messages do in every run, what memory does if all calls fit -----

  /** How many of these messages belong to thread t. */
  function Count(q: seq<Msg>, t: nat): nat {
    if q == [] then 0 else Count(q[1..], t) + (if q[0].tag.thread == t then 1 else 0)
  }

  /** The bytes a message speaks for lie in the slot of id and are still there. */
  predicate Intact(mem: seq<byte>, id: int, m: Msg) {
    && 0 <= m.offset && m.offset + |m.data| <= |mem|
    && (m.data != [] ==> Base(id) <= m.offset && m.offset + |m.data| <= Base(id) + SLOT)
    && mem[m.offset..m.offset + |m.data|] == m.data
  }

  predicate SoundReply(id: int, c: Call, m: Msg) {
    m.des == id && m.src == SERVER && m.cmd == CmdOf(c) && (m.length >= 0 ==> |m.data| == m.length)
  }

  /** The request of a waiting call, or its answer. */
  predicate MsgOk(fit: bool, mem: seq<byte>, id: int, serial: nat, c: Call, m: Msg) {
    && m.tag.serial == serial
    && (m == Request(id, c, m.tag) || SoundReply(id, c, m))
    && (fit ==> Intact(mem, id, m))
  }

  /** A message in the queue or in service belongs to a waiting thread's current call. */
  predicate Owned(fit: bool, cfg: Config, s: State, m: Msg)
    requires Proper(cfg)
  {
    var t := m.tag.thread;
    && t in s.phase && t in cfg.proc && t in s.serial && s.phase[t].Waiting?
    && MsgOk(fit, s.mem, Id(cfg, t), s.serial[t], s.phase[t].call, m)
  }

  /** What a thread relies on in each phase of its call. */
  predicate PhaseOk(fit: bool, mem: seq<byte>, id: int, tag: Tag, p: Phase) {
    match p
    case Idle => true
    case Wanting(c) => fit ==> |DataOf(c)| <= SLOT
    case Locked(c) => fit ==> |DataOf(c)| <= SLOT
    case Written(c) => fit ==> |DataOf(c)| <= SLOT && Intact(mem, id, Request(id, c, tag))
    case Waiting(c) => fit ==> |DataOf(c)| <= SLOT
    case Got(c, m) => m.tag == tag && SoundReply(id, c, m) && (fit ==> Intact(mem, id, m))
  }

  /** A thread is inside its call exactly while it holds the mutex of its process, and has one
      message in flight exactly while it waits. */
  predicate ThreadOk(fit: bool, cfg: Config, s: State, t: nat)
    requires Proper(cfg)
  {
    && t in s.phase && t in cfg.proc && t in s.serial
    && (Inside(s.phase[t]) <==> cfg.proc[t] in s.holder && s.holder[cfg.proc[t]] == t)
    && PhaseOk(fit, s.mem, Id(cfg, t), Tag(t, s.serial[t]), s.phase[t])
    && Count(s.queue, t) + Count(s.serving, t) == if s.phase[t].Waiting? then 1 else 0
  }

  /** A finished call got the answer to its own request and copied what the server had written for it. */
  predicate OwnAnswer(d: Done) {
    && d.reply.tag == d.tag
    && d == match d.call
      case Set(_, _) => Done(d.tag, d.call, d.reply, d.reply.length, [])
      case Exchange(data) =>
        if d.reply.length == |data| then Done(d.tag, d.call, d.reply, 0, d.reply.data)
        else Done(d.tag, d.call, d.reply, -1, [])
      case Get(len) =>
        if d.reply.length == len then Done(d.tag, d.call, d.reply, 0, d.reply.data)
        else Done(d.tag, d.call, d.reply, -1, [])
  }

  /** It got the reply to its own request, under the command it sent, and returned its length, or for
      the calls that read whether that is the length asked for. */
  predicate OwnReply(d: Done) {
    && d.reply.tag == d.tag && d.reply.cmd == CmdOf(d.call) && d.reply.src == SERVER
    && d.ret == match d.call
       case Set(_, _) => d.reply.length
       case Exchange(data) => if d.reply.length == |data| then 0 else -1
       case Get(len) => if d.reply.length == len then 0 else -1
  }

  ghost predicate Inv(fit: bool, cfg: Config, s: State)
    requires Proper(cfg)
  {
    && |s.mem| == SEGMENT
    && (forall t :: t in s.phase || t in cfg.proc || t in s.serial ==> ThreadOk(fit, cfg, s, t))
    && (forall m :: m in s.queue ==> Owned(fit, cfg, s, m))
    && (forall m :: m in s.serving ==> Owned(fit, cfg, s, m) && m.des == SERVER)
    && (forall d :: d in s.log ==> OwnReply(d) && (fit ==> OwnAnswer(d)))
  }

  // ----- bookkeeping -----

  lemma {:induction false} CountAppend(q: seq<Msg>, m: Msg, t: nat)
    ensures Count(q + [m], t) == Count(q, t) + (if m.tag.thread == t then 1 else 0)
    decreases q
  {
    if q == [] {
      assert q + [m] == [m];
    } else {
      assert (q + [m])[0] == q[0] && (q + [m])[1..] == q[1..] + [m];
      CountAppend(q[1..], m, t);
    }
  }

  lemma {:induction false} CountWithout(q: seq<Msg>, i: nat, t: nat)
    requires i < |q|
    ensures Count(q, t) == Count(Without(q, i), t) + (if q[i].tag.thread == t then 1 else 0)
    decreases q
  {
    if i == 0 {
      assert Without(q, 0) == q[1..];
    } else {
      CountWithout(q[1..], i - 1, t);
      assert Without(q, i)[0] == q[0] && Without(q, i)[1..] == Without(q[1..], i - 1);
    }
  }

  lemma {:induction false} CountMember(q: seq<Msg>, m: Msg)
    requires m in q
    ensures Count(q, m.tag.thread) >= 1
    decreases q
  {
    if q[0] != m {
      CountMember(q[1..], m);
    }
  }

  lemma DifferentIds(fit: bool, cfg: Config, s: State, t: nat, u: nat)
    requires Proper(cfg) && DistinctIds(cfg) && ThreadOk(fit, cfg, s, t) && ThreadOk(fit, cfg, s, u) && t != u
    requires Inside(s.phase[t]) && Inside(s.phase[u])
    ensures Id(cfg, t) != Id(cfg, u)
  {
    hide Count, PhaseOk;
  }

  /** A write into one slot leaves what another id's message speaks for. */
  lemma OtherIntact(mem: seq<byte>, offset: nat, data: seq<byte>, writer: int, id: int, m: Msg)
    requires offset + |data| <= |mem| && writer != id && Intact(mem, id, m)
    requires data != [] ==> Base(writer) <= offset && offset + |data| <= Base(writer) + SLOT
    ensures Intact(Splice(mem, offset, data), id, m)
  {
    SlotsDisjoint(writer, id);
    var now := Splice(mem, offset, data);
    if data == [] {
      assert now == mem;
    } else if m.data == [] {
      assert now[m.offset..m.offset] == [];
    } else {
      SliceOut(mem, offset, data, m.offset, m.offset + |m.data|);
    }
  }

  /** What is written is intact. */
  lemma OwnIntact(mem: seq<byte>, offset: nat, id: int, m: Msg)
    requires offset + |m.data| <= |mem| && m.offset == offset
    requires m.data != [] ==> Base(id) <= offset && offset + |m.data| <= Base(id) + SLOT
    ensures Intact(Splice(mem, offset, m.data), id, m)
  {
    SliceIn(mem, offset, m.data, 0, |m.data|);
  }

  /** Only memory matters once the phase is the same, and memory that keeps what id's messages
      speak for keeps what its thread relies on. */
  lemma PhaseFrame(fit: bool, mem: seq<byte>, now: seq<byte>, id: int, tag: Tag, p: Phase)
    requires PhaseOk(fit, mem, id, tag, p)
    requires fit && Inside(p) ==> forall o :: Intact(mem, id, o) ==> Intact(now, id, o)
    ensures PhaseOk(fit, now, id, tag, p)
  {
    hide Intact, Request;
  }

  lemma MsgFrame(fit: bool, mem: seq<byte>, now: seq<byte>, id: int, serial: nat, c: Call, m: Msg)
    requires MsgOk(fit, mem, id, serial, c, m)
    requires fit ==> Intact(mem, id, m) ==> Intact(now, id, m)
    ensures MsgOk(fit, now, id, serial, c, m)
  {
    hide Intact, Request;
  }

  lemma AtThread(fit: bool, cfg: Config, s: State, t: nat)
    requires Proper(cfg) && Inv(fit, cfg, s) && (t in s.phase || t in cfg.proc || t in s.serial)
    ensures ThreadOk(fit, cfg, s, t)
  {
    hide ThreadOk, Owned, OwnAnswer;
  }

  lemma AtMsg(fit: bool, cfg: Config, s: State, m: Msg)
    requires Proper(cfg) && Inv(fit, cfg, s) && (m in s.queue || m in s.serving)
    ensures Owned(fit, cfg, s, m) && (m in s.serving ==> m.des == SERVER)
    ensures ThreadOk(fit, cfg, s, m.tag.thread)
  {
    hide ThreadOk, OwnAnswer, MsgOk;
  }

  lemma NoMessage(s: State, t: nat, m: Msg)
    requires Count(s.queue, t) + Count(s.serving, t) == 0 && (m in s.queue || m in s.serving)
    ensures m.tag.thread != t
  {
    if m in s.queue {
      CountMember(s.queue, m);
    } else {
      CountMember(s.serving, m);
    }
  }

  // ----- memory -----

  /** Memory after a write into the slot of thread t's id, seen from another thread inside. */
  lemma OthersIntact(fit: bool, cfg: Config, s: State, t: nat, offset: nat, data: seq<byte>, u: nat, o: Msg)
    requires Proper(cfg) && DistinctIds(cfg) && ThreadOk(fit, cfg, s, t) && ThreadOk(fit, cfg, s, u)
    requires Inside(s.phase[t]) && Inside(s.phase[u]) && u != t && offset + |data| <= |s.mem|
    requires data != [] ==> Base(Id(cfg, t)) <= offset && offset + |data| <= Base(Id(cfg, t)) + SLOT
    ensures Intact(s.mem, Id(cfg, u), o) ==> Intact(Splice(s.mem, offset, data), Id(cfg, u), o)
  {
    hide Intact, Splice, Count, PhaseOk;
    DifferentIds(fit, cfg, s, t, u);
    if Intact(s.mem, Id(cfg, u), o) {
      OtherIntact(s.mem, offset, data, Id(cfg, t), Id(cfg, u), o);
    }
  }

  lemma OtherThreadKept(fit: bool, cfg: Config, s: State, t: nat, offset: nat, data: seq<byte>, u: nat)
    requires Proper(cfg) && DistinctIds(cfg) && ThreadOk(fit, cfg, s, t) && ThreadOk(fit, cfg, s, u)
    requires Inside(s.phase[t]) && u != t && offset + |data| <= |s.mem|
    requires fit && data != [] ==> Base(Id(cfg, t)) <= offset && offset + |data| <= Base(Id(cfg, t)) + SLOT
    ensures PhaseOk(fit, Splice(s.mem, offset, data), Id(cfg, u), Tag(u, s.serial[u]), s.phase[u])
  {
    hide Intact, Splice, PhaseOk, Count;
    var now := Splice(s.mem, offset, data);
    if fit && Inside(s.phase[u]) {
      forall o | Intact(s.mem, Id(cfg, u), o) ensures Intact(now, Id(cfg, u), o) {
        OthersIntact(fit, cfg, s, t, offset, data, u, o);
      }
    }
    PhaseFrame(fit, s.mem, now, Id(cfg, u), Tag(u, s.serial[u]), s.phase[u]);
  }

  lemma OtherMsgKept(fit: bool, cfg: Config, s: State, t: nat, offset: nat, data: seq<byte>, m: Msg)
    requires Proper(cfg) && DistinctIds(cfg) && ThreadOk(fit, cfg, s, t) && ThreadOk(fit, cfg, s, m.tag.thread)
    requires Owned(fit, cfg, s, m)
    requires Inside(s.phase[t]) && m.tag.thread != t && offset + |data| <= |s.mem|
    requires fit && data != [] ==> Base(Id(cfg, t)) <= offset && offset + |data| <= Base(Id(cfg, t)) + SLOT
    ensures var u := m.tag.thread;
      MsgOk(fit, Splice(s.mem, offset, data), Id(cfg, u), s.serial[u], s.phase[u].call, m)
  {
    hide Intact, Splice, MsgOk, Count, PhaseOk;
    var u := m.tag.thread;
    if fit {
      OthersIntact(fit, cfg, s, t, offset, data, u, m);
    }
    MsgFrame(fit, s.mem, Splice(s.mem, offset, data), Id(cfg, u), s.serial[u], s.phase[u].call, m);
  }

  /** What the write of a call leaves for its own thread. */
  lemma WrittenOk(fit: bool, cfg: Config, s: State, t: nat)
    requires Proper(cfg) && ThreadOk(fit, cfg, s, t) && Enabled(cfg, s, Write(t))
    ensures var n := Next(cfg, s, Write(t));
      PhaseOk(fit, n.mem, Id(cfg, t), Tag(t, s.serial[t]), n.phase[t])
  {
    hide Count, Splice;
    var n := Next(cfg, s, Write(t));
    var c, id, tag := s.phase[t].call, Id(cfg, t), Tag(t, s.serial[t]);
    if c.Get? {
      assert n.mem[0..0] == [];
    } else {
      if fit {
        OwnIntact(s.mem, Base(id), id, Request(id, c, tag));
      }
    }
  }

  /** A request in service carries the id of the thread that waits for it. */
  lemma ServedSource(fit: bool, cfg: Config, s: State, i: nat)
    requires Proper(cfg) && Inv(fit, cfg, s) && i < |s.serving|
    ensures ThreadOk(fit, cfg, s, s.serving[i].tag.thread)
    ensures Owned(fit, cfg, s, s.serving[i]) && s.serving[i].src == Id(cfg, s.serving[i].tag.thread)
  {
    hide Inv, Count, Intact, ThreadOk;
    AtMsg(fit, cfg, s, s.serving[i]);
  }

  lemma AnswerOk(fit: bool, cfg: Config, s: State, i: nat, length: int, offset: nat, data: seq<byte>)
    requires Proper(cfg) && Inv(fit, cfg, s) && Enabled(cfg, s, Answer(i, length, offset, data))
    ensures var q := s.serving[i]; var t := q.tag.thread;
      ThreadOk(fit, cfg, s, t) && Owned(fit, cfg, s, q) &&
      MsgOk(fit, Splice(s.mem, offset, data), Id(cfg, t), s.serial[t], s.phase[t].call, Reply(q, length, offset, data))
  {
    hide Inv, Splice, Request, ThreadOk;
    ServedSource(fit, cfg, s, i);
    var q := s.serving[i];
    OwnIntact(s.mem, offset, Id(cfg, q.tag.thread), Reply(q, length, offset, data));
    hide Intact;
  }

  /** msgrcv by id finds the caller's own answer. */
  lemma OwnReceived(fit: bool, cfg: Config, s: State, t: nat, i: nat)
    requires Proper(cfg) && DistinctIds(cfg) && Inv(fit, cfg, s) && Enabled(cfg, s, Receive(t, i))
    ensures s.queue[i].tag == Tag(t, s.serial[t]) && SoundReply(Id(cfg, t), s.phase[t].call, s.queue[i])
    ensures fit ==> Intact(s.mem, Id(cfg, t), s.queue[i])
  {
    hide Inv, Intact, ThreadOk;
    var m := s.queue[i];
    AtMsg(fit, cfg, s, m);
    AtThread(fit, cfg, s, t);
    if m.tag.thread != t {
      DifferentIds(fit, cfg, s, t, m.tag.thread);
    }
  }

  // ----- every step keeps the invariant -----

  lemma ThreadKeptAnswer(fit: bool, cfg: Config, s: State, i: nat, length: int, offset: nat, data: seq<byte>, u: nat)
    requires Proper(cfg) && DistinctIds(cfg) && Inv(fit, cfg, s) && Enabled(cfg, s, Answer(i, length, offset, data))
    requires u in s.phase || u in cfg.proc || u in s.serial
    ensures ThreadOk(fit, cfg, Next(cfg, s, Answer(i, length, offset, data)), u)
  {
    hide Inv, Count, Intact, Request, Splice, MsgOk;
    AtThread(fit, cfg, s, u);
    AnswerOk(fit, cfg, s, i, length, offset, data);
    ServedSource(fit, cfg, s, i);
    CountWithout(s.serving, i, u);
    CountAppend(s.queue, Reply(s.serving[i], length, offset, data), u);
    if u != s.serving[i].tag.thread {
      OtherThreadKept(fit, cfg, s, s.serving[i].tag.thread, offset, data, u);
    }
  }

  lemma ThreadKept(fit: bool, cfg: Config, s: State, e: Step, u: nat)
    requires Proper(cfg) && DistinctIds(cfg) && Inv(fit, cfg, s) && Enabled(cfg, s, e)
    requires fit ==> Fits(e, SLOT)
    requires u in s.phase || u in cfg.proc || u in s.serial
    ensures ThreadOk(fit, cfg, Next(cfg, s, e), u)
  {
    hide Inv, Count, Intact, Request, Splice;
    var n := Next(cfg, s, e);
    AtThread(fit, cfg, s, u);
    match e
    case Begin(t, call) =>
    case Acquire(t) => AtThread(fit, cfg, s, t);
    case Write(t) =>
      AtThread(fit, cfg, s, t);
      WrittenOk(fit, cfg, s, t);
      if u != t && !s.phase[t].call.Get? {
        SlotInsideIff(Id(cfg, t));
        var base := Base(Id(cfg, t));
        OtherThreadKept(fit, cfg, s, t, base, Clip(DataOf(s.phase[t].call), SEGMENT - base), u);
      }
    case Send(t) =>
      AtThread(fit, cfg, s, t);
      CountAppend(s.queue, Request(Id(cfg, t), s.phase[t].call, Tag(t, s.serial[t])), u);
    case Take(i) =>
      CountWithout(s.queue, i, u);
      CountAppend(s.serving, s.queue[i], u);
    case Answer(i, length, offset, data) => ThreadKeptAnswer(fit, cfg, s, i, length, offset, data, u);
    case Receive(t, i) =>
      OwnReceived(fit, cfg, s, t, i);
      CountWithout(s.queue, i, u);
    case Finish(t) => AtThread(fit, cfg, s, t);
  }

  lemma MsgKeptAnswer(fit: bool, cfg: Config, s: State, i: nat, length: int, offset: nat, data: seq<byte>, m: Msg)
    requires Proper(cfg) && DistinctIds(cfg) && Inv(fit, cfg, s) && Enabled(cfg, s, Answer(i, length, offset, data))
    requires var n := Next(cfg, s, Answer(i, length, offset, data)); m in n.queue || m in n.serving
    ensures var n := Next(cfg, s, Answer(i, length, offset, data));
      Owned(fit, cfg, n, m) && (m in n.serving ==> m.des == SERVER)
  {
    hide Inv, Count, Intact, Splice, OwnAnswer, PhaseOk, MsgOk;
    var n := Next(cfg, s, Answer(i, length, offset, data));
    AnswerOk(fit, cfg, s, i, length, offset, data);
    ServedSource(fit, cfg, s, i);
    var t := s.serving[i].tag.thread;
    if m in s.queue || m in n.serving {
      AtMsg(fit, cfg, s, m);
      CountWithout(s.serving, i, t);
      NoMessage(s.(serving := n.serving), t, m);
      OtherMsgKept(fit, cfg, s, t, offset, data, m);
    }
  }

  lemma MsgKept(fit: bool, cfg: Config, s: State, e: Step, m: Msg)
    requires Proper(cfg) && DistinctIds(cfg) && Inv(fit, cfg, s) && Enabled(cfg, s, e)
    requires fit ==> Fits(e, SLOT)
    requires m in Next(cfg, s, e).queue || m in Next(cfg, s, e).serving
    ensures Owned(fit, cfg, Next(cfg, s, e), m) && (m in Next(cfg, s, e).serving ==> m.des == SERVER)
  {
    hide Inv, Count, Intact, Splice, OwnAnswer, PhaseOk, MsgOk;
    var n := Next(cfg, s, e);
    if m in s.queue || m in s.serving {
      AtMsg(fit, cfg, s, m);
    }
    match e
    case Begin(t, call) => AtThread(fit, cfg, s, t);
    case Acquire(t) => AtThread(fit, cfg, s, t);
    case Write(t) =>
      AtThread(fit, cfg, s, t);
      if !s.phase[t].call.Get? {
        CallFits(fit, s.mem, Id(cfg, t), Tag(t, s.serial[t]), s.phase[t]);
        SlotInsideIff(Id(cfg, t));
        var base := Base(Id(cfg, t));
        OtherMsgKept(fit, cfg, s, t, base, Clip(DataOf(s.phase[t].call), SEGMENT - base), m);
      }
    case Send(t) =>
      AtThread(fit, cfg, s, t);
      SentOk(fit, s.mem, Id(cfg, t), Tag(t, s.serial[t]), s.phase[t].call);
    case Take(i) =>
    case Answer(i, length, offset, data) => MsgKeptAnswer(fit, cfg, s, i, length, offset, data, m);
    case Receive(t, i) =>
      OwnReceived(fit, cfg, s, t, i);
      AtThread(fit, cfg, s, t);
      CountWithout(s.queue, i, t);
      NoMessage(n, t, m);
    case Finish(t) => AtThread(fit, cfg, s, t);
  }

  lemma CallFits(fit: bool, mem: seq<byte>, id: int, tag: Tag, p: Phase)
    requires PhaseOk(fit, mem, id, tag, p) && p.Locked?
    ensures fit ==> |DataOf(p.call)| <= SLOT
  {
  }

  /** A request speaks for what its call has written. */
  lemma SentOk(fit: bool, mem: seq<byte>, id: int, tag: Tag, c: Call)
    requires PhaseOk(fit, mem, id, tag, Written(c))
    ensures MsgOk(fit, mem, id, tag.serial, c, Request(id, c, tag))
  {
  }

  lemma StateKept(fit: bool, cfg: Config, s: State, e: Step)
    requires Proper(cfg) && Inv(fit, cfg, s) && Enabled(cfg, s, e)
    ensures |Next(cfg, s, e).mem| == SEGMENT
    ensures forall d :: d in Next(cfg, s, e).log ==> OwnReply(d) && (fit ==> OwnAnswer(d))
  {
    hide ThreadOk, Owned, OwnAnswer, Outcome, Request;
    if e.Finish? {
      AtThread(fit, cfg, s, e.t);
      FinishedOwn(fit, cfg, s, e.t);
    }
  }

  /** A finished call returns the answer to itself. */
  lemma FinishedOwn(fit: bool, cfg: Config, s: State, t: nat)
    requires Proper(cfg) && ThreadOk(fit, cfg, s, t) && Enabled(cfg, s, Finish(t))
    ensures var d := Outcome(Tag(t, s.serial[t]), s.phase[t].call, s.phase[t].reply, s.mem);
      OwnReply(d) && (fit ==> OwnAnswer(d))
  {
    hide Count;
  }

  lemma StepKeeps(fit: bool, cfg: Config, s: State, e: Step)
    requires Proper(cfg) && DistinctIds(cfg) && Inv(fit, cfg, s) && Enabled(cfg, s, e)
    requires fit ==> Fits(e, SLOT)
    ensures Inv(fit, cfg, Next(cfg, s, e))
  {
    hide ThreadOk, Owned, OwnAnswer, Enabled;
    var n := Next(cfg, s, e);
    StateKept(fit, cfg, s, e);
    KeysKept(cfg, s, e);
    hide Next;
    forall t | t in n.phase || t in cfg.proc || t in n.serial ensures ThreadOk(fit, cfg, n, t) {
      ThreadKept(fit, cfg, s, e, t);
    }
    forall m | m in n.queue || m in n.serving ensures Owned(fit, cfg, n, m) && (m in n.serving ==> m.des == SERVER) {
      MsgKept(fit, cfg, s, e, m);
    }
  }

  lemma KeysKept(cfg: Config, s: State, e: Step)
    requires Proper(cfg) && Enabled(cfg, s, e)
    ensures Next(cfg, s, e).phase.Keys == s.phase.Keys && Next(cfg, s, e).serial.Keys == s.serial.Keys
  {
  }

  // ----- whole runs -----

  /** A run is possible when each step is enabled in the state before it. */
  predicate Possible(cfg: Config, s: State, steps: seq<Step>)
    requires Proper(cfg)
    decreases |steps|
  {
    steps == [] || (Enabled(cfg, s, steps[0]) && Possible(cfg, Next(cfg, s, steps[0]), steps[1..]))
  }

  function After(cfg: Config, s: State, steps: seq<Step>): State
    requires Proper(cfg) && Possible(cfg, s, steps)
    decreases |steps|
  {
    if steps == [] then s else After(cfg, Next(cfg, s, steps[0]), steps[1..])
  }

  lemma StartInv(fit: bool, cfg: Config, s: State)
    requires Proper(cfg) && Started(cfg, s)
    ensures Inv(fit, cfg, s)
  {
  }

  lemma {:induction false} RunKeeps(fit: bool, cfg: Config, s: State, steps: seq<Step>)
    requires Proper(cfg) && DistinctIds(cfg) && Inv(fit, cfg, s) && Possible(cfg, s, steps)
    requires fit ==> Fitting(steps, SLOT)
    ensures Inv(fit, cfg, After(cfg, s, steps))
    decreases |steps|
  {
    hide Inv, Next, Enabled;
    if steps != [] {
      assert forall i :: 0 <= i < |steps| - 1 ==> steps[1..][i] == steps[i + 1];
      StepKeeps(fit, cfg, s, steps[0]);
      RunKeeps(fit, cfg, Next(cfg, s, steps[0]), steps[1..]);
    }
  }

  /** Whoever is inside a call holds the mutex of its process. */
  predicate Locks(cfg: Config, s: State) {
    && s.phase.Keys == cfg.proc.Keys
    && forall t :: t in s.phase && Inside(s.phase[t]) ==> cfg.proc[t] in s.holder && s.holder[cfg.proc[t]] == t
  }

  lemma LocksKept(cfg: Config, s: State, e: Step)
    requires Proper(cfg) && Locks(cfg, s) && Enabled(cfg, s, e)
    ensures Locks(cfg, Next(cfg, s, e))
  {
    hide Splice, Request, Outcome;
  }

  lemma {:induction false} AlwaysLocks(cfg: Config, s: State, steps: seq<Step>)
    requires Proper(cfg) && Locks(cfg, s) && Possible(cfg, s, steps)
    ensures Locks(cfg, After(cfg, s, steps))
    decreases |steps|
  {
    hide Locks, Next, Enabled;
    if steps != [] {
      LocksKept(cfg, s, steps[0]);
      AlwaysLocks(cfg, Next(cfg, s, steps[0]), steps[1..]);
    }
  }

  /** In every interleaving, with whatever ids, at most one thread of a process is between taking and
      giving up its mutex. */
  lemma OneInside(cfg: Config, s: State, steps: seq<Step>, t: nat, u: nat)
    requires Proper(cfg) && Started(cfg, s) && Possible(cfg, s, steps)
    requires t in cfg.proc && u in cfg.proc && t != u && cfg.proc[t] == cfg.proc[u]
    ensures var p := After(cfg, s, steps).phase;
      t in p && u in p &&
      (p[t].Idle? || p[t].Wanting? || p[u].Idle? || p[u].Wanting?)
  {
    assert Locks(cfg, s);
    hide After, Possible, Started;
    AlwaysLocks(cfg, s, steps);
  }

  /** In every interleaving every finished call got the reply to its own request. */
  lemma EveryCallOwnReply(cfg: Config, s: State, steps: seq<Step>, d: Done)
    requires Proper(cfg) && DistinctIds(cfg) && Started(cfg, s) && Possible(cfg, s, steps)
    requires d in After(cfg, s, steps).log
    ensures d.reply.tag == d.tag
    ensures match d.call
      case Set(cmd, _) => d.reply.cmd == cmd && d.ret == d.reply.length
      case Exchange(data) => d.reply.cmd == 264 && (d.ret == 0 <==> d.reply.length == |data|) && d.ret in {0, -1}
      case Get(len) => d.reply.cmd == 0 && (d.ret == 0 <==> d.reply.length == len) && d.ret in {0, -1}
  {
    hide OwnAnswer, ThreadOk, Owned, After, Possible, Started;
    StartInv(false, cfg, s);
    RunKeeps(false, cfg, s, steps);
  }

  /** And if no call brings more data than a slot holds, it returned just the bytes the server had
      written for it. */
  lemma EveryCallOwnAnswer(cfg: Config, s: State, steps: seq<Step>, d: Done)
    requires Proper(cfg) && DistinctIds(cfg) && Started(cfg, s) && Possible(cfg, s, steps) && Fitting(steps, SLOT)
    requires d in After(cfg, s, steps).log
    ensures OwnAnswer(d)
  {
    hide OwnAnswer, ThreadOk, Owned, After, Possible, Started;
    StartInv(true, cfg, s);
    RunKeeps(true, cfg, s, steps);
  }

  /** The segment still holds what the request speaks for. */
  predicate Holds(mem: seq<byte>, m: Msg) {
    0 <= m.offset && m.offset + |m.data| <= |mem| && mem[m.offset..m.offset + |m.data|] == m.data
  }

  /** When the server takes a request, it is that of a waiting call. */
  lemma RequestOwn(cfg: Config, s: State, steps: seq<Step>, m: Msg)
    requires Proper(cfg) && DistinctIds(cfg) && Started(cfg, s) && Possible(cfg, s, steps)
    requires m in After(cfg, s, steps).serving
    ensures var n := After(cfg, s, steps); var t := m.tag.thread;
      t in n.phase && t in cfg.proc && t in n.serial && n.phase[t].Waiting? &&
      m == Request(Id(cfg, t), n.phase[t].call, Tag(t, n.serial[t]))
  {
    hide After, Possible, Request, Count, Inv, Started;
    StartInv(false, cfg, s);
    RunKeeps(false, cfg, s, steps);
    AtMsg(false, cfg, After(cfg, s, steps), m);
  }

  /** What the server reads in it, field by field: the command, the length and the place of the data. */
  lemma RequestFields(cfg: Config, s: State, steps: seq<Step>, m: Msg)
    requires Proper(cfg) && DistinctIds(cfg) && Started(cfg, s) && Possible(cfg, s, steps)
    requires m in After(cfg, s, steps).serving
    ensures var n := After(cfg, s, steps);
      var t := m.tag.thread;
      t in n.phase && t in cfg.proc && n.phase[t].Waiting? && m.des == 1 && m.src == Id(cfg, t) &&
      match n.phase[t].call
      case Set(cmd, data) =>
        m.cmd == cmd && m.length == |data| && m.offset == 12288 * (Id(cfg, t) - 2) && m.data == data
      case Exchange(data) =>
        m.cmd == 264 && m.length == |data| && m.offset == 12288 * (Id(cfg, t) - 2) && m.data == data
      case Get(_) => m.cmd == 0 && m.length == 0 && m.offset == 0 && m.data == []
  {
    RequestOwn(cfg, s, steps, m);
    hide After, Possible, Started;
  }

  /** And if no call brings more data than a slot holds, the segment still holds what it wrote. */
  lemma RequestIntact(cfg: Config, s: State, steps: seq<Step>, m: Msg)
    requires Proper(cfg) && DistinctIds(cfg) && Started(cfg, s) && Possible(cfg, s, steps) && Fitting(steps, SLOT)
    requires m in After(cfg, s, steps).serving
    ensures Holds(After(cfg, s, steps).mem, m)
  {
    hide After, Possible, Request, Count, Inv, Started;
    StartInv(true, cfg, s);
    RunKeeps(true, cfg, s, steps);
    AtMsg(true, cfg, After(cfg, s, steps), m);
  }

  /** The client a message is from or for. */
  function Client(m: Msg): int {
    if m.des == SERVER then m.src else m.des
  }

  function CountClient(q: seq<Msg>, id: int): nat {
    if q == [] then 0 else CountClient(q[1..], id) + (if Client(q[0]) == id then 1 else 0)
  }

  predicate WaitsWithId(cfg: Config, s: State, id: int, t: nat)
    requires Proper(cfg)
  {
    t in s.phase && t in cfg.proc && s.phase[t].Waiting? && Id(cfg, t) == id
  }

  lemma {:induction false} ClientsOf(fit: bool, cfg: Config, s: State, q: seq<Msg>, id: int, t: nat)
    requires Proper(cfg) && DistinctIds(cfg) && Inv(fit, cfg, s) && WaitsWithId(cfg, s, id, t)
    requires forall m :: m in q ==> m in s.queue || m in s.serving
    ensures CountClient(q, id) == Count(q, t)
    decreases q
  {
    hide Inv, ThreadOk;
    if q != [] {
      assert q[0] in q && forall m :: m in q[1..] ==> m in q;
      ClientsOf(fit, cfg, s, q[1..], id, t);
      AtMsg(fit, cfg, s, q[0]);
      AtThread(fit, cfg, s, t);
      ClientOwner(fit, cfg, s, q[0]);
      if q[0].tag.thread != t {
        DifferentIds(fit, cfg, s, t, q[0].tag.thread);
      }
    }
  }

  lemma ClientOwner(fit: bool, cfg: Config, s: State, m: Msg)
    requires Proper(cfg) && Owned(fit, cfg, s, m)
    ensures Client(m) == Id(cfg, m.tag.thread)
  {
    hide Intact;
  }

  lemma {:induction false} NoClients(fit: bool, cfg: Config, s: State, q: seq<Msg>, id: int)
    requires Proper(cfg) && Inv(fit, cfg, s) && forall t :: t in s.phase ==> !WaitsWithId(cfg, s, id, t)
    requires forall m :: m in q ==> m in s.queue || m in s.serving
    ensures CountClient(q, id) == 0
    decreases q
  {
    hide Inv, ThreadOk, MsgOk;
    if q != [] {
      assert q[0] in q && forall m :: m in q[1..] ==> m in q;
      NoClients(fit, cfg, s, q[1..], id);
      AtMsg(fit, cfg, s, q[0]);
      ClientOwner(fit, cfg, s, q[0]);
    }
  }

  /** Each id has exactly one message in flight, queued or in service, while a thread of its
      process waits, and none otherwise. */
  lemma OneInFlight(cfg: Config, s: State, steps: seq<Step>, id: int)
    requires Proper(cfg) && DistinctIds(cfg) && Started(cfg, s) && Possible(cfg, s, steps)
    ensures var n := After(cfg, s, steps);
      CountClient(n.queue, id) + CountClient(n.serving, id) ==
      (if exists t :: t in n.phase && WaitsWithId(cfg, n, id, t) then 1 else 0)
  {
    hide After, Possible, Inv, PhaseOk, WaitsWithId, Started;
    var n := After(cfg, s, steps);
    var fit := false;
    StartInv(fit, cfg, s);
    RunKeeps(fit, cfg, s, steps);
    if t :| t in n.phase && WaitsWithId(cfg, n, id, t) {
      ClientsOf(fit, cfg, n, n.queue, id, t);
      ClientsOf(fit, cfg, n, n.serving, id, t);
      AtThread(fit, cfg, n, t);
      Waits(cfg, n, id, t);
    } else {
      NoClients(fit, cfg, n, n.queue, id);
      NoClients(fit, cfg, n, n.serving, id);
    }
  }

  lemma Waits(cfg: Config, s: State, id: int, t: nat)
    requires Proper(cfg) && WaitsWithId(cfg, s, id, t)
    ensures t in s.phase && s.phase[t].Waiting?
  {
  }

  // ----- why the ids must differ -----

  lemma {:induction false} Extend(cfg: Config, s: State, steps: seq<Step>, e: Step)
    requires Proper(cfg) && Possible(cfg, s, steps) && Enabled(cfg, After(cfg, s, steps), e)
    ensures Possible(cfg, s, steps + [e])
    ensures After(cfg, s, steps + [e]) == Next(cfg, After(cfg, s, steps), e)
    decreases |steps|
  {
    hide Enabled, Next;
    if steps == [] {
      assert steps + [e] == [e] && [e][1..] == [];
    } else {
      assert (steps + [e])[0] == steps[0] && (steps + [e])[1..] == steps[1..] + [e];
      Extend(cfg, Next(cfg, s, steps[0]), steps[1..], e);
    }
  }

  lemma UpdatedTwice(p: map<nat, Phase>, t: nat, x: Phase, y: Phase)
    ensures var q: map<nat, Phase> := p[t := x]; q[t := y] == p[t := y]
  {
  }

  predicate ReadyToCall(cfg: Config, s: State, t: nat) {
    && t in s.phase && t in s.serial && t in cfg.proc
    && s.phase[t] == Idle && cfg.proc[t] !in s.holder && |s.mem| == SEGMENT
  }

  /** A thread of a process whose mutex is free gets as far as waiting. */
  lemma GetSent(cfg: Config, s: State, steps: seq<Step>, t: nat) returns (more: seq<Step>)
    requires Proper(cfg) && Possible(cfg, s, steps)
    requires ReadyToCall(cfg, After(cfg, s, steps), t)
    ensures Possible(cfg, s, more)
    ensures var n := After(cfg, s, steps);
      After(cfg, s, more) == n.(
        phase := n.phase[t := Waiting(Get(0))],
        serial := n.serial[t := n.serial[t] + 1],
        holder := n.holder[cfg.proc[t] := t],
        queue := n.queue + [Request(Id(cfg, t), Get(0), Tag(t, n.serial[t] + 1))])
  {
    hide After, Possible, Request;
    var n := After(cfg, s, steps);
    Extend(cfg, s, steps, Begin(t, Get(0)));
    var a := steps + [Begin(t, Get(0))];
    Extend(cfg, s, a, Acquire(t));
    var b := a + [Acquire(t)];
    Extend(cfg, s, b, Write(t));
    var c := b + [Write(t)];
    Extend(cfg, s, c, Send(t));
    more := c + [Send(t)];
    UpdatedTwice(n.phase, t, Wanting(Get(0)), Locked(Get(0)));
    UpdatedTwice(n.phase, t, Locked(Get(0)), Written(Get(0)));
    UpdatedTwice(n.phase, t, Written(Get(0)), Waiting(Get(0)));
  }

  lemma EmptySplice(mem: seq<byte>)
    ensures Splice(mem, 0, []) == mem
  {
  }

  /** The server answers a second request under the id a waiting thread listens to. */
  lemma AnswerSecond(cfg: Config, s: State, steps: seq<Step>, m0: Msg, m1: Msg) returns (more: seq<Step>)
    requires Proper(cfg) && Possible(cfg, s, steps) && |After(cfg, s, steps).mem| == SEGMENT
    requires After(cfg, s, steps).queue == [m0, m1] && After(cfg, s, steps).serving == [] && m1.des == SERVER
    ensures Possible(cfg, s, more)
    ensures var n := After(cfg, s, steps);
      After(cfg, s, more) == n.(queue := [m0, Reply(m1, 0, 0, [])])
  {
    hide After, Possible, Reply;
    var n := After(cfg, s, steps);
    EmptySplice(n.mem);
    hide Splice;
    Extend(cfg, s, steps, Take(1));
    var c := steps + [Take(1)];
    assert Without(n.queue, 1) == [m0];
    assert n.serving + [n.queue[1]] == [m1];
    Extend(cfg, s, c, Answer(0, 0, 0, []));
    more := c + [Answer(0, 0, 0, [])];
    assert Without([m1], 0) == [];
    assert [m0] + [Reply(m1, 0, 0, [])] == [m0, Reply(m1, 0, 0, [])];
  }

  lemma StolenReply(cfg: Config, s: State, steps: seq<Step>, t: nat, m0: Msg, r: Msg) returns (more: seq<Step>, d: Done)
    requires Proper(cfg) && Possible(cfg, s, steps) && |After(cfg, s, steps).mem| == SEGMENT
    requires After(cfg, s, steps).queue == [m0, r] && t in cfg.proc && r.des == Id(cfg, t)
    requires t in After(cfg, s, steps).phase && t in After(cfg, s, steps).serial
    requires After(cfg, s, steps).phase[t] == Waiting(Get(0))
    requires r.tag.thread != t && r.offset == 0 && r.length == 0
    ensures Possible(cfg, s, more) && d in After(cfg, s, more).log
    ensures d.tag.thread == t && d.reply.tag == r.tag && !OwnAnswer(d)
  {
    hide After, Possible;
    var n := After(cfg, s, steps);
    Extend(cfg, s, steps, Receive(t, 1));
    var f := steps + [Receive(t, 1)];
    var k := After(cfg, s, f);
    assert k.phase[t] == Got(Get(0), r);
    Extend(cfg, s, f, Finish(t));
    more := f + [Finish(t)];
    d := Outcome(Tag(t, k.serial[t]), Get(0), r, k.mem);
    assert After(cfg, s, more).log == k.log + [d];
  }

  lemma BothSent(cfg: Config, s: State, t: nat, u: nat) returns (b: seq<Step>, mt: Msg, mu: Msg)
    requires Proper(cfg) && Started(cfg, s) && t in cfg.proc && u in cfg.proc && cfg.proc[t] != cfg.proc[u]
    ensures Possible(cfg, s, b)
    ensures mu.des == SERVER && mu.src == Id(cfg, u) && mu.tag.thread == u
    ensures var n := After(cfg, s, b);
      n.queue == [mt, mu] && n.serving == [] && |n.mem| == SEGMENT &&
      t in n.phase && t in n.serial && n.phase[t] == Waiting(Get(0))
  {
    EmptyRun(cfg, s);
    hide After, Possible, Request;
    var a := GetSent(cfg, s, [], t);
    b := GetSent(cfg, s, a, u);
    mt := Request(Id(cfg, t), Get(0), Tag(t, s.serial[t] + 1));
    mu := Request(Id(cfg, u), Get(0), Tag(u, s.serial[u] + 1));
    assert [] + [mt] == [mt] && [mt] + [mu] == [mt, mu];
  }

  /** With two processes under one id, a thread can finish with the reply to the other's request. */
  lemma SharedIdMixes(cfg: Config, s: State, t: nat, u: nat) returns (steps: seq<Step>, d: Done)
    requires Proper(cfg) && Started(cfg, s)
    requires t in cfg.proc && u in cfg.proc && cfg.proc[t] != cfg.proc[u] && Id(cfg, t) == Id(cfg, u)
    ensures Possible(cfg, s, steps) && d in After(cfg, s, steps).log
    ensures d.tag.thread == t && d.reply.tag.thread == u && !OwnAnswer(d)
  {
    hide After, Possible, Next, OwnAnswer, Started;
    var b, mt, mu := BothSent(cfg, s, t, u);
    var c := AnswerSecond(cfg, s, b, mt, mu);
    steps, d := StolenReply(cfg, s, c, t, mt, Reply(mu, 0, 0, []));
  }

  lemma EmptyRun(cfg: Config, s: State)
    requires Proper(cfg)
    ensures Possible(cfg, s, []) && After(cfg, s, []) == s
  {
  }

  // ----- why the calls must fit -----

  lemma FittingSnoc(steps: seq<Step>, e: Step, max: nat)
    requires Fitting(steps, max) && Fits(e, max)
    ensures Fitting(steps + [e], max)
  {
  }

  /** A thread of a process whose mutex is free gets as far as having written. */
  lemma DataWritten(cfg: Config, s: State, steps: seq<Step>, t: nat, c: Call, max: nat) returns (more: seq<Step>)
    requires Proper(cfg) && Possible(cfg, s, steps) && !c.Get? && Fitting(steps, max) && |DataOf(c)| <= max
    requires ReadyToCall(cfg, After(cfg, s, steps), t) && Base(Id(cfg, t)) + |DataOf(c)| <= SEGMENT
    ensures Possible(cfg, s, more) && Fitting(more, max)
    ensures var n := After(cfg, s, steps);
      After(cfg, s, more) == n.(
        phase := n.phase[t := Written(c)],
        serial := n.serial[t := n.serial[t] + 1],
        holder := n.holder[cfg.proc[t] := t],
        mem := Splice(n.mem, Base(Id(cfg, t)), DataOf(c)))
  {
    hide After, Possible, Splice, Fitting;
    var n := After(cfg, s, steps);
    Extend(cfg, s, steps, Begin(t, c));
    FittingSnoc(steps, Begin(t, c), max);
    var a := steps + [Begin(t, c)];
    Extend(cfg, s, a, Acquire(t));
    FittingSnoc(a, Acquire(t), max);
    var b := a + [Acquire(t)];
    UpdatedTwice(n.phase, t, Wanting(c), Locked(c));
    Extend(cfg, s, b, Write(t));
    FittingSnoc(b, Write(t), max);
    more := b + [Write(t)];
    UpdatedTwice(n.phase, t, Locked(c), Written(c));
  }

  /** The request of a thread that has written reaches the server. */
  lemma RequestServed(cfg: Config, s: State, steps: seq<Step>, t: nat, max: nat) returns (more: seq<Step>)
    requires Proper(cfg) && Possible(cfg, s, steps) && Fitting(steps, max)
    requires var n := After(cfg, s, steps); t in n.phase && t in cfg.proc && t in n.serial && n.phase[t].Written?
    requires After(cfg, s, steps).queue == [] && After(cfg, s, steps).serving == []
    ensures Possible(cfg, s, more) && Fitting(more, max)
    ensures var n := After(cfg, s, steps);
      After(cfg, s, more) == n.(
        phase := n.phase[t := Waiting(n.phase[t].call)],
        serving := [Request(Id(cfg, t), n.phase[t].call, Tag(t, n.serial[t]))])
  {
    hide After, Possible, Request, Fitting;
    var n := After(cfg, s, steps);
    var m := Request(Id(cfg, t), n.phase[t].call, Tag(t, n.serial[t]));
    Extend(cfg, s, steps, Send(t));
    FittingSnoc(steps, Send(t), max);
    var a := steps + [Send(t)];
    assert [] + [m] == [m];
    Extend(cfg, s, a, Take(0));
    FittingSnoc(a, Take(0), max);
    more := a + [Take(0)];
    assert Without([m], 0) == [];
  }

  /** Two processes with neighbouring ids, which nothing rules out. */
  predicate Neighbours(cfg: Config, t: nat, u: nat)
    requires Proper(cfg)
  {
    t in cfg.proc && u in cfg.proc && Id(cfg, u) == Id(cfg, t) + 1
  }

  /** A call with more data than a slot holds overwrites the request of the process with the next id
      while the server works on it. */
  lemma OversizeOverwrites(cfg: Config, s: State, t: nat, u: nat, data: seq<byte>)
    returns (steps: seq<Step>, m: Msg)
    requires Proper(cfg) && Started(cfg, s) && Neighbours(cfg, t, u)
    requires |data| > SLOT && Base(Id(cfg, t)) + |data| <= SEGMENT
    ensures Possible(cfg, s, steps) && Fitting(steps, |data|)
    ensures m in After(cfg, s, steps).serving && m.tag.thread == u
    ensures !Holds(After(cfg, s, steps).mem, m)
  {
    EmptyRun(cfg, s);
    assert ReadyToCall(cfg, s, u) && ReadyToCall(cfg, s, t) && s.holder == map[] && s.queue == [] && s.serving == [];
    assert Fitting([], |data|);
    hide After, Possible, Started, Splice, Fitting;
    var x: byte := if data[SLOT] == 0 then 1 else 0;
    var a := DataWritten(cfg, s, [], u, Set(0, [x]), |data|);
    var b := RequestServed(cfg, s, a, u, |data|);
    var n := After(cfg, s, b);
    m := n.serving[0];
    assert cfg.proc[t] != cfg.proc[u] && ReadyToCall(cfg, n, t);
    steps := DataWritten(cfg, s, b, t, Set(0, data), |data|);
    var base := Base(Id(cfg, t));
    assert m.data == [x] && m.offset == base + SLOT;
    ByteIn(n.mem, base, data, SLOT);
    var mem := After(cfg, s, steps).mem;
    assert mem[base + SLOT] == data[SLOT] != x;
    assert mem[m.offset..m.offset + 1][0] == mem[m.offset];
  }

  /** The server answers the one request it has with the byte x, and the caller receives it. */
  lemma ByteReceived(cfg: Config, s: State, steps: seq<Step>, u: nat, x: byte, max: nat) returns (more: seq<Step>)
    requires Proper(cfg) && Possible(cfg, s, steps) && Fitting(steps, max)
    requires var n := After(cfg, s, steps);
      u in n.phase && u in cfg.proc && u in n.serial &&
      |n.mem| == SEGMENT && n.phase[u] == Waiting(Exchange([x])) && n.queue == [] &&
      n.serving == [Request(Id(cfg, u), Exchange([x]), Tag(u, n.serial[u]))]
    ensures Possible(cfg, s, more) && Fitting(more, max)
    ensures var n, base := After(cfg, s, steps), Base(Id(cfg, u));
      After(cfg, s, more) == n.(
        phase := n.phase[u := Got(Exchange([x]), Reply(n.serving[0], 1, base, [x]))],
        serving := [],
        mem := Splice(n.mem, base, [x]))
  {
    hide After, Possible, Splice, Fitting;
    var n, base := After(cfg, s, steps), Base(Id(cfg, u));
    var m := n.serving[0];
    var answer := Answer(0, 1, base, [x]);
    assert Base(m.src) == base;
    Extend(cfg, s, steps, answer);
    FittingSnoc(steps, answer, max);
    var r := Reply(m, 1, base, [x]);
    assert Without([m], 0) == [] && [] + [r] == [r] && Without([r], 0) == [];
    var a := steps + [answer];
    Extend(cfg, s, a, Receive(u, 0));
    FittingSnoc(a, Receive(u, 0), max);
    more := a + [Receive(u, 0)];
  }

  /** The same call can overwrite an answer between its receipt and the caller's read: the caller then
      returns bytes the server did not write for it. */
  lemma OversizeCorrupts(cfg: Config, s: State, t: nat, u: nat, data: seq<byte>)
    returns (steps: seq<Step>, d: Done)
    requires Proper(cfg) && Started(cfg, s) && Neighbours(cfg, t, u)
    requires |data| > SLOT && Base(Id(cfg, t)) + |data| <= SEGMENT
    ensures Possible(cfg, s, steps) && Fitting(steps, |data|)
    ensures d in After(cfg, s, steps).log && d.tag.thread == u && !OwnAnswer(d)
  {
    EmptyRun(cfg, s);
    assert ReadyToCall(cfg, s, u) && ReadyToCall(cfg, s, t) && s.holder == map[] && s.queue == [] && s.serving == [];
    assert Fitting([], |data|);
    hide After, Possible, Started, Splice, Fitting;
    var x: byte := if data[SLOT] == 0 then 1 else 0;
    var a := DataWritten(cfg, s, [], u, Exchange([x]), |data|);
    var b := RequestServed(cfg, s, a, u, |data|);
    var c := ByteReceived(cfg, s, b, u, x, |data|);
    var n := After(cfg, s, c);
    assert cfg.proc[t] != cfg.proc[u] && ReadyToCall(cfg, n, t);
    var e := DataWritten(cfg, s, c, t, Set(0, data), |data|);
    var k := After(cfg, s, e);
    var r := n.phase[u].reply;
    ByteIn(n.mem, Base(Id(cfg, t)), data, SLOT);
    steps, d := LateRead(cfg, s, e, u, x, r, |data|);
  }

  lemma LateRead(cfg: Config, s: State, steps: seq<Step>, u: nat, x: byte, r: Msg, max: nat)
    returns (more: seq<Step>, d: Done)
    requires Proper(cfg) && Possible(cfg, s, steps) && Fitting(steps, max)
    requires var n := After(cfg, s, steps);
      u in n.phase && u in cfg.proc && u in n.serial &&
      |n.mem| == SEGMENT && n.phase[u] == Got(Exchange([x]), r) &&
      0 <= r.offset < SEGMENT && n.mem[r.offset] != x
    requires r.length == 1 && r.data == [x]
    ensures Possible(cfg, s, more) && Fitting(more, max)
    ensures d in After(cfg, s, more).log && d.tag.thread == u && !OwnAnswer(d)
  {
    hide After, Possible, Fitting;
    var n := After(cfg, s, steps);
    Extend(cfg, s, steps, Finish(u));
    FittingSnoc(steps, Finish(u), max);
    more := steps + [Finish(u)];
    d := Outcome(Tag(u, n.serial[u]), Exchange([x]), r, n.mem);
    assert After(cfg, s, more).log == n.log + [d];
    assert d.bytes == n.mem[r.offset..r.offset + 1] && d.bytes[0] == n.mem[r.offset];
  }

  lemma FittingLess(steps: seq<Step>, max: nat, more: nat)
    requires Fitting(steps, max) && max <= more
    ensures Fitting(steps, more)
  {
    forall i | 0 <= i < |steps| ensures Fits(steps[i], more) {
      assert Fits(steps[i], max);
    }
  }

  /** With calls of up to max bytes every finished call returned just what the server wrote for it, if
      and only if max is at most the size of a slot. */
  lemma OwnAnswersIff(cfg: Config, s: State, max: nat, t: nat, u: nat)
    requires Proper(cfg) && DistinctIds(cfg) && Started(cfg, s) && Neighbours(cfg, t, u)
    ensures (forall steps, d :: Possible(cfg, s, steps) && Fitting(steps, max) && d in After(cfg, s, steps).log ==>
               OwnAnswer(d)) <==> max <= SLOT
  {
    hide After, Possible, Started, Fitting, OwnAnswer;
    if max <= SLOT {
      forall steps, d | Possible(cfg, s, steps) && Fitting(steps, max) && d in After(cfg, s, steps).log
        ensures OwnAnswer(d)
      {
        FittingLess(steps, max, SLOT);
        EveryCallOwnAnswer(cfg, s, steps, d);
      }
    } else {
      var steps, d := OversizeCorrupts(cfg, s, t, u, Zeros(SLOT + 1));
      FittingLess(steps, SLOT + 1, max);
      assert d in After(cfg, s, steps).log && !OwnAnswer(d);
    }
  }

  /** And so does the segment hold what every request in service speaks for. */
  lemma RequestsIntactIff(cfg: Config, s: State, max: nat, t: nat, u: nat)
    requires Proper(cfg) && DistinctIds(cfg) && Started(cfg, s) && Neighbours(cfg, t, u)
    ensures (forall steps, m :: Possible(cfg, s, steps) && Fitting(steps, max) && m in After(cfg, s, steps).serving ==>
               Holds(After(cfg, s, steps).mem, m)) <==> max <= SLOT
  {
    hide After, Possible, Started, Fitting, Holds;
    if max <= SLOT {
      forall steps, m | Possible(cfg, s, steps) && Fitting(steps, max) && m in After(cfg, s, steps).serving
        ensures Holds(After(cfg, s, steps).mem, m)
      {
        FittingLess(steps, max, SLOT);
        RequestIntact(cfg, s, steps, m);
      }
    } else {
      var steps, m := OversizeOverwrites(cfg, s, t, u, Zeros(SLOT + 1));
      FittingLess(steps, SLOT + 1, max);
      assert m in After(cfg, s, steps).serving && !Holds(After(cfg, s, steps).mem, m);
    }
  }

  // ----- the segment in place -----

  /** The segment that ShareMemInit creates. */
  class SharedSegment {
    const mem: array<byte>

    constructor ()
      ensures fresh(mem) && mem.Length == SEGMENT
    {
      mem := new byte[SEGMENT];
    }

    /** ShareMemWrite: the writing half of a call, as in step Write. */
    method ShareMemWrite(offset: int, buf: seq<byte>)
      requires 0 <= offset && offset + |buf| <= mem.Length
      modifies mem
      ensures mem[..] == Splice(old(mem[..]), offset, buf)
    {
      Store(mem, offset, buf);
    }

    /** ShareMemRead: the reading half, as in step Finish. */
    method ShareMemRead(offset: int, length: int) returns (buf: seq<byte>)
      requires 0 <= offset && 0 <= length && offset + length <= mem.Length
      ensures buf == Read(mem[..], offset, length)
    {
      var out := new byte[length];
      var i := 0;
      while i < length
        invariant 0 <= i <= length && out[..i] == mem[offset..offset + i]
      {
        out[i] := mem[offset + i];
        i := i + 1;
      }
      buf := out[..];
      assert mem[..][offset..offset + length] == mem[offset..offset + length];
    }
  }
}

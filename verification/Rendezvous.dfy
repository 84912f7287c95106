/** interface/inc/rendezvous.h: every interleaving of meet, force and reset. */
module Rendezvous {
  import opened Monitor

  datatype Op = Meet | Force | Reset

  /** orig and count; `entered` counts the calls of meet that have got as far as the counter. */
  datatype Data = Data(orig: int, count: int, entered: nat)

  /** What Rendezvous_meet, _force and _reset do under the mutex. */
  function Look(d: Data, op: Op): (Data, Decision) {
    match op
    case Meet =>
      (Data(d.orig, d.count - 1, d.entered + 1), if d.count - 1 > 0 then Sleep else Broadcast)
    case Force => (d.(count := 0), Broadcast)
    case Reset => (d.(count := d.orig), Leave)
  }

  type Room = State<Op, Data>

  /** Rendezvous_open for n threads, before any call. */
  ghost predicate Opened(s: Room, n: int) {
    s.owner == Free && s.data == Data(n, n, 0) && forall t :: t in s.phase ==> s.phase[t] == Idle
  }

  predicate AboutToWake(s: Room) {
    s.owner.By? && s.owner.t in s.phase && s.phase[s.owner.t].Broadcasting?
  }

  /** A thread sleeps only while the count is positive, unless its wake-up is already under way. */
  ghost predicate NoLostWakeup(s: Room) {
    && Exclusive(s)
    && (s.data.count <= s.data.orig || s.data.count <= 0)
    && ((exists t :: t in s.phase && s.phase[t].Sleeping?) ==> s.data.count > 0 || AboutToWake(s))
  }

  lemma WakeupKept(s: Room, e: Step<Op>)
    requires NoLostWakeup(s) && Enabled(s, e)
    ensures NoLostWakeup(Next(s, e, Look))
  {
    ExclusiveKept(s, e, Look);
    var n := Next(s, e, Look);
    if t :| t in n.phase && n.phase[t].Sleeping? {
      assert t == e.t || s.phase[t].Sleeping?;
    }
  }

  /** In every interleaving, with force, reset and spurious wake-ups at any point. */
  lemma AlwaysNoLostWakeup(s: Room, steps: seq<Step<Op>>)
    requires NoLostWakeup(s) && Possible(s, steps, Look)
    ensures NoLostWakeup(After(s, steps, Look))
  {
    hide NoLostWakeup, Enabled, Next, Possible, After;
    forall x: Room, e | NoLostWakeup(x) && Enabled(x, e) ensures NoLostWakeup(Next(x, e, Look)) {
      WakeupKept(x, e);
    }
    KeptOnRun(s, steps, Look, x => NoLostWakeup(x));
  }

  lemma SleepsOnlyWhileCounting(s: Room, n: int, steps: seq<Step<Op>>, t: nat)
    requires Opened(s, n) && Possible(s, steps, Look) && After(s, steps, Look).owner == Free
    requires t in After(s, steps, Look).phase && After(s, steps, Look).phase[t].Sleeping?
    ensures After(s, steps, Look).data.count > 0
  {
    hide After, Possible;
    AlwaysNoLostWakeup(s, steps);
  }

  // ----- meeting -----

  /** Nobody calls force and nobody wakes up by accident. */
  predicate Unforced(steps: seq<Step<Op>>) {
    forall i :: 0 <= i < |steps| ==> !steps[i].Spurious? && (steps[i].Call? ==> steps[i].op != Force)
  }

  /** Besides, nobody resets. */
  predicate Plain(steps: seq<Step<Op>>) {
    Unforced(steps) && forall i :: 0 <= i < |steps| && steps[i].Call? ==> steps[i].op == Meet
  }

  ghost function Sleepers(s: Room): set<nat> {
    set t | t in s.phase && s.phase[t].Sleeping?
  }

  /** A thread that leaves Rendezvous_meet, or is sure to. */
  predicate Released(p: Phase<Op>) {
    p.Broadcasting? || p.Woken? || p == Leaving(Meet)
  }

  /** Up to the last arrival everyone who has come since `from` had entered sleeps and nobody is on
      the way out. */
  ghost predicate Gathering(s: Room, from: nat) {
    && Exclusive(s) && from <= s.data.entered
    && s.data.count >= s.data.orig - (s.data.entered - from)
    && (forall t :: t in s.phase && !s.phase[t].Idle? ==> s.phase[t].op != Force)
    && (forall t :: t in s.phase && s.phase[t].Sleeping? ==> s.phase[t].op == Meet)
    && (s.data.entered < from + s.data.orig ==>
        |Sleepers(s)| == s.data.entered - from && forall t :: t in s.phase ==> !Released(s.phase[t]))
  }

  /** Who sleeps changes only by the thread that takes the step, until someone broadcasts. */
  lemma SleepersNext(s: Room, e: Step<Op>)
    requires Enabled(s, e) && !e.Wake? && !e.Spurious?
    ensures |Sleepers(Next(s, e, Look))| == |Sleepers(s)| + (if Next(s, e, Look).phase[e.t].Sleeping? then 1 else 0)
  {
    var n := Next(s, e, Look);
    if n.phase[e.t].Sleeping? {
      assert Sleepers(n) == Sleepers(s) + {e.t} && e.t !in Sleepers(s);
    } else {
      assert Sleepers(n) == Sleepers(s);
    }
  }

  lemma GatheringKept(s: Room, from: nat, e: Step<Op>)
    requires Gathering(s, from) && Enabled(s, e) && !e.Spurious? && (e.Call? ==> e.op != Force)
    ensures Gathering(Next(s, e, Look), from)
  {
    hide Sleepers;
    ExclusiveKept(s, e, Look);
    if !e.Wake? {
      SleepersNext(s, e);
    }
  }

  lemma {:induction false} AlwaysGathering(s: Room, from: nat, steps: seq<Step<Op>>)
    requires Gathering(s, from) && Possible(s, steps, Look) && Unforced(steps)
    ensures Gathering(After(s, steps, Look), from) && After(s, steps, Look).data.orig == s.data.orig
    decreases |steps|
  {
    hide Gathering;
    if steps != [] {
      assert forall i :: 0 <= i < |steps| - 1 ==> steps[1..][i] == steps[i + 1];
      GatheringKept(s, from, steps[0]);
      AlwaysGathering(Next(s, steps[0], Look), from, steps[1..]);
    }
  }

  lemma OpenedGathers(s: Room, n: int)
    requires Opened(s, n)
    ensures Gathering(s, 0)
  {
    assert Sleepers(s) == {};
  }

  /** Thread t is on its way out of a meeting for n although fewer have entered. */
  predicate LeavesEarly(s: Room, n: int, t: nat) {
    t in s.phase && s.phase[t] == Leaving(Meet) && s.data.entered < n
  }

  /** With meet and reset in any interleaving, no thread leaves a meeting before as many have entered
      as it was opened for. */
  lemma NobodyLeavesEarly(s: Room, n: int, steps: seq<Step<Op>>, t: nat)
    requires Opened(s, n) && Possible(s, steps, Look) && Unforced(steps)
    ensures !LeavesEarly(After(s, steps, Look), n, t)
  {
    hide After, Possible;
    OpenedGathers(s, n);
    AlwaysGathering(s, 0, steps);
  }

  /** Until then all who came are asleep. */
  lemma AllSleepBefore(s: Room, n: int, steps: seq<Step<Op>>)
    requires Opened(s, n) && Possible(s, steps, Look) && Unforced(steps)
    requires After(s, steps, Look).data.entered < n
    ensures |Sleepers(After(s, steps, Look))| == After(s, steps, Look).data.entered
  {
    hide After, Possible;
    OpenedGathers(s, n);
    AlwaysGathering(s, 0, steps);
  }

  /** A reset with nobody in a meeting: nobody sleeps, has been woken or is on the way out, and no force
      is under way. */
  ghost predicate Resets(s: Room, u: nat) {
    && Exclusive(s) && u in s.phase && s.phase[u] == Locked(Reset)
    && forall t :: t in s.phase && !s.phase[t].Idle? ==>
         s.phase[t].op != Force && !s.phase[t].Sleeping? && !Released(s.phase[t])
  }

  /** Such is every reset by a thread that calls it when all threads are idle. */
  lemma IdleResets(s: Room, u: nat)
    requires s.owner == Free && u in s.phase && forall t :: t in s.phase ==> s.phase[t] == Idle
    ensures Enabled(s, Call(u, Reset)) && Enabled(Next(s, Call(u, Reset), Look), Lock(u))
    ensures Resets(Next(Next(s, Call(u, Reset), Look), Lock(u), Look), u)
  {}

  /** It starts a new round: until again as many have entered as the meeting was opened for, all who
      came sleep and nobody leaves. */
  lemma NextRound(s: Room, u: nat, steps: seq<Step<Op>>, t: nat)
    requires Resets(s, u) && Possible(Next(s, Inspect(u), Look), steps, Look) && Unforced(steps)
    ensures var a := After(Next(s, Inspect(u), Look), steps, Look);
      && !LeavesEarly(a, s.data.entered + s.data.orig, t)
      && (a.data.entered < s.data.entered + s.data.orig ==> |Sleepers(a)| == a.data.entered - s.data.entered)
  {
    var x := Next(s, Inspect(u), Look);
    ExclusiveKept(s, Inspect(u), Look);
    assert Sleepers(x) == {};
    hide After, Possible;
    AlwaysGathering(x, s.data.entered, steps);
  }

  /** Without reset the count is what is still missing. */
  ghost predicate Counting(s: Room) {
    && s.data.count == s.data.orig - s.data.entered
    && forall t :: t in s.phase && !s.phase[t].Idle? ==> s.phase[t].op == Meet
  }

  lemma {:induction false} AlwaysCounting(s: Room, steps: seq<Step<Op>>)
    requires Counting(s) && Possible(s, steps, Look) && Plain(steps)
    ensures Counting(After(s, steps, Look)) && After(s, steps, Look).data.orig == s.data.orig
    decreases |steps|
  {
    if steps != [] {
      assert forall i :: 0 <= i < |steps| - 1 ==> steps[1..][i] == steps[i + 1];
      var n := Next(s, steps[0], Look);
      assert Counting(n);
      hide Counting, Next, Enabled;
      AlwaysCounting(n, steps[1..]);
    }
  }

  /** Whenever the mutex is free, either the meeting is not complete and all who came are asleep, or
      it is and nobody sleeps. */
  lemma AllSleepOrNone(s: Room, n: int, steps: seq<Step<Op>>)
    requires Opened(s, n) && Possible(s, steps, Look) && Plain(steps) && After(s, steps, Look).owner == Free
    ensures var a := After(s, steps, Look);
      if a.data.entered < n then |Sleepers(a)| == a.data.entered else Sleepers(a) == {}
  {
    hide After, Possible;
    AlwaysCounting(s, steps);
    AlwaysNoLostWakeup(s, steps);
    if After(s, steps, Look).data.entered < n {
      AllSleepBefore(s, n, steps);
    }
  }

  /** A force lets its own thread through a meeting of two alone. */
  lemma ForceLeavesEarly(s: Room, n: int, t: nat) returns (steps: seq<Step<Op>>)
    requires Opened(s, n) && n >= 2 && t in s.phase
    ensures Possible(s, steps, Look) && LeavesEarly(After(s, steps, Look), n, t)
    ensures forall i :: 0 <= i < |steps| ==> !steps[i].Spurious?
  {
    var a := Next(s, Call(t, Force), Look);
    var b := Next(a, Lock(t), Look);
    var c := Next(b, Inspect(t), Look);
    var d := Next(c, Wake(t), Look);
    var e := Next(d, Unlock(t), Look);
    assert e.owner == Free && e.data == Data(n, 0, 0) && t in e.phase && e.phase[t] == Idle;
    hide Possible, After;
    steps := ForcedMeet(e, n, t);
    steps := Prepend(d, Unlock(t), steps, Look);
    steps := Prepend(c, Wake(t), steps, Look);
    steps := Prepend(b, Inspect(t), steps, Look);
    steps := Prepend(a, Lock(t), steps, Look);
    steps := Prepend(s, Call(t, Force), steps, Look);
  }

  lemma ForcedMeet(s: Room, n: int, t: nat) returns (steps: seq<Step<Op>>)
    requires s.owner == Free && s.data == Data(n, 0, 0) && n >= 2 && t in s.phase && s.phase[t] == Idle
    ensures Possible(s, steps, Look) && Unforced(steps) && LeavesEarly(After(s, steps, Look), n, t)
  {
    var a := Next(s, Call(t, Meet), Look);
    var b := Next(a, Lock(t), Look);
    var c := Next(b, Inspect(t), Look);
    var d := Next(c, Wake(t), Look);
    assert Possible(d, [], Look) && After(d, [], Look) == d;
    hide Possible, After;
    steps := Prepend(c, Wake(t), [], Look);
    steps := Prepend(b, Inspect(t), steps, Look);
    steps := Prepend(a, Lock(t), steps, Look);
    steps := Prepend(s, Call(t, Meet), steps, Look);
  }

  /** The wait is not repeated, so one spurious wake-up is enough to leave a meeting of two alone. */
  lemma SpuriousLeavesEarly(s: Room, n: int, t: nat) returns (steps: seq<Step<Op>>)
    requires Opened(s, n) && n >= 2 && t in s.phase
    ensures Possible(s, steps, Look) && LeavesEarly(After(s, steps, Look), n, t)
    ensures forall i :: 0 <= i < |steps| && steps[i].Call? ==> steps[i].op == Meet
  {
    var a := Next(s, Call(t, Meet), Look);
    var b := Next(a, Lock(t), Look);
    var c := Next(b, Inspect(t), Look);
    var d := Next(c, Spurious(t), Look);
    var e := Next(d, Relock(t), Look);
    assert Possible(e, [], Look) && After(e, [], Look) == e;
    hide Possible, After;
    steps := Prepend(d, Relock(t), [], Look);
    steps := Prepend(c, Spurious(t), steps, Look);
    steps := Prepend(b, Inspect(t), steps, Look);
    steps := Prepend(a, Lock(t), steps, Look);
    steps := Prepend(s, Call(t, Meet), steps, Look);
  }

  // ----- exactly the steps that let someone leave early -----

  predicate Disturbs(e: Step<Op>) {
    e.Spurious? || (e.Call? && e.op == Force)
  }

  /** The last thread that is waited for holds the mutex and is about to count itself. */
  predicate LastInside(s: Room, n: int) {
    s.owner.By? && s.owner.t in s.phase && s.phase[s.owner.t] == Locked(Meet) && s.data.entered == n - 1
  }

  /** Whoever holds the mutex gives it up before the meeting is complete. */
  ghost predicate Yields(s: Room, n: int) {
    && Exclusive(s) && s.data.entered < n
    && (s.owner.By? ==>
          var p := s.phase[s.owner.t];
          p == Locked(Reset) || p == Leaving(Reset) ||
          (p == Locked(Meet) && s.data.entered + 1 < n && s.data.count > 1))
  }

  function Inwards(s: Room): nat {
    if s.owner.By? && s.owner.t in s.phase then (if s.phase[s.owner.t].Locked? then 2 else 1) else 0
  }

  /** The holder's next step. */
  function Yield(s: Room): (e: Step<Op>)
    requires s.owner.By? && s.owner.t in s.phase
  {
    if s.phase[s.owner.t].Locked? then Inspect(s.owner.t) else Unlock(s.owner.t)
  }

  lemma YieldsOn(s: Room, n: int)
    requires Yields(s, n) && s.owner.By?
    ensures Enabled(s, Yield(s)) && Yields(Next(s, Yield(s), Look), n) && Inwards(Next(s, Yield(s), Look)) < Inwards(s)
    ensures var x := Next(s, Yield(s), Look);
      x.data.orig == s.data.orig && x.phase.Keys == s.phase.Keys &&
      (forall t :: t in s.phase && t != s.owner.t ==> x.phase[t] == s.phase[t]) &&
      (x.data.entered > s.data.entered ==> x.phase[s.owner.t] == Sleeping(Meet))
  {
    ExclusiveKept(s, Yield(s), Look);
  }

  /** A woken thread leaves early as soon as the mutex is free. */
  lemma {:induction false} WokenLeavesEarly(s: Room, n: int, t: nat) returns (steps: seq<Step<Op>>)
    requires Yields(s, n) && t in s.phase && s.phase[t] == Woken(Meet)
    ensures Possible(s, steps, Look) && Unforced(steps) && LeavesEarly(After(s, steps, Look), n, t)
    decreases Inwards(s)
  {
    if s.owner == Free {
      var x := Next(s, Relock(t), Look);
      assert Possible(x, [], Look) && After(x, [], Look) == x;
      steps := Prepend(s, Relock(t), [], Look);
    } else {
      YieldsOn(s, n);
      hide Yields, Possible, After, Next, LeavesEarly;
      var rest := WokenLeavesEarly(Next(s, Yield(s), Look), n, t);
      steps := Prepend(s, Yield(s), rest, Look);
    }
  }

  /** Somebody sleeps, or nobody has come yet. */
  ghost predicate AsleepOrNew(s: Room) {
    (exists v :: v in s.phase && s.phase[v] == Sleeping(Meet)) || s.data.entered == 0
  }

  /** A thread that calls force lets a sleeper leave early, or itself, if nobody has come yet. */
  lemma {:induction false} ForceOpens(s: Room, n: int, t: nat) returns (steps: seq<Step<Op>>, v: nat)
    requires Yields(s, n) && n >= 2 && s.data.orig == n && AsleepOrNew(s)
    requires t in s.phase && s.phase[t] == Entering(Force)
    ensures Possible(s, steps, Look) && Unforced(steps) && LeavesEarly(After(s, steps, Look), n, v)
    decreases Inwards(s)
  {
    if s.owner == Free {
      steps, v := ForceAtOnce(s, n, t);
    } else {
      YieldsOn(s, n);
      var x := Next(s, Yield(s), Look);
      if s.data.entered < x.data.entered {
        assert x.phase[s.owner.t] == Sleeping(Meet);
      }
      hide Yields, Possible, After, Next, LeavesEarly;
      var rest;
      rest, v := ForceOpens(x, n, t);
      steps := Prepend(s, Yield(s), rest, Look);
    }
  }

  /** When a call of force is over. */
  function ForceDone(s: Room, t: nat): Room {
    State(WakeAll(s.phase)[t := Idle], Free, s.data.(count := 0))
  }

  lemma ForceRun(s: Room, t: nat, rest: seq<Step<Op>>) returns (steps: seq<Step<Op>>)
    requires s.owner == Free && t in s.phase && s.phase[t] == Entering(Force)
    requires Possible(ForceDone(s, t), rest, Look) && Unforced(rest)
    ensures Possible(s, steps, Look) && Unforced(steps)
    ensures After(s, steps, Look) == After(ForceDone(s, t), rest, Look)
  {
    var a := Next(s, Lock(t), Look);
    var b := Next(a, Inspect(t), Look);
    var c := Next(b, Wake(t), Look);
    assert Next(c, Unlock(t), Look).phase == ForceDone(s, t).phase;
    assert Next(c, Unlock(t), Look) == ForceDone(s, t);
    hide Possible, After;
    steps := Prepend(c, Unlock(t), rest, Look);
    steps := Prepend(b, Wake(t), steps, Look);
    steps := Prepend(a, Inspect(t), steps, Look);
    steps := Prepend(s, Lock(t), steps, Look);
  }

  lemma ForceAtOnce(s: Room, n: int, t: nat) returns (steps: seq<Step<Op>>, v: nat)
    requires Yields(s, n) && n >= 2 && s.data.orig == n && AsleepOrNew(s) && s.owner == Free
    requires t in s.phase && s.phase[t] == Entering(Force)
    ensures Possible(s, steps, Look) && Unforced(steps) && LeavesEarly(After(s, steps, Look), n, v)
  {
    hide Possible, After, LeavesEarly, Next, Unforced;
    var d := ForceDone(s, t);
    assert Yields(d, n);
    var rest;
    if u :| u in s.phase && s.phase[u] == Sleeping(Meet) {
      v := u;
      rest := WokenLeavesEarly(d, n, v);
    } else {
      v := t;
      rest := ForcedMeet(d, n, t);
    }
    steps := ForceRun(s, t, rest);
  }

  /** Nobody can leave early any more: the meeting is complete, or its last thread is inside. */
  ghost predicate Cornered(s: Room, n: int) {
    && Exclusive(s)
    && (s.data.entered >= n || (LastInside(s, n) && forall t :: t in s.phase ==> s.phase[t] != Leaving(Meet)))
  }

  lemma CorneredKept(s: Room, n: int, e: Step<Op>)
    requires Cornered(s, n) && Enabled(s, e)
    ensures Cornered(Next(s, e, Look), n)
  {
    ExclusiveKept(s, e, Look);
  }

  lemma {:induction false} AlwaysCornered(s: Room, n: int, steps: seq<Step<Op>>)
    requires Cornered(s, n) && Possible(s, steps, Look)
    ensures Cornered(After(s, steps, Look), n)
    decreases |steps|
  {
    hide Cornered, Next, Enabled;
    if steps != [] {
      CorneredKept(s, n, steps[0]);
      AlwaysCornered(Next(s, steps[0], Look), n, steps[1..]);
    }
  }

  /** What a gathering offers to a disturbance. */
  lemma GatheringYields(s: Room, n: int)
    requires Gathering(s, 0) && s.data.orig == n && s.data.entered < n && !LastInside(s, n)
    ensures Yields(s, n) && AsleepOrNew(s)
  {
    if s.data.entered > 0 {
      assert Sleepers(s) != {};
      var v :| v in Sleepers(s);
      assert s.phase[v] == Sleeping(Meet);
    }
  }

  lemma DisturbanceOpens(s: Room, n: int, e: Step<Op>) returns (rest: seq<Step<Op>>, t: nat)
    requires Gathering(s, 0) && s.data.orig == n && n >= 2 && s.data.entered < n && !LastInside(s, n)
    requires Enabled(s, e) && Disturbs(e)
    ensures var x := Next(s, e, Look);
      Possible(x, rest, Look) && Unforced(rest) && LeavesEarly(After(x, rest, Look), n, t)
  {
    GatheringYields(s, n);
    ExclusiveKept(s, e, Look);
    var x := Next(s, e, Look);
    assert Yields(x, n);
    t := e.t;
    if e.Spurious? {
      assert x.phase[t] == Woken(Meet);
      hide Possible, After, LeavesEarly;
      rest := WokenLeavesEarly(x, n, t);
    } else {
      if v :| v in s.phase && s.phase[v] == Sleeping(Meet) {
        assert x.phase[v] == Sleeping(Meet);
      }
      hide Possible, After, LeavesEarly;
      rest, t := ForceOpens(x, n, t);
    }
  }

  /** After any run of meet and reset, while fewer than n have entered, a step opens the way to leaving
      early, without another disturbance, if and only if it is a spurious wake-up or a call of force,
      and not too late for it: the last thread is not inside already. */
  lemma LeavesEarlyIff(s: Room, n: int, steps: seq<Step<Op>>, e: Step<Op>)
    requires Opened(s, n) && n >= 2 && Possible(s, steps, Look) && Unforced(steps)
    requires After(s, steps, Look).data.entered < n && Enabled(After(s, steps, Look), e)
    ensures var x := Next(After(s, steps, Look), e, Look);
      (exists rest, t :: Possible(x, rest, Look) && Unforced(rest) && LeavesEarly(After(x, rest, Look), n, t)) <==>
      Disturbs(e) && !LastInside(After(s, steps, Look), n)
  {
    OpenedGathers(s, n);
    AlwaysGathering(s, 0, steps);
    var a := After(s, steps, Look);
    var x := Next(a, e, Look);
    assert x.data.orig == n;
    if Disturbs(e) && !LastInside(a, n) {
      hide Possible, After, LeavesEarly, Gathering;
      var rest, t := DisturbanceOpens(a, n, e);
      assert LeavesEarly(After(x, rest, Look), n, t);
    } else if Disturbs(e) {
      ExclusiveKept(a, e, Look);
      assert Cornered(x, n);
      hide Possible, After, Unforced;
      forall rest, t | Possible(x, rest, Look) ensures !LeavesEarly(After(x, rest, Look), n, t) {
        AlwaysCornered(x, n, rest);
      }
    } else {
      GatheringKept(a, 0, e);
      hide Possible, After, Unforced;
      forall rest, t | Possible(x, rest, Look) && Unforced(rest) ensures !LeavesEarly(After(x, rest, Look), n, t) {
        AlwaysGathering(x, 0, rest);
      }
    }
  }
}

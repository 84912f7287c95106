/** interface/inc/pause.h: every interleaving of testing, pausing and resuming. */
module Pause {
  import opened Monitor

  datatype Op = Test | On | Off

  /** What Pause_test, Pause_on and Pause_off do under the mutex; the data is the pause flag. */
  function Look(pause: bool, op: Op): (bool, Decision) {
    match op
    case Test => (pause, if pause then Sleep else Leave)
    case On => (true, Leave)
    case Off => (false, if pause then Broadcast else Leave)
  }

  type Gate = State<Op, bool>

  /** Pause_open, before any call. */
  ghost predicate Opened(s: Gate) {
    s.owner == Free && !s.data && forall t :: t in s.phase ==> s.phase[t] == Idle
  }

  /** A thread sleeps only while the pause is on, unless its wake-up is already under way. */
  ghost predicate NoLostWakeup(s: Gate) {
    && Exclusive(s)
    && ((exists t :: t in s.phase && s.phase[t].Sleeping?) ==>
        s.data || (s.owner.By? && s.owner.t in s.phase && s.phase[s.owner.t].Broadcasting?))
  }

  lemma WakeupKept(s: Gate, e: Step<Op>)
    requires NoLostWakeup(s) && Enabled(s, e)
    ensures NoLostWakeup(Next(s, e, Look))
  {
    ExclusiveKept(s, e, Look);
    var n := Next(s, e, Look);
    if t :| t in n.phase && n.phase[t].Sleeping? {
      assert t == e.t || s.phase[t].Sleeping?;
    }
  }

  /** Whatever the interleaving, whoever sleeps when the mutex is free does so under a pause. */
  lemma SleepsOnlyWhilePaused(s: Gate, steps: seq<Step<Op>>, t: nat)
    requires Opened(s) && Possible(s, steps, Look) && After(s, steps, Look).owner == Free
    requires t in After(s, steps, Look).phase && After(s, steps, Look).phase[t].Sleeping?
    ensures After(s, steps, Look).data
  {
    assert NoLostWakeup(s);
    hide Enabled, Next, Possible, After;
    forall x: Gate, e | NoLostWakeup(x) && Enabled(x, e) ensures NoLostWakeup(Next(x, e, Look)) {
      WakeupKept(x, e);
    }
    KeptOnRun(s, steps, Look, x => NoLostWakeup(x));
  }

  // ----- leaving -----

  /** Thread t is on its way out of Pause_test while the pause is on. */
  predicate LeavesPaused(s: Gate, t: nat) {
    t in s.phase && s.phase[t] == Leaving(Test) && s.data
  }

  predicate AnyWoken(s: Gate) {
    exists t :: t in s.phase && s.phase[t].Woken?
  }

  /** The step switches the pause on while a thread that was resumed still waits for the mutex. */
  predicate Overtakes(s: Gate, e: Step<Op>) {
    e.Inspect? && e.t in s.phase && s.phase[e.t] == Locked(On) && AnyWoken(s)
  }

  /** A run without spurious wake-ups in which no Pause_on overtakes a resumed thread. */
  ghost predicate Orderly(s: Gate, steps: seq<Step<Op>>)
    requires Possible(s, steps, Look)
    decreases |steps|
  {
    steps == [] ||
    (!steps[0].Spurious? && !Overtakes(s, steps[0]) && Orderly(Next(s, steps[0], Look), steps[1..]))
  }

  /** Whoever was resumed, or is about to be, finds the pause off; so does whoever leaves a test. */
  ghost predicate ResumedUnpaused(s: Gate) {
    && Exclusive(s)
    && (forall t :: t in s.phase && (s.phase[t].Sleeping? || s.phase[t].Woken?) ==> s.phase[t].op == Test)
    && (forall t :: t in s.phase && (s.phase[t].Broadcasting? || s.phase[t].Woken? || s.phase[t] == Leaving(Test)) ==>
        !s.data)
  }

  lemma ResumedKept(s: Gate, e: Step<Op>)
    requires ResumedUnpaused(s) && Enabled(s, e) && !e.Spurious? && !Overtakes(s, e)
    ensures ResumedUnpaused(Next(s, e, Look))
  {
    ExclusiveKept(s, e, Look);
  }

  lemma {:induction false} AlwaysResumedUnpaused(s: Gate, steps: seq<Step<Op>>)
    requires ResumedUnpaused(s) && Possible(s, steps, Look) && Orderly(s, steps)
    ensures ResumedUnpaused(After(s, steps, Look))
    decreases |steps|
  {
    hide ResumedUnpaused, Overtakes, Enabled, Next;
    if steps != [] {
      ResumedKept(s, steps[0]);
      AlwaysResumedUnpaused(Next(s, steps[0], Look), steps[1..]);
    }
  }

  /** On every orderly run, whoever leaves Pause_test does so while the pause is off. */
  lemma LeavesOnlyUnpaused(s: Gate, steps: seq<Step<Op>>, t: nat)
    requires Opened(s) && Possible(s, steps, Look) && Orderly(s, steps)
    ensures !LeavesPaused(After(s, steps, Look), t)
  {
    hide After, Possible, Orderly;
    AlwaysResumedUnpaused(s, steps);
  }

  /** A Pause_on that overtakes a resumed test lets that test leave under the pause, with no spurious
      wake-up and no further overtaking. */
  lemma OvertakenLeavesPaused(s: Gate, u: nat, t: nat) returns (rest: seq<Step<Op>>)
    requires Exclusive(s) && Enabled(s, Inspect(u)) && Overtakes(s, Inspect(u))
    requires t in s.phase && s.phase[t] == Woken(Test)
    ensures var n := Next(s, Inspect(u), Look);
      Possible(n, rest, Look) && Orderly(n, rest) && LeavesPaused(After(n, rest, Look), t)
  {
    var a := Next(s, Inspect(u), Look);
    var b := Next(a, Unlock(u), Look);
    var c := Next(b, Relock(t), Look);
    assert Possible(c, [], Look) && After(c, [], Look) == c && Orderly(c, []);
    hide After;
    var last := Prepend(b, Relock(t), [], Look);
    assert last[1..] == [] && Orderly(b, last);
    rest := Prepend(a, Unlock(u), last, Look);
    assert rest[1..] == last;
  }

  /** After an orderly run, a step opens the way to leaving a test under the pause, without spurious
      wake-ups and without a later overtaking, if and only if it overtakes a resumed thread itself. */
  lemma LeavesPausedIff(s: Gate, steps: seq<Step<Op>>, e: Step<Op>)
    requires Opened(s) && Possible(s, steps, Look) && Orderly(s, steps)
    requires Enabled(After(s, steps, Look), e) && !e.Spurious?
    ensures var n := Next(After(s, steps, Look), e, Look);
      Overtakes(After(s, steps, Look), e) <==>
      exists rest, t :: Possible(n, rest, Look) && Orderly(n, rest) && LeavesPaused(After(n, rest, Look), t)
  {
    var x := After(s, steps, Look);
    AlwaysResumedUnpaused(s, steps);
    var n := Next(x, e, Look);
    hide After, Possible, Orderly, Next, Enabled;
    if Overtakes(x, e) {
      var t :| t in x.phase && x.phase[t].Woken?;
      var rest := OvertakenLeavesPaused(x, e.t, t);
      assert LeavesPaused(After(n, rest, Look), t);
    } else {
      ResumedKept(x, e);
      forall rest, t | Possible(n, rest, Look) && Orderly(n, rest) ensures !LeavesPaused(After(n, rest, Look), t) {
        AlwaysResumedUnpaused(n, rest);
      }
    }
  }

  /** A thread that has been woken leaves under a pause switched on before it got the mutex. */
  lemma PausedBeforeRelock(s: Gate, t: nat, u: nat) returns (steps: seq<Step<Op>>)
    requires s.owner == Free && t in s.phase && u in s.phase && s.phase[t] == Woken(Test) && s.phase[u] == Idle
    ensures Possible(s, steps, Look) && LeavesPaused(After(s, steps, Look), t)
    ensures forall i :: 0 <= i < |steps| ==> !steps[i].Spurious?
  {
    var f := Next(s, Call(u, On), Look);
    var g := Next(f, Lock(u), Look);
    var h := Next(g, Inspect(u), Look);
    var i := Next(h, Unlock(u), Look);
    var j := Next(i, Relock(t), Look);
    assert Possible(j, [], Look) && After(j, [], Look) == j;
    hide Possible, After;
    steps := Prepend(i, Relock(t), [], Look);
    steps := Prepend(h, Unlock(u), steps, Look);
    steps := Prepend(g, Inspect(u), steps, Look);
    steps := Prepend(f, Lock(u), steps, Look);
    steps := Prepend(s, Call(u, On), steps, Look);
  }

  /** The flag is not tested again after the wait: a thread that was resumed leaves Pause_test even
      if the pause is on again before it gets the mutex. No spurious wake-up is needed. */
  lemma ResumedLeavesPaused(s: Gate, t: nat, u: nat) returns (steps: seq<Step<Op>>)
    requires s.owner == Free && s.data && t in s.phase && u in s.phase
    requires s.phase[t] == Sleeping(Test) && s.phase[u] == Idle
    ensures Possible(s, steps, Look) && LeavesPaused(After(s, steps, Look), t)
    ensures forall i :: 0 <= i < |steps| ==> !steps[i].Spurious?
  {
    var a := Next(s, Call(u, Off), Look);
    var b := Next(a, Lock(u), Look);
    var c := Next(b, Inspect(u), Look);
    var d := Next(c, Wake(u), Look);
    assert d.phase[t] == Woken(Test) && d.phase[u] == Leaving(Off);
    var e := Next(d, Unlock(u), Look);
    hide Possible, After;
    steps := PausedBeforeRelock(e, t, u);
    steps := Prepend(d, Unlock(u), steps, Look);
    steps := Prepend(c, Wake(u), steps, Look);
    steps := Prepend(b, Inspect(u), steps, Look);
    steps := Prepend(a, Lock(u), steps, Look);
    steps := Prepend(s, Call(u, Off), steps, Look);
  }
}

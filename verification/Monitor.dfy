/** One mutex and one condition variable, as interface/inc/rendezvous.h and interface/inc/pause.h
    use them: every call locks, looks at the data once, then sleeps, broadcasts or leaves. Threads
    interleave between all of these. */
module Monitor {

  /** Where a thread stands in a call of op. `Woken` has been signalled and waits for the mutex. */
  datatype Phase<Op> = Idle | Entering(op: Op) | Locked(op: Op) | Broadcasting(op: Op) | Leaving(op: Op) |
    Sleeping(op: Op) | Woken(op: Op)

  datatype Owner = Free | By(t: nat)

  datatype State<Op, D> = State(phase: map<nat, Phase<Op>>, owner: Owner, data: D)

  /** What a call does once it has looked at the data. */
  datatype Decision = Sleep | Broadcast | Leave

  predicate Holds<Op>(p: Phase<Op>) {
    p.Locked? || p.Broadcasting? || p.Leaving?
  }

  /** The mutex is held by the one thread inside, if any. */
  ghost predicate Exclusive<Op, D>(s: State<Op, D>) {
    && (forall t :: t in s.phase ==> (Holds(s.phase[t]) <==> s.owner == By(t)))
    && (s.owner.By? ==> s.owner.t in s.phase)
  }

  datatype Step<Op> =
    | Call(t: nat, op: Op)
    | Lock(t: nat)
    | Inspect(t: nat)
    | Wake(t: nat)
    | Relock(t: nat)
    | Unlock(t: nat)
    | Spurious(t: nat)

  predicate Enabled<Op, D>(s: State<Op, D>, e: Step<Op>) {
    e.t in s.phase &&
    match e
    case Call(t, _) => s.phase[t].Idle?
    case Lock(t) => s.phase[t].Entering? && s.owner == Free
    case Inspect(t) => s.phase[t].Locked? && s.owner == By(t)
    case Wake(t) => s.phase[t].Broadcasting? && s.owner == By(t)
    case Relock(t) => s.phase[t].Woken? && s.owner == Free
    case Unlock(t) => s.phase[t].Leaving? && s.owner == By(t)
    case Spurious(t) => s.phase[t].Sleeping?
  }

  function WakeAll<Op>(phase: map<nat, Phase<Op>>): (woken: map<nat, Phase<Op>>)
    ensures woken.Keys == phase.Keys
  {
    map t | t in phase :: if phase[t].Sleeping? then Woken(phase[t].op) else phase[t]
  }

  /** The step, given what a call does to the data and decides. pthread_cond_wait gives up the mutex. */
  function Next<Op, D>(s: State<Op, D>, e: Step<Op>, look: (D, Op) -> (D, Decision)): State<Op, D>
    requires Enabled(s, e)
  {
    match e
    case Call(t, op) => s.(phase := s.phase[t := Entering(op)])
    case Lock(t) => s.(phase := s.phase[t := Locked(s.phase[t].op)], owner := By(t))
    case Inspect(t) =>
      var op := s.phase[t].op;
      var (d, decision) := look(s.data, op);
      (match decision
       case Sleep => State(s.phase[t := Sleeping(op)], Free, d)
       case Broadcast => State(s.phase[t := Broadcasting(op)], s.owner, d)
       case Leave => State(s.phase[t := Leaving(op)], s.owner, d))
    case Wake(t) => s.(phase := WakeAll(s.phase)[t := Leaving(s.phase[t].op)])
    case Relock(t) => s.(phase := s.phase[t := Leaving(s.phase[t].op)], owner := By(t))
    case Unlock(t) => s.(phase := s.phase[t := Idle], owner := Free)
    case Spurious(t) => s.(phase := s.phase[t := Woken(s.phase[t].op)])
  }

  lemma ExclusiveKept<Op, D>(s: State<Op, D>, e: Step<Op>, look: (D, Op) -> (D, Decision))
    requires Exclusive(s) && Enabled(s, e)
    ensures Exclusive(Next(s, e, look))
  {
  }

  /** A run is possible when each step is enabled in the state before it. */
  ghost predicate Possible<Op, D>(s: State<Op, D>, steps: seq<Step<Op>>, look: (D, Op) -> (D, Decision))
    decreases |steps|
  {
    steps == [] || (Enabled(s, steps[0]) && Possible(Next(s, steps[0], look), steps[1..], look))
  }

  ghost function After<Op, D>(s: State<Op, D>, steps: seq<Step<Op>>, look: (D, Op) -> (D, Decision)): State<Op, D>
    requires Possible(s, steps, look)
    decreases |steps|
  {
    if steps == [] then s else After(Next(s, steps[0], look), steps[1..], look)
  }

  lemma Prepend<Op, D>(s: State<Op, D>, e: Step<Op>, rest: seq<Step<Op>>, look: (D, Op) -> (D, Decision))
    returns (steps: seq<Step<Op>>)
    requires Enabled(s, e) && Possible(Next(s, e, look), rest, look)
    ensures steps == [e] + rest && Possible(s, steps, look)
    ensures After(s, steps, look) == After(Next(s, e, look), rest, look)
  {
    steps := [e] + rest;
    assert steps[1..] == rest;
  }

  /** What every step keeps holds on every run. */
  lemma {:induction false} KeptOnRun<Op, D>(s: State<Op, D>, steps: seq<Step<Op>>, look: (D, Op) -> (D, Decision),
                                            inv: State<Op, D> -> bool)
    requires forall x, e :: inv(x) && Enabled(x, e) ==> inv(Next(x, e, look))
    requires inv(s) && Possible(s, steps, look)
    ensures inv(After(s, steps, look))
    decreases |steps|
  {
    if steps != [] {
      KeptOnRun(Next(s, steps[0], look), steps[1..], look, inv);
    }
  }
}

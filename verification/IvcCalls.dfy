/** Hypercalls of several virtual machines at once: each takes the table's lock for one step at a time. */
module IvcCalls {
  import opened Basics
  import opened Ivc
  import opened IvcTable

  /** How far a call has come: before its first access, between its two accesses, or returned. */
  datatype Phase = Entered | Halfway | Returned(ok: bool)

  datatype Call = Call(vm: nat, what: HyperCall, env: Env, phase: Phase)

  datatype System = System(state: State, calls: map<nat, Call>)

  const IDLE := System(INITIAL, map[])

  /** A new call arrives, or a call in progress goes on to its next access to the table. */
  datatype Move = Arrive(id: nat, vm: nat, what: HyperCall, env: Env) | Go(id: nat)

  predicate CanAlloc(env: Env) {
    env.guestSize.Some? && env.region.Some? && env.frame.Some?
  }

  /** The allocator hands out free frames only; that is the one thing asked of the surroundings. */
  predicate Possible(sys: System, m: Move) {
    match m
    case Arrive(id, _, _, _) => id !in sys.calls
    case Go(id) =>
      && id in sys.calls && !sys.calls[id].phase.Returned?
      && (sys.calls[id].what.HPublish? && sys.calls[id].phase.Entered? && CanAlloc(sys.calls[id].env)
          ==> sys.calls[id].env.frame.value !in sys.state.live)
  }

  /** The table step a call takes next, if any. A subscription only looks at the table first. */
  function StepOf(s: State, id: nat, c: Call): Option<Step>
    requires !c.phase.Returned?
  {
    match c.what
    case HPublish(key) =>
      if c.phase.Halfway? then Some(if Delivers(c.env) then Insert(id) else Abandon(id))
      else if CanAlloc(c.env) then
        Some(Alloc(id, c.vm, key, c.env.region.value.1, c.env.region.value.0, c.env.frame.value))
      else None
    case HUnpublish(key) => Some(Unpublish(c.vm, key))
    case HSubscribe(publisher, key) =>
      if c.phase.Halfway? && c.env.region.Some?
      then Some(Subscribe(publisher, key, c.vm, c.env.region.value.0)) else None
    case HUnsubscribe(publisher, key) => Some(Unsubscribe(publisher, key, c.vm))
    case HOther => None
  }

  /** Where a call is after that access, given the reply it got. */
  function PhaseAfter(s: State, c: Call, reply: Option<Reply>): Phase {
    match c.what
    case HPublish(_) =>
      if c.phase.Halfway? then Returned(Delivers(c.env) && reply == Some(Done))
      else if reply.Some? then Halfway else Returned(false)
    case HUnpublish(_) => Returned(reply.Some? && reply.value.Region? && c.env.unmapOk)
    case HSubscribe(publisher, key) =>
      if c.phase.Halfway? then Returned(reply.Some? && reply.value.Mapping? && Delivers(c.env))
      else if (publisher, key) in s.table && c.env.region.Some? then Halfway else Returned(false)
    case HUnsubscribe(_, _) => Returned(reply.Some? && reply.value.Region? && c.env.unmapOk)
    case HOther => Returned(false)
  }

  /** A publishing call that has its frame and has not inserted its channel. */
  predicate Holds(sys: System, id: nat) {
    id in sys.calls && sys.calls[id].what.HPublish? && sys.calls[id].phase.Halfway?
  }

  /** The channels outside the table are those of the publishing calls that are halfway. */
  ghost predicate SysInv(sys: System) {
    && Inv(sys.state)
    && forall id :: id in sys.state.pending <==> Holds(sys, id)
  }

  lemma {:induction false} StepEnabled(sys: System, id: nat)
    requires SysInv(sys) && Possible(sys, Go(id))
    ensures var step := StepOf(sys.state, id, sys.calls[id]);
      step.Some? ==> Enabled(sys.state, step.value)
  {
  }

  ghost function After(sys: System, m: Move): System
    requires SysInv(sys) && Possible(sys, m)
  {
    match m
    case Arrive(id, vm, what, env) => sys.(calls := sys.calls[id := Call(vm, what, env, Entered)])
    case Go(id) =>
      var c := sys.calls[id];
      StepEnabled(sys, id);
      match StepOf(sys.state, id, c) {
        case None => sys.(calls := sys.calls[id := c.(phase := PhaseAfter(sys.state, c, None))])
        case Some(step) =>
          var (s', reply) := Next(sys.state, step);
          System(s', sys.calls[id := c.(phase := PhaseAfter(sys.state, c, Some(reply)))])
      }
  }

  lemma {:induction false} PendingAfter(s: State, step: Step)
    requires Enabled(s, step)
    ensures Next(s, step).0.pending.Keys ==
      match step
      case Alloc(call, _, _, _, _, _) => s.pending.Keys + {call}
      case Abandon(call) => s.pending.Keys - {call}
      case Insert(call) => s.pending.Keys - {call}
      case _ => s.pending.Keys
  {
  }

  /** After a call has gone on, it holds a channel or not as its new phase says, and no other call is affected. */
  lemma {:induction false} GoHolds(sys: System, id: nat, other: nat)
    requires SysInv(sys) && Possible(sys, Go(id))
    ensures other in After(sys, Go(id)).state.pending <==> Holds(After(sys, Go(id)), other)
  {
    StepEnabled(sys, id);
    var step := StepOf(sys.state, id, sys.calls[id]);
    if step.Some? {
      PendingAfter(sys.state, step.value);
    }
  }

  lemma {:induction false} MoveKeeps(sys: System, m: Move)
    requires SysInv(sys) && Possible(sys, m)
    ensures SysInv(After(sys, m))
  {
    if m.Go? {
      StepEnabled(sys, m.id);
      var step := StepOf(sys.state, m.id, sys.calls[m.id]);
      if step.Some? {
        InvStep(sys.state, step.value);
      }
      forall other ensures other in After(sys, m).state.pending <==> Holds(After(sys, m), other) {
        GoHolds(sys, m.id, other);
      }
    }
  }

  ghost predicate IsSchedule(sys: System, moves: seq<Move>)
    requires SysInv(sys)
    decreases |moves|
  {
    moves == [] ||
    (Possible(sys, moves[0]) && (MoveKeeps(sys, moves[0]); IsSchedule(After(sys, moves[0]), moves[1..])))
  }

  ghost function RunAll(sys: System, moves: seq<Move>): (r: System)
    requires SysInv(sys) && IsSchedule(sys, moves)
    ensures SysInv(r)
    decreases |moves|
  {
    if moves == [] then sys else MoveKeeps(sys, moves[0]); RunAll(After(sys, moves[0]), moves[1..])
  }

  /** However calls interleave, what the table goes through is a run of its steps. */
  lemma {:induction false} ScheduleIsRun(sys: System, moves: seq<Move>) returns (steps: seq<Step>)
    requires SysInv(sys) && IsSchedule(sys, moves)
    ensures IsRun(sys.state, steps) && Run(sys.state, steps) == RunAll(sys, moves).state
    decreases |moves|
  {
    if moves == [] {
      steps := [];
    } else {
      var m := moves[0];
      MoveKeeps(sys, m);
      var rest := ScheduleIsRun(After(sys, m), moves[1..]);
      steps := rest;
      if m.Go? {
        StepEnabled(sys, m.id);
        var step := StepOf(sys.state, m.id, sys.calls[m.id]);
        if step.Some? {
          steps := [step.value] + rest;
          assert steps[1..] == rest;
        }
      }
    }
  }

  /** When every call has returned, whatever their order, each live frame belongs to a channel in the table. */
  lemma {:induction false} QuietOwnsTable(moves: seq<Move>, f: nat)
    requires IsSchedule(IDLE, moves)
    requires forall id :: id in RunAll(IDLE, moves).calls ==> RunAll(IDLE, moves).calls[id].phase.Returned?
    ensures var s := RunAll(IDLE, moves).state;
      f in s.live <==> exists k :: k in s.table && s.table[k].frame == f
  {
    var sys := RunAll(IDLE, moves);
    assert sys.state.pending.Keys == {};
    assert f in sys.state.live <==> Owned(sys.state, f);
  }

  /** The moves of a call that nobody interrupts. */
  function Alone(s: State, id: nat, vm: nat, what: HyperCall, env: Env): seq<Move> {
    var twice :=
      match what
      case HPublish(_) => CanAlloc(env)
      case HSubscribe(publisher, key) => (publisher, key) in s.table && env.region.Some?
      case _ => false;
    [Arrive(id, vm, what, env), Go(id)] + if twice then [Go(id)] else []
  }

  lemma {:induction false} OneMove(sys: System, a: Move)
    requires SysInv(sys) && Possible(sys, a)
    ensures IsSchedule(sys, [a]) && RunAll(sys, [a]) == After(sys, a)
  {
    MoveKeeps(sys, a);
    assert [a][1..] == [];
  }

  lemma {:induction false} FirstMove(sys: System, a: Move, rest: seq<Move>)
    requires SysInv(sys) && Possible(sys, a)
    requires SysInv(After(sys, a)) && IsSchedule(After(sys, a), rest)
    ensures IsSchedule(sys, [a] + rest) && RunAll(sys, [a] + rest) == RunAll(After(sys, a), rest)
  {
    MoveKeeps(sys, a);
    assert ([a] + rest)[1..] == rest;
  }

  /** Uninterrupted, a call does what `execute` does in one go. */
  lemma {:induction false} AloneIsExecute(sys: System, id: nat, vm: nat, what: HyperCall, env: Env)
    requires SysInv(sys) && id !in sys.calls && (env.frame.Some? ==> env.frame.value !in sys.state.live)
    ensures var moves, script := Alone(sys.state, id, vm, what, env), Script(sys.state, id, vm, what, env);
      && IsSchedule(sys, moves) && IsRun(sys.state, script.0)
      && RunAll(sys, moves).state == Run(sys.state, script.0)
      && RunAll(sys, moves).calls == sys.calls[id := Call(vm, what, env, Returned(script.1))]
  {
    var moves := Alone(sys.state, id, vm, what, env);
    var arrived := After(sys, moves[0]);
    MoveKeeps(sys, moves[0]);
    MoveKeeps(arrived, Go(id));
    if |moves| == 2 {
      OneMove(arrived, Go(id));
      FirstMove(sys, moves[0], [Go(id)]);
      assert moves == [moves[0]] + [Go(id)];
      OneGo(sys, id, vm, what, env);
    } else {
      if what.HPublish? {
        PublishGoes(sys, id, vm, what.key, env);
      } else {
        SubscribeGoes(sys, id, vm, what.publisher, what.key, env);
      }
      var half := After(arrived, Go(id));
      OneMove(half, Go(id));
      FirstMove(arrived, Go(id), [Go(id)]);
      FirstMove(sys, moves[0], [Go(id)] + [Go(id)]);
      assert moves == [moves[0]] + ([Go(id)] + [Go(id)]);
    }
  }

  /** A call with at most one access to the table. */
  lemma {:induction false} OneGo(sys: System, id: nat, vm: nat, what: HyperCall, env: Env)
    requires SysInv(sys) && id !in sys.calls && (env.frame.Some? ==> env.frame.value !in sys.state.live)
    requires |Alone(sys.state, id, vm, what, env)| == 2
    ensures var arrived, script := After(sys, Arrive(id, vm, what, env)), Script(sys.state, id, vm, what, env);
      && SysInv(arrived) && Possible(arrived, Go(id)) && IsRun(sys.state, script.0)
      && After(arrived, Go(id))
         == System(Run(sys.state, script.0), sys.calls[id := Call(vm, what, env, Returned(script.1))])
  {
    var arrived, script := After(sys, Arrive(id, vm, what, env)), Script(sys.state, id, vm, what, env);
    MoveKeeps(sys, Arrive(id, vm, what, env));
    if script.0 != [] {
      OneStep(sys.state, script.0[0]);
    }
    var c := Call(vm, what, env, Returned(script.1));
    assert arrived.calls[id := c] == sys.calls[id := c];
  }

  /** Two accesses to the table lead where the script leads. */
  ghost predicate GoesTwice(sys: System, id: nat, vm: nat, what: HyperCall, env: Env)
    requires SysInv(sys) && id !in sys.calls
  {
    var arrived, script := After(sys, Arrive(id, vm, what, env)), Script(sys.state, id, vm, what, env);
    && SysInv(arrived) && Possible(arrived, Go(id)) && IsRun(sys.state, script.0)
    && var half := After(arrived, Go(id));
    && SysInv(half) && Possible(half, Go(id))
    && After(half, Go(id))
       == System(Run(sys.state, script.0), sys.calls[id := Call(vm, what, env, Returned(script.1))])
  }

  lemma {:induction false} Overwritten(calls: map<nat, Call>, id: nat, a: Call, b: Call, c: Call)
    ensures calls[id := a][id := b][id := c] == calls[id := c]
  {
  }

  lemma {:induction false} PublishGoes(sys: System, id: nat, vm: nat, key: nat, env: Env)
    requires SysInv(sys) && id !in sys.calls && CanAlloc(env) && env.frame.value !in sys.state.live
    ensures GoesTwice(sys, id, vm, HPublish(key), env)
  {
    var what := HPublish(key);
    var arrived, script := After(sys, Arrive(id, vm, what, env)), Script(sys.state, id, vm, what, env);
    MoveKeeps(sys, Arrive(id, vm, what, env));
    MoveKeeps(arrived, Go(id));
    Overwritten(sys.calls, id, Call(vm, what, env, Entered), Call(vm, what, env, Halfway),
                Call(vm, what, env, Returned(script.1)));
    TwoSteps(sys.state, script.0[0], script.0[1]);
  }

  lemma {:induction false} SubscribeGoes(sys: System, id: nat, vm: nat, publisher: nat, key: nat, env: Env)
    requires SysInv(sys) && id !in sys.calls && (publisher, key) in sys.state.table && env.region.Some?
    ensures GoesTwice(sys, id, vm, HSubscribe(publisher, key), env)
  {
    var what := HSubscribe(publisher, key);
    var arrived, script := After(sys, Arrive(id, vm, what, env)), Script(sys.state, id, vm, what, env);
    MoveKeeps(sys, Arrive(id, vm, what, env));
    MoveKeeps(arrived, Go(id));
    Overwritten(sys.calls, id, Call(vm, what, env, Entered), Call(vm, what, env, Halfway),
                Call(vm, what, env, Returned(script.1)));
    OneStep(sys.state, script.0[0]);
  }
}

/** The channel table as an object, and the hypercalls that work on it. */
module IvcTable {
  import opened Basics
  import opened Ivc

  /** The page frames handed out and not returned. Returning a frame twice is ruled out by `Dealloc`. */
  class FramePool {
    var live: set<nat>

    method Dealloc(frame: nat)
      requires frame in live
      modifies this
      ensures live == old(live) - {frame}
    {
      live := live - {frame};
    }
  }

  class ChannelTable {
    var channels: map<Key, Channel>
    /** Channels that a publishing call still holds in a local variable. */
    var pending: map<nat, Channel>
    const frames: FramePool

    ghost function Now(): State reads this, frames {
      State(channels, pending, frames.live)
    }

    constructor (frames: FramePool)
      requires frames.live == {}
      ensures Now() == INITIAL && Inv(Now()) && this.frames == frames
    {
      channels, pending := map[], map[];
      this.frames := frames;
    }

    /** `IVCChannel::alloc`, given the allocator's answer. */
    method AllocChannel(call: nat, vm: nat, key: nat, size: nat, gpa: nat, answer: Option<nat>) returns (ok: bool)
      requires Inv(Now()) && call !in pending && (answer.Some? ==> answer.value !in frames.live)
      modifies this, frames
      ensures Inv(Now()) && ok == answer.Some?
      ensures ok ==> Now() == Next(old(Now()), Alloc(call, vm, key, size, gpa, answer.value)).0
      ensures !ok ==> Now() == old(Now())
    {
      ok := answer.Some?;
      if ok {
        InvStep(Now(), Alloc(call, vm, key, size, gpa, answer.value));
        frames.live := frames.live + {answer.value};
        pending := pending[call := Channel(vm, key, map[], answer.value, Min(size, MAX_SIZE), Some(gpa))];
      }
    }

    /** An error return before insertion drops the channel. */
    method DropPending(call: nat)
      requires Inv(Now()) && call in pending
      modifies this, frames
      ensures Inv(Now()) && Now() == Next(old(Now()), Abandon(call)).0
    {
      InvAbandon(Now(), call);
      var channel := pending[call];
      pending := pending - {call};
      frames.Dealloc(channel.frame);
    }

    method InsertChannel(call: nat) returns (reply: Reply)
      requires Inv(Now()) && call in pending
      modifies this, frames
      ensures Inv(Now()) && (Now(), reply) == Next(old(Now()), Insert(call))
    {
      InvStep(Now(), Insert(call));
      var channel := pending[call];
      var k := (channel.publisher, channel.key);
      pending := pending - {call};
      if k in channels {
        var replaced := channels[k];
        assert Owned(old(Now()), replaced.frame);
        channels := channels[k := channel];
        frames.Dealloc(replaced.frame);
        reply := AlreadyExists;
      } else {
        channels := channels[k := channel];
        reply := Done;
      }
    }

    method UnpublishChannel(vm: nat, key: nat) returns (reply: Reply)
      requires Inv(Now())
      modifies this, frames
      ensures Inv(Now()) && (Now(), reply) == Next(old(Now()), Unpublish(vm, key))
    {
      InvUnpublish(Now(), vm, key);
      var k := (vm, key);
      if k !in channels {
        return NotFound;
      }
      InvRemove(Now(), k);
      var channel := channels[k];
      channels := channels - {k};
      if channel.gpa.None? {
        frames.Dealloc(channel.frame);
        return NotFound;
      }
      reply := Region(channel.gpa.value, channel.size);
      if channel.subscribers != map[] {
        channels := channels[k := channel.(gpa := None)];
        assert channels == old(channels)[k := channel.(gpa := None)];
      } else {
        frames.Dealloc(channel.frame);
      }
    }

    /** The size that a subscription made now is mapped with, and none if such a subscription fails. */
    method GetChannelSize(publisher: nat, key: nat) returns (size: Option<nat>)
      requires Inv(Now())
      ensures size.Some? ==> size.value <= MAX_SIZE
      ensures forall vm, gpa ::
        var reply := Next(Now(), Subscribe(publisher, key, vm, gpa)).1;
        if size.Some? then reply.Mapping? && reply.size == size.value && reply.frame in frames.live
        else reply == NotFound
    {
      if (publisher, key) in channels {
        assert Owned(Now(), channels[(publisher, key)].frame);
      }
      size := if (publisher, key) in channels then Some(channels[(publisher, key)].size) else None;
    }

    method SubscribeTo(publisher: nat, key: nat, vm: nat, gpa: nat) returns (reply: Reply)
      requires Inv(Now())
      modifies this
      ensures Inv(Now()) && (Now(), reply) == Next(old(Now()), Subscribe(publisher, key, vm, gpa))
    {
      InvStep(Now(), Subscribe(publisher, key, vm, gpa));
      var k := (publisher, key);
      if k !in channels {
        return NotFound;
      }
      var channel := channels[k];
      if vm !in channel.subscribers {
        channel := channel.(subscribers := channel.subscribers[vm := gpa]);
      }
      channels := channels[k := channel];
      reply := Mapping(channel.frame, channel.size);
    }

    method UnsubscribeFrom(publisher: nat, key: nat, vm: nat) returns (reply: Reply)
      requires Inv(Now())
      modifies this, frames
      ensures Inv(Now()) && (Now(), reply) == Next(old(Now()), Unsubscribe(publisher, key, vm))
    {
      InvUnsubscribe(Now(), publisher, key, vm);
      var k := (publisher, key);
      if k !in channels || vm !in channels[k].subscribers {
        return NotFound;
      }
      InvRemove(Now(), k);
      var channel := channels[k];
      reply := Region(channel.subscribers[vm], channel.size);
      channels := channels[k := channel.(subscribers := channel.subscribers - {vm})];
      if channels[k].subscribers == map[] && channels[k].gpa.None? {
        var emptied := channels[k];
        channels := channels - {k};
        assert channels == old(channels) - {k};
        frames.Dealloc(emptied.frame);
      }
    }

    /** `HyperCall::execute`: the steps of one call, with its early returns. */
    method Execute(call: nat, vm: nat, what: HyperCall, env: Env) returns (ok: bool)
      requires Inv(Now()) && call !in pending && (env.frame.Some? ==> env.frame.value !in frames.live)
      modifies this, frames
      ensures Inv(Now())
      ensures var script := Script(old(Now()), call, vm, what, env);
        IsRun(old(Now()), script.0) && Now() == Run(old(Now()), script.0) && ok == script.1
    {
      ghost var s := Now();
      match what
      case HPublish(key) =>
        if env.guestSize.None? || env.region.None? { return false; }
        var (gpa, size) := env.region.value;
        var got := AllocChannel(call, vm, key, size, gpa, env.frame);
        if !got { return false; }
        ghost var alloc := Alloc(call, vm, key, size, gpa, env.frame.value);
        if !env.mapOk || !env.writeBaseOk || !env.writeSizeOk {
          TwoSteps(s, alloc, Abandon(call));
          DropPending(call);
          return false;
        }
        TwoSteps(s, alloc, Insert(call));
        var reply := InsertChannel(call);
        ok := reply.Done?;
      case HUnpublish(key) =>
        OneStep(s, Unpublish(vm, key));
        var reply := UnpublishChannel(vm, key);
        ok := reply.Region? && env.unmapOk;
      case HSubscribe(publisher, key) =>
        var size := GetChannelSize(publisher, key);
        if size.None? || env.region.None? { return false; }
        OneStep(s, Subscribe(publisher, key, vm, env.region.value.0));
        var reply := SubscribeTo(publisher, key, vm, env.region.value.0);
        ok := reply.Mapping? && env.mapOk && env.writeBaseOk && env.writeSizeOk;
      case HUnsubscribe(publisher, key) =>
        OneStep(s, Unsubscribe(publisher, key, vm));
        var reply := UnsubscribeFrom(publisher, key, vm);
        ok := reply.Region? && env.unmapOk;
      case HOther =>
        ok := false;
    }
  }

  datatype HyperCall =
    | HPublish(key: nat)
    | HUnpublish(key: nat)
    | HSubscribe(publisher: nat, key: nat)
    | HUnsubscribe(publisher: nat, key: nat)
    | HOther

  /** How the parts outside the table answer during one call. */
  datatype Env = Env(guestSize: Option<nat>, region: Option<(nat, nat)>, frame: Option<nat>,
                     mapOk: bool, writeBaseOk: bool, writeSizeOk: bool, unmapOk: bool)

  predicate Delivers(env: Env) {
    env.mapOk && env.writeBaseOk && env.writeSizeOk
  }

  /** The table steps of one hypercall, and whether it succeeds. */
  function Script(s: State, call: nat, vm: nat, what: HyperCall, env: Env): (seq<Step>, bool) {
    match what
    case HPublish(key) =>
      if env.guestSize.None? || env.region.None? || env.frame.None? then ([], false)
      else
        var alloc := Alloc(call, vm, key, env.region.value.1, env.region.value.0, env.frame.value);
        if Delivers(env) then ([alloc, Insert(call)], (vm, key) !in s.table) else ([alloc, Abandon(call)], false)
    case HUnpublish(key) =>
      ([Unpublish(vm, key)], (vm, key) in s.table && s.table[(vm, key)].gpa.Some? && env.unmapOk)
    case HSubscribe(publisher, key) =>
      if (publisher, key) !in s.table || env.region.None? then ([], false)
      else ([Subscribe(publisher, key, vm, env.region.value.0)], Delivers(env))
    case HUnsubscribe(publisher, key) =>
      ([Unsubscribe(publisher, key, vm)],
       (publisher, key) in s.table && vm in s.table[(publisher, key)].subscribers && env.unmapOk)
    case HOther => ([], false)
  }

  lemma {:induction false} OneStep(s: State, a: Step)
    requires Enabled(s, a)
    ensures IsRun(s, [a]) && Run(s, [a]) == Next(s, a).0
  {
    assert [a][1..] == [];
  }

  lemma {:induction false} TwoSteps(s: State, a: Step, b: Step)
    requires Enabled(s, a) && Enabled(Next(s, a).0, b)
    ensures IsRun(s, [a, b]) && Run(s, [a, b]) == Next(Next(s, a).0, b).0
  {
    assert [a, b][1..] == [b];
    OneStep(Next(s, a).0, b);
  }

  /** A call that fails after its table step took effect. */
  predicate FailsLate(s: State, vm: nat, what: HyperCall, env: Env) {
    match what
    case HPublish(key) => env.guestSize.Some? && env.region.Some? && env.frame.Some? && Delivers(env)
    case HUnpublish(key) => (vm, key) in s.table
    case HSubscribe(publisher, key) =>
      (publisher, key) in s.table && env.region.Some? && vm !in s.table[(publisher, key)].subscribers
    case HUnsubscribe(publisher, key) =>
      (publisher, key) in s.table && vm in s.table[(publisher, key)].subscribers
    case HOther => false
  }

  /** A hypercall that reports failure has changed nothing, unless it fails late, and then it always has. */
  lemma {:induction false} FailureUnchangedIff(s: State, call: nat, vm: nat, what: HyperCall, env: Env)
    requires Inv(s) && call !in s.pending && (env.frame.Some? ==> env.frame.value !in s.live)
    requires !Script(s, call, vm, what, env).1
    ensures var steps := Script(s, call, vm, what, env).0;
      IsRun(s, steps) && (Run(s, steps) == s <==> !FailsLate(s, vm, what, env))
  {
    var steps := Script(s, call, vm, what, env).0;
    match what
    case HPublish(key) =>
      if |steps| == 2 {
        TwoSteps(s, steps[0], steps[1]);
        if Delivers(env) {
          assert Owned(s, s.table[(vm, key)].frame);
          assert Run(s, steps).table[(vm, key)].frame == env.frame.value;
        } else {
          var held := NewChannel(vm, key, env.region.value.1, env.region.value.0, env.frame.value);
          assert s.pending[call := held] - {call} == s.pending;
        }
      }
    case HUnpublish(key) =>
      OneStep(s, steps[0]);
      if (vm, key) in s.table {
        var s' := Run(s, steps);
        assert (vm, key) !in s'.table || s'.table[(vm, key)].gpa != s.table[(vm, key)].gpa;
      }
    case HSubscribe(publisher, key) =>
      if steps != [] {
        OneStep(s, steps[0]);
        var k := (publisher, key);
        var s' := Run(s, steps);
        if vm in s.table[k].subscribers {
          assert s'.table == s.table;
        } else {
          assert vm in s'.table[k].subscribers;
        }
      }
    case HUnsubscribe(publisher, key) =>
      OneStep(s, steps[0]);
      var k := (publisher, key);
      if k in s.table && vm in s.table[k].subscribers {
        var s' := Run(s, steps);
        assert k !in s'.table || vm !in s'.table[k].subscribers;
      }
    case HOther =>
  }
}

/** Inter-VM channels: the table, the frames it owns, and the users of those frames over whole runs. */
module Ivc {
  import opened Basics

  const MAX_SIZE: nat := 4096

  /** A channel and the frame it owns; `gpa` is `None` once the publisher has withdrawn it. */
  datatype Channel = Channel(publisher: nat, key: nat, subscribers: map<nat, nat>, frame: nat, size: nat,
                             gpa: Option<nat>)

  type Key = (nat, nat)

  /**
   * The global table, the channels that publishing calls hold before they insert them, and the frames
   * taken from the allocator and not given back.
   */
  datatype State = State(table: map<Key, Channel>, pending: map<nat, Channel>, live: set<nat>)

  const INITIAL := State(map[], map[], {})

  /** One atomic step, each under the table's lock. `call` names a publishing call in progress. */
  datatype Step =
    | Alloc(call: nat, vm: nat, key: nat, size: nat, gpa: nat, frame: nat)
    | Abandon(call: nat)
    | Insert(call: nat)
    | Unpublish(vm: nat, key: nat)
    | Subscribe(publisher: nat, key: nat, vm: nat, gpa: nat)
    | Unsubscribe(publisher: nat, key: nat, vm: nat)

  datatype Reply = Done | Region(gpa: nat, size: nat) | Mapping(frame: nat, size: nat) | AlreadyExists | NotFound

  /** What the allocator and the callers see to: a frame is handed out once, a call is in progress. */
  predicate Enabled(s: State, step: Step) {
    match step
    case Alloc(call, _, _, _, _, frame) => call !in s.pending && frame !in s.live
    case Abandon(call) => call in s.pending
    case Insert(call) => call in s.pending
    case _ => true
  }

  /** Dropping a channel gives its frame back. */
  function Drop(s: State, c: Channel): State {
    s.(live := s.live - {c.frame})
  }

  function NewChannel(vm: nat, key: nat, size: nat, gpa: nat, frame: nat): Channel {
    Channel(vm, key, map[], frame, Min(size, MAX_SIZE), Some(gpa))
  }

  /** `add_subscriber`: a VM that is subscribed already keeps its address. */
  function AddSubscriber(c: Channel, vm: nat, gpa: nat): Channel {
    if vm in c.subscribers then c else c.(subscribers := c.subscribers[vm := gpa])
  }

  function Put(s: State, k: Key, c: Channel): State {
    s.(table := s.table[k := c])
  }

  function Remove(s: State, k: Key): State {
    s.(table := s.table - {k})
  }

  function Next(s: State, step: Step): (State, Reply)
    requires Enabled(s, step)
  {
    match step
    case Alloc(call, vm, key, size, gpa, frame) =>
      (s.(pending := s.pending[call := NewChannel(vm, key, size, gpa, frame)], live := s.live + {frame}), Done)
    case Abandon(call) =>
      (Drop(s.(pending := s.pending - {call}), s.pending[call]), Done)
    case Insert(call) =>
      var c := s.pending[call];
      var k := (c.publisher, c.key);
      var s' := Put(s.(pending := s.pending - {call}), k, c);
      if k in s.table then (Drop(s', s.table[k]), AlreadyExists) else (s', Done)
    case Unpublish(vm, key) =>
      var k := (vm, key);
      if k !in s.table then (s, NotFound)
      else
        var c := s.table[k];
        if c.gpa.None? then (Drop(Remove(s, k), c), NotFound)
        else if c.subscribers == map[] then (Drop(Remove(s, k), c), Region(c.gpa.value, c.size))
        else (Put(s, k, c.(gpa := None)), Region(c.gpa.value, c.size))
    case Subscribe(publisher, key, vm, gpa) =>
      var k := (publisher, key);
      if k !in s.table then (s, NotFound)
      else
        (Put(s, k, AddSubscriber(s.table[k], vm, gpa)), Mapping(s.table[k].frame, s.table[k].size))
    case Unsubscribe(publisher, key, vm) =>
      var k := (publisher, key);
      if k !in s.table || vm !in s.table[k].subscribers then (s, NotFound)
      else
        var c := s.table[k];
        var c' := c.(subscribers := c.subscribers - {vm});
        var reply := Region(c.subscribers[vm], c.size);
        if c'.subscribers == map[] && c'.gpa.None? then (Drop(Remove(s, k), c), reply) else (Put(s, k, c'), reply)
  }

  // ---- conservation of frames

  predicate Healthy(c: Channel) {
    c.size <= MAX_SIZE && (c.gpa.Some? || c.subscribers != map[])
  }

  /** Every channel, in the table or about to be inserted, owns a live frame of its own; nothing else is live. */
  ghost predicate Inv(s: State) {
    && (forall k :: k in s.table ==> s.table[k].publisher == k.0 && s.table[k].key == k.1 && Healthy(s.table[k]))
    && (forall i :: i in s.pending ==>
          Healthy(s.pending[i]) && s.pending[i].gpa.Some? && s.pending[i].subscribers == map[])
    && (forall j, k :: j in s.table && k in s.table && j != k ==> s.table[j].frame != s.table[k].frame)
    && (forall i, j :: i in s.pending && j in s.pending && i != j ==> s.pending[i].frame != s.pending[j].frame)
    && (forall k, i :: k in s.table && i in s.pending ==> s.table[k].frame != s.pending[i].frame)
    && (forall f :: f in s.live <==> Owned(s, f))
  }

  ghost predicate Owned(s: State, f: nat) {
    (exists k :: k in s.table && s.table[k].frame == f) || (exists i :: i in s.pending && s.pending[i].frame == f)
  }

  lemma {:induction false} InvPut(s: State, k: Key, c: Channel)
    requires Inv(s) && k in s.table && Healthy(c)
    requires c.publisher == k.0 && c.key == k.1 && c.frame == s.table[k].frame
    ensures Inv(Put(s, k, c))
  {
    var s' := Put(s, k, c);
    forall f ensures Owned(s', f) <==> Owned(s, f) {
      if exists j :: j in s.table && s.table[j].frame == f {
        var j :| j in s.table && s.table[j].frame == f;
        assert j in s'.table && s'.table[j].frame == f;
      }
      if exists j :: j in s'.table && s'.table[j].frame == f {
        var j :| j in s'.table && s'.table[j].frame == f;
        assert j in s.table && s.table[j].frame == f;
      }
    }
  }

  /** Dropping a channel with its entry frees exactly its own frame, which was live. */
  lemma {:induction false} InvRemove(s: State, k: Key)
    requires Inv(s) && k in s.table
    ensures s.table[k].frame in s.live && Inv(Drop(Remove(s, k), s.table[k]))
  {
    assert Owned(s, s.table[k].frame);
    var s' := Drop(Remove(s, k), s.table[k]);
    forall f ensures f in s'.live <==> Owned(s', f) {
      if exists j :: j in s.table && s.table[j].frame == f {
        var j :| j in s.table && s.table[j].frame == f;
        assert j != k ==> j in s'.table && s'.table[j].frame == f;
      }
      if exists j :: j in s'.table && s'.table[j].frame == f {
        var j :| j in s'.table && s'.table[j].frame == f;
        assert j in s.table && s.table[j].frame == f;
      }
    }
  }

  lemma {:induction false} InvAbandon(s: State, call: nat)
    requires Inv(s) && call in s.pending
    ensures s.pending[call].frame in s.live && Inv(Next(s, Abandon(call)).0)
  {
    assert Owned(s, s.pending[call].frame);
    var s' := Next(s, Abandon(call)).0;
    forall f ensures f in s'.live <==> Owned(s', f) {
      if exists i :: i in s.pending && s.pending[i].frame == f {
        var i :| i in s.pending && s.pending[i].frame == f;
        assert i != call ==> i in s'.pending && s'.pending[i].frame == f;
      }
      if exists i :: i in s'.pending && s'.pending[i].frame == f {
        var i :| i in s'.pending && s'.pending[i].frame == f;
        assert i in s.pending && s.pending[i].frame == f;
      }
    }
  }

  lemma {:induction false} InvAlloc(s: State, step: Step)
    requires Inv(s) && step.Alloc? && Enabled(s, step)
    ensures Inv(Next(s, step).0)
  {
    var s' := Next(s, step).0;
    forall k | k in s.table ensures s.table[k].frame != step.frame { assert Owned(s, s.table[k].frame); }
    forall i | i in s.pending ensures s.pending[i].frame != step.frame { assert Owned(s, s.pending[i].frame); }
    forall f ensures f in s'.live <==> Owned(s', f) {
      if exists i :: i in s.pending && s.pending[i].frame == f {
        var i :| i in s.pending && s.pending[i].frame == f;
        assert i in s'.pending && s'.pending[i].frame == f;
      }
      if exists i :: i in s'.pending && s'.pending[i].frame == f {
        var i :| i in s'.pending && s'.pending[i].frame == f;
        assert i != step.call ==> i in s.pending && s.pending[i].frame == f;
      }
      assert step.call in s'.pending && s'.pending[step.call].frame == step.frame;
    }
  }

  /** A pending channel moves into a free slot of the table. */
  lemma {:induction false} InvMove(s: State, call: nat)
    requires Inv(s) && call in s.pending
    requires (s.pending[call].publisher, s.pending[call].key) !in s.table
    ensures Inv(Next(s, Insert(call)).0)
  {
    var c := s.pending[call];
    var k0 := (c.publisher, c.key);
    var s' := Next(s, Insert(call)).0;
    forall f ensures Owned(s, f) <==> Owned(s', f) {
      if exists k :: k in s.table && s.table[k].frame == f {
        var k :| k in s.table && s.table[k].frame == f;
        assert k in s'.table && s'.table[k].frame == f;
      }
      if exists i :: i in s.pending && s.pending[i].frame == f {
        var i :| i in s.pending && s.pending[i].frame == f;
        assert i == call ==> k0 in s'.table && s'.table[k0].frame == f;
        assert i != call ==> i in s'.pending && s'.pending[i].frame == f;
      }
      if exists k :: k in s'.table && s'.table[k].frame == f {
        var k :| k in s'.table && s'.table[k].frame == f;
        assert k == k0 ==> call in s.pending && s.pending[call].frame == f;
        assert k != k0 ==> k in s.table && s.table[k].frame == f;
      }
      if exists i :: i in s'.pending && s'.pending[i].frame == f {
        var i :| i in s'.pending && s'.pending[i].frame == f;
        assert i in s.pending && s.pending[i].frame == f;
      }
    }
  }

  /** Replacing an entry is removing it and moving into the free slot: the old frame is freed, and no other. */
  lemma {:induction false} InvReplace(s: State, call: nat)
    requires Inv(s) && call in s.pending
    requires (s.pending[call].publisher, s.pending[call].key) in s.table
    ensures Inv(Next(s, Insert(call)).0)
    ensures var replaced := s.table[(s.pending[call].publisher, s.pending[call].key)].frame;
      replaced in s.live && Next(s, Insert(call)).0.live == s.live - {replaced}
  {
    var c := s.pending[call];
    var k := (c.publisher, c.key);
    InvRemove(s, k);
    var r := Drop(Remove(s, k), s.table[k]);
    InvMove(r, call);
    assert r.table[k := c] == s.table[k := c];
  }

  lemma {:induction false} InvUnpublish(s: State, vm: nat, key: nat)
    requires Inv(s)
    ensures Inv(Next(s, Unpublish(vm, key)).0)
  {
    var k := (vm, key);
    if k in s.table {
      var c := s.table[k];
      if c.gpa.None? || c.subscribers == map[] {
        InvRemove(s, k);
      } else {
        InvPut(s, k, c.(gpa := None));
      }
    }
  }

  lemma {:induction false} InvUnsubscribe(s: State, publisher: nat, key: nat, vm: nat)
    requires Inv(s)
    ensures Inv(Next(s, Unsubscribe(publisher, key, vm)).0)
  {
    var k := (publisher, key);
    if k in s.table && vm in s.table[k].subscribers {
      var c := s.table[k];
      var c' := c.(subscribers := c.subscribers - {vm});
      if c'.subscribers == map[] && c'.gpa.None? {
        InvRemove(s, k);
      } else {
        InvPut(s, k, c');
      }
    }
  }

  /** Every step, error paths included, keeps the books balanced. */
  lemma {:induction false} InvStep(s: State, step: Step)
    requires Inv(s) && Enabled(s, step)
    ensures Inv(Next(s, step).0)
  {
    match step
    case Alloc(_, _, _, _, _, _) => InvAlloc(s, step);
    case Abandon(call) => InvAbandon(s, call);
    case Insert(call) =>
      if (s.pending[call].publisher, s.pending[call].key) in s.table {
        InvReplace(s, call);
      } else {
        InvMove(s, call);
      }
    case Unpublish(vm, key) => InvUnpublish(s, vm, key);
    case Subscribe(publisher, key, vm, gpa) =>
      var k := (publisher, key);
      if k in s.table {
        InvPut(s, k, AddSubscriber(s.table[k], vm, gpa));
      }
    case Unsubscribe(publisher, key, vm) => InvUnsubscribe(s, publisher, key, vm);
  }

  predicate IsRun(s: State, steps: seq<Step>)
    decreases |steps|
  {
    steps == [] || (Enabled(s, steps[0]) && IsRun(Next(s, steps[0]).0, steps[1..]))
  }

  function Run(s: State, steps: seq<Step>): State
    requires IsRun(s, steps)
    decreases |steps|
  {
    if steps == [] then s else Run(Next(s, steps[0]).0, steps[1..])
  }

  /** In every run, the live frames are exactly those of the channels held. */
  lemma {:induction false} RunKeepsInv(s: State, steps: seq<Step>)
    requires Inv(s) && IsRun(s, steps)
    ensures Inv(Run(s, steps))
    decreases |steps|
  {
    if steps != [] {
      InvStep(s, steps[0]);
      RunKeepsInv(Next(s, steps[0]).0, steps[1..]);
    }
  }

  lemma {:induction false} InitialInv()
    ensures Inv(INITIAL)
  {
  }

  // ---- frames taken and given back

  /** The frames of the channels whose destructor runs in a step, whether or not they are live. */
  function FreedBy(s: State, step: Step): seq<nat>
    requires Enabled(s, step)
  {
    match step
    case Abandon(call) => [s.pending[call].frame]
    case Insert(call) =>
      var k := (s.pending[call].publisher, s.pending[call].key);
      if k in s.table then [s.table[k].frame] else []
    case Unpublish(vm, key) =>
      var k := (vm, key);
      if k in s.table && (s.table[k].gpa.None? || s.table[k].subscribers == map[]) then [s.table[k].frame] else []
    case Unsubscribe(publisher, key, vm) =>
      var k := (publisher, key);
      if k in s.table && vm in s.table[k].subscribers && s.table[k].subscribers - {vm} == map[]
        && s.table[k].gpa.None?
      then [s.table[k].frame] else []
    case _ => []
  }

  function TakenBy(step: Step): seq<nat> {
    if step.Alloc? then [step.frame] else []
  }

  function Times(fs: seq<nat>, f: nat): nat {
    if fs == [] then 0 else (if fs[0] == f then 1 else 0) + Times(fs[1..], f)
  }

  function IsLive(s: State, f: nat): nat {
    if f in s.live then 1 else 0
  }

  /** A step gives back live frames only, and each at most once. */
  lemma {:induction false} StepConserves(s: State, step: Step, f: nat)
    requires Inv(s) && Enabled(s, step)
    ensures f in FreedBy(s, step) ==> f in s.live
    ensures IsLive(s, f) + Times(TakenBy(step), f) == Times(FreedBy(s, step), f) + IsLive(Next(s, step).0, f)
  {
    match step
    case Abandon(call) => InvAbandon(s, call);
    case Insert(call) =>
      if (s.pending[call].publisher, s.pending[call].key) in s.table { InvReplace(s, call); }
    case Unpublish(vm, key) =>
      if (vm, key) in s.table { InvRemove(s, (vm, key)); }
    case Unsubscribe(publisher, key, vm) =>
      if (publisher, key) in s.table { InvRemove(s, (publisher, key)); }
    case _ =>
  }

  /** How often a run takes a frame from the allocator. */
  function Taken(steps: seq<Step>, f: nat): nat {
    if steps == [] then 0 else Times(TakenBy(steps[0]), f) + Taken(steps[1..], f)
  }

  /** How often a run gives a frame back. */
  function Freed(s: State, steps: seq<Step>, f: nat): nat
    requires IsRun(s, steps)
    decreases |steps|
  {
    if steps == [] then 0
    else Times(FreedBy(s, steps[0]), f) + Freed(Next(s, steps[0]).0, steps[1..], f)
  }

  /**
   * Conservation over every run: a frame has been given back exactly as often as it was taken, or once less
   * while it is live. Nothing leaks and nothing is freed twice.
   */
  lemma {:induction false} RunConserves(s: State, steps: seq<Step>, f: nat)
    requires Inv(s) && IsRun(s, steps)
    ensures IsLive(s, f) + Taken(steps, f) == Freed(s, steps, f) + IsLive(Run(s, steps), f)
    decreases |steps|
  {
    if steps != [] {
      StepConserves(s, steps[0], f);
      InvStep(s, steps[0]);
      RunConserves(Next(s, steps[0]).0, steps[1..], f);
    }
  }

  // ---- users of a frame

  /** Who may still touch a channel's frame. */
  datatype User = Publisher | Subscriber(vm: nat)

  function ChannelUsers(c: Channel): set<User> {
    (if c.gpa.Some? then {Publisher} else {}) + set vm | vm in c.subscribers :: Subscriber(vm)
  }

  type Users = map<nat, set<User>>

  function UsersOf(users: Users, f: nat): set<User> {
    if f in users then users[f] else {}
  }

  function Join(users: Users, f: nat, u: User): Users {
    users[f := UsersOf(users, f) + {u}]
  }

  function Quit(users: Users, f: nat, u: User): Users {
    users[f := UsersOf(users, f) - {u}]
  }

  /** Users as the replies tell them: one joins or quits with each call that succeeds. */
  function Track(users: Users, s: State, step: Step): Users
    requires Enabled(s, step)
  {
    var reply := Next(s, step).1;
    match step
    case Alloc(_, _, _, _, _, frame) => Join(users, frame, Publisher)
    case Abandon(call) => Quit(users, s.pending[call].frame, Publisher)
    case Insert(_) => users
    case Unpublish(vm, key) =>
      if reply.Region? && (vm, key) in s.table then Quit(users, s.table[(vm, key)].frame, Publisher) else users
    case Subscribe(_, _, vm, _) =>
      if reply.Mapping? then Join(users, reply.frame, Subscriber(vm)) else users
    case Unsubscribe(publisher, key, vm) =>
      if reply.Region? && (publisher, key) in s.table
      then Quit(users, s.table[(publisher, key)].frame, Subscriber(vm)) else users
  }

  /** Not a publication under a key in use, and not a second withdrawal of one channel. */
  predicate Orderly(s: State, step: Step)
    requires Enabled(s, step)
  {
    match step
    case Insert(call) => (s.pending[call].publisher, s.pending[call].key) !in s.table
    case Unpublish(vm, key) => (vm, key) in s.table ==> s.table[(vm, key)].gpa.Some?
    case _ => true
  }

  /** The tracked users of a frame are those its channel knows; a frame that is not live has none. */
  ghost predicate Agree(s: State, users: Users) {
    && (forall k :: k in s.table ==> UsersOf(users, s.table[k].frame) == ChannelUsers(s.table[k]))
    && (forall i :: i in s.pending ==> UsersOf(users, s.pending[i].frame) == ChannelUsers(s.pending[i]))
    && (forall f :: f !in s.live ==> UsersOf(users, f) == {})
  }

  lemma {:induction false} HealthyHasUser(c: Channel)
    requires Healthy(c)
    ensures ChannelUsers(c) != {}
  {
    if c.gpa.Some? {
      assert Publisher in ChannelUsers(c);
    } else {
      var vm :| vm in c.subscribers;
      assert Subscriber(vm) in ChannelUsers(c);
    }
  }

  /** A frame is live exactly while it has users. */
  lemma {:induction false} LiveIffUsed(s: State, users: Users, f: nat)
    requires Inv(s) && Agree(s, users)
    ensures f in s.live <==> UsersOf(users, f) != {}
  {
    if f in s.live {
      assert Owned(s, f);
      if k :| k in s.table && s.table[k].frame == f {
        HealthyHasUser(s.table[k]);
      } else {
        var i :| i in s.pending && s.pending[i].frame == f;
        HealthyHasUser(s.pending[i]);
      }
    }
  }

  /** An entry changes, its frame stays: only the users of that frame change. */
  lemma {:induction false} AgreePut(s: State, users: Users, k: Key, c: Channel, users': Users)
    requires Inv(s) && Agree(s, users) && k in s.table && c.frame == s.table[k].frame
    requires users' == users[c.frame := ChannelUsers(c)]
    ensures Agree(Put(s, k, c), users')
  {
    assert Owned(s, c.frame);
  }

  lemma {:induction false} SubscriberJoins(c: Channel, vm: nat, gpa: nat)
    ensures ChannelUsers(AddSubscriber(c, vm, gpa)) == ChannelUsers(c) + {Subscriber(vm)}
  {
  }

  /** An entry goes with its frame, once nobody is left on it. */
  lemma {:induction false} AgreeRemove(s: State, users: Users, k: Key, users': Users)
    requires Inv(s) && Agree(s, users) && k in s.table
    requires users' == users[s.table[k].frame := {}]
    ensures Agree(Drop(Remove(s, k), s.table[k]), users')
  {
    assert Owned(s, s.table[k].frame);
  }

  lemma {:induction false} SubscriberQuits(c: Channel, vm: nat)
    ensures ChannelUsers(c.(subscribers := c.subscribers - {vm})) == ChannelUsers(c) - {Subscriber(vm)}
  {
  }

  lemma {:induction false} PublisherQuits(c: Channel)
    ensures ChannelUsers(c.(gpa := None)) == ChannelUsers(c) - {Publisher}
    ensures c.subscribers == map[] ==> ChannelUsers(c.(gpa := None)) == {}
  {
  }

  lemma {:induction false} AgreeUnsubscribe(s: State, users: Users, step: Step)
    requires Inv(s) && Agree(s, users) && step.Unsubscribe?
    ensures Agree(Next(s, step).0, Track(users, s, step))
  {
    var k := (step.publisher, step.key);
    if k in s.table && step.vm in s.table[k].subscribers {
      var c := s.table[k];
      var c' := c.(subscribers := c.subscribers - {step.vm});
      SubscriberQuits(c, step.vm);
      if c'.subscribers == map[] && c'.gpa.None? {
        assert ChannelUsers(c') == {};
        AgreeRemove(s, users, k, Track(users, s, step));
      } else {
        AgreePut(s, users, k, c', Track(users, s, step));
      }
    }
  }

  lemma {:induction false} AgreeUnpublish(s: State, users: Users, step: Step)
    requires Inv(s) && Agree(s, users) && step.Unpublish? && Orderly(s, step)
    ensures Agree(Next(s, step).0, Track(users, s, step))
  {
    var k := (step.vm, step.key);
    if k in s.table {
      var c := s.table[k];
      PublisherQuits(c);
      if c.subscribers == map[] {
        AgreeRemove(s, users, k, Track(users, s, step));
      } else {
        AgreePut(s, users, k, c.(gpa := None), Track(users, s, step));
      }
    }
  }

  lemma {:induction false} AgreeSubscribe(s: State, users: Users, step: Step)
    requires Inv(s) && Agree(s, users) && step.Subscribe?
    ensures Agree(Next(s, step).0, Track(users, s, step))
  {
    var k := (step.publisher, step.key);
    if k in s.table {
      SubscriberJoins(s.table[k], step.vm, step.gpa);
      AgreePut(s, users, k, AddSubscriber(s.table[k], step.vm, step.gpa), Track(users, s, step));
    }
  }

  lemma {:induction false} NewUsers(c: Channel)
    requires c.gpa.Some? && c.subscribers == map[]
    ensures ChannelUsers(c) == {Publisher}
  {
  }

  lemma {:induction false} AgreeAlloc(s: State, users: Users, step: Step)
    requires Inv(s) && Agree(s, users) && step.Alloc? && Enabled(s, step)
    ensures Agree(Next(s, step).0, Track(users, s, step))
  {
    NewUsers(NewChannel(step.vm, step.key, step.size, step.gpa, step.frame));
    forall k | k in s.table ensures s.table[k].frame != step.frame { assert Owned(s, s.table[k].frame); }
    forall i | i in s.pending ensures s.pending[i].frame != step.frame { assert Owned(s, s.pending[i].frame); }
  }

  lemma {:induction false} AgreeAbandon(s: State, users: Users, call: nat)
    requires Inv(s) && Agree(s, users) && call in s.pending
    ensures Agree(Next(s, Abandon(call)).0, Track(users, s, Abandon(call)))
  {
    NewUsers(s.pending[call]);
    assert Owned(s, s.pending[call].frame);
  }

  lemma {:induction false} AgreeInsert(s: State, users: Users, call: nat)
    requires Inv(s) && Agree(s, users) && call in s.pending && Orderly(s, Insert(call))
    ensures Agree(Next(s, Insert(call)).0, users)
  {
  }

  lemma {:induction false} AgreeStep(s: State, users: Users, step: Step)
    requires Inv(s) && Agree(s, users) && Enabled(s, step) && Orderly(s, step)
    ensures Agree(Next(s, step).0, Track(users, s, step))
  {
    match step
    case Unpublish(_, _) => AgreeUnpublish(s, users, step);
    case Subscribe(_, _, _, _) => AgreeSubscribe(s, users, step);
    case Unsubscribe(_, _, _) => AgreeUnsubscribe(s, users, step);
    case Alloc(_, _, _, _, _, _) => AgreeAlloc(s, users, step);
    case Abandon(call) => AgreeAbandon(s, users, call);
    case Insert(call) => AgreeInsert(s, users, call);
  }

  /** An orderly step frees a frame exactly when it takes the frame's last user away. */
  lemma {:induction false} LastUserFrees(s: State, users: Users, step: Step, f: nat)
    requires Inv(s) && Agree(s, users) && Enabled(s, step) && Orderly(s, step)
    ensures f in s.live && f !in Next(s, step).0.live
       <==> UsersOf(users, f) != {} && UsersOf(Track(users, s, step), f) == {}
  {
    InvStep(s, step);
    AgreeStep(s, users, step);
    LiveIffUsed(s, users, f);
    LiveIffUsed(Next(s, step).0, Track(users, s, step), f);
  }

  predicate IsOrderlyRun(s: State, steps: seq<Step>)
    decreases |steps|
  {
    steps == [] || (Enabled(s, steps[0]) && Orderly(s, steps[0]) && IsOrderlyRun(Next(s, steps[0]).0, steps[1..]))
  }

  function RunTracked(s: State, users: Users, steps: seq<Step>): (State, Users)
    requires IsOrderlyRun(s, steps)
    decreases |steps|
  {
    if steps == [] then (s, users)
    else RunTracked(Next(s, steps[0]).0, Track(users, s, steps[0]), steps[1..])
  }

  /** After every orderly run, a frame is live if and only if its publisher or some subscriber still uses it. */
  lemma {:induction false} OrderlyRunLiveIffUsed(s: State, users: Users, steps: seq<Step>, f: nat)
    requires Inv(s) && Agree(s, users) && IsOrderlyRun(s, steps)
    ensures var r := RunTracked(s, users, steps);
      Inv(r.0) && Agree(r.0, r.1) && (f in r.0.live <==> UsersOf(r.1, f) != {})
    decreases |steps|
  {
    if steps == [] {
      LiveIffUsed(s, users, f);
    } else {
      InvStep(s, steps[0]);
      AgreeStep(s, users, steps[0]);
      OrderlyRunLiveIffUsed(Next(s, steps[0]).0, Track(users, s, steps[0]), steps[1..], f);
    }
  }

  /** The step frees a frame that users have not given up. */
  ghost predicate FreesUsed(s: State, users: Users, step: Step)
    requires Enabled(s, step)
  {
    exists f :: f in s.live && f !in Next(s, step).0.live && UsersOf(Track(users, s, step), f) != {}
  }

  /** As long as users and table agree, the steps that free a frame in use are exactly the two other ones. */
  lemma {:induction false} EarlyFreeIff(s: State, users: Users, step: Step)
    requires Inv(s) && Agree(s, users) && Enabled(s, step)
    ensures FreesUsed(s, users, step) <==> !Orderly(s, step)
  {
    if Orderly(s, step) {
      forall f | f in s.live && f !in Next(s, step).0.live ensures UsersOf(Track(users, s, step), f) == {} {
        LastUserFrees(s, users, step, f);
      }
    } else {
      var k := if step.Insert? then (s.pending[step.call].publisher, s.pending[step.call].key) else (step.vm, step.key);
      var f := s.table[k].frame;
      assert Owned(s, f);
      HealthyHasUser(s.table[k]);
      assert Track(users, s, step) == users;
      assert f in s.live && f !in Next(s, step).0.live && UsersOf(Track(users, s, step), f) != {};
    }
  }

  ghost predicate NeverFreesUsed(s: State, users: Users, steps: seq<Step>)
    requires IsRun(s, steps)
    decreases |steps|
  {
    steps == [] ||
    (!FreesUsed(s, users, steps[0]) && NeverFreesUsed(Next(s, steps[0]).0, Track(users, s, steps[0]), steps[1..]))
  }

  /** A run never frees a frame in use if and only if all its steps are orderly. */
  lemma {:induction false} NeverFreesUsedIff(s: State, users: Users, steps: seq<Step>)
    requires Inv(s) && Agree(s, users) && IsRun(s, steps)
    ensures NeverFreesUsed(s, users, steps) <==> IsOrderlyRun(s, steps)
    decreases |steps|
  {
    if steps != [] {
      EarlyFreeIff(s, users, steps[0]);
      InvStep(s, steps[0]);
      if Orderly(s, steps[0]) {
        AgreeStep(s, users, steps[0]);
        NeverFreesUsedIff(Next(s, steps[0]).0, Track(users, s, steps[0]), steps[1..]);
      }
    }
  }

  // ---- after an early free, orderly steps can free a frame in use as well

  /** VM 2 uses frame 5 of VM 1, which withdraws twice; the frame goes to VM 3. */
  function Reused(): (State, Users) {
    (State(map[(3, 0) := Channel(3, 0, map[], 5, 0, Some(0))], map[], {5}),
     map[5 := {Publisher, Subscriber(2)}])
  }

  const REUSE: seq<Step> := [Alloc(0, 1, 0, 0, 0, 5), Insert(0), Subscribe(1, 0, 2, 0), Unpublish(1, 0),
                             Unpublish(1, 0), Alloc(0, 3, 0, 0, 0, 5), Insert(0)]

  function RunWithUsers(s: State, users: Users, steps: seq<Step>): (State, Users)
    requires IsRun(s, steps)
    decreases |steps|
  {
    if steps == [] then (s, users) else RunWithUsers(Next(s, steps[0]).0, Track(users, s, steps[0]), steps[1..])
  }

  lemma {:induction false} FirstOf(s: State, users: Users, step: Step, rest: seq<Step>)
    requires Enabled(s, step) && IsRun(Next(s, step).0, rest)
    ensures IsRun(s, [step] + rest)
    ensures RunWithUsers(s, users, [step] + rest) == RunWithUsers(Next(s, step).0, Track(users, s, step), rest)
  {
    assert ([step] + rest)[1..] == rest;
  }

  /** The table between the second withdrawal and the reuse is empty, with VM 2 still on frame 5. */
  lemma {:induction false} ReuseSecond()
    ensures var s, rest := INITIAL, [Alloc(0, 3, 0, 0, 0, 5), Insert(0)];
      IsRun(s, rest) && RunWithUsers(s, map[5 := {Subscriber(2)}], rest) == Reused()
  {
    var users := map[5 := {Subscriber(2)}];
    var a, b := Alloc(0, 3, 0, 0, 0, 5), Insert(0);
    var c := Channel(3, 0, map[], 5, 0, Some(0));
    var s1 := State(map[], map[0 := c], {5});
    assert Next(INITIAL, a).0 == s1;
    assert {Subscriber(2)} + {Publisher} == {Publisher, Subscriber(2)};
    assert Track(users, INITIAL, a) == Reused().1;
    assert s1.pending - {0} == map[];
    assert Next(s1, b).0 == Reused().0;
    FirstOf(s1, Reused().1, b, []);
    FirstOf(INITIAL, users, a, [b] + []);
    assert [a] + ([b] + []) == [a, b];
  }

  /** VM 1's channel, with VM 2 subscribed. */
  const SHARED: Channel := Channel(1, 0, map[2 := 0], 5, 0, Some(0))

  const WITHDRAWN: Channel := SHARED.(gpa := None)

  function Holding(c: Channel): State {
    State(map[(1, 0) := c], map[], {5})
  }

  const BOTH: Users := map[5 := {Publisher, Subscriber(2)}]
  const LEFT_OVER: Users := map[5 := {Subscriber(2)}]

  lemma {:induction false} ReuseWithdraws(rest: seq<Step>)
    requires IsRun(INITIAL, rest)
    ensures var u, s := Unpublish(1, 0), Holding(SHARED);
      && IsRun(s, [u] + ([u] + rest))
      && RunWithUsers(s, BOTH, [u] + ([u] + rest)) == RunWithUsers(INITIAL, LEFT_OVER, rest)
  {
    var u, s, s' := Unpublish(1, 0), Holding(SHARED), Holding(WITHDRAWN);
    assert SHARED.subscribers != map[] by { assert 2 in SHARED.subscribers; }
    assert {Publisher, Subscriber(2)} - {Publisher} == {Subscriber(2)};
    assert Next(s, u).0 == s' && Track(BOTH, s, u) == LEFT_OVER;
    assert s'.table - {(1, 0)} == map[] && Next(s', u).0 == INITIAL;
    FirstOf(s', LEFT_OVER, u, rest);
    FirstOf(s, BOTH, u, [u] + rest);
  }

  lemma {:induction false} ReuseShares(rest: seq<Step>)
    requires IsRun(Holding(SHARED), rest)
    ensures var a, b, d := Alloc(0, 1, 0, 0, 0, 5), Insert(0), Subscribe(1, 0, 2, 0);
      && IsRun(INITIAL, [a] + ([b] + ([d] + rest)))
      && RunWithUsers(INITIAL, map[], [a] + ([b] + ([d] + rest))) == RunWithUsers(Holding(SHARED), BOTH, rest)
  {
    var a, b, d := Alloc(0, 1, 0, 0, 0, 5), Insert(0), Subscribe(1, 0, 2, 0);
    var c, u1 := Channel(1, 0, map[], 5, 0, Some(0)), map[5 := {Publisher}];
    var s1, s2 := State(map[], map[0 := c], {5}), Holding(c);
    var none: set<User> := {};
    assert none + {Publisher} == {Publisher};
    assert Next(INITIAL, a).0 == s1 && Track(map[], INITIAL, a) == u1;
    assert s1.pending - {0} == map[] && Next(s1, b).0 == s2;
    assert {Publisher} + {Subscriber(2)} == {Publisher, Subscriber(2)};
    assert Next(s2, d).0 == Holding(SHARED) && Track(u1, s2, d) == BOTH;
    FirstOf(s2, u1, d, rest);
    FirstOf(s1, u1, b, [d] + rest);
    FirstOf(INITIAL, map[], a, [b] + ([d] + rest));
  }

  /** VM 3's only withdrawal, an orderly step, then frees the frame while VM 2 still uses it. */
  lemma {:induction false} OrderlyFreesUsed()
    ensures IsRun(INITIAL, REUSE) && RunWithUsers(INITIAL, map[], REUSE) == Reused()
    ensures var (s, users) := Reused();
      Orderly(s, Unpublish(3, 0)) && FreesUsed(s, users, Unpublish(3, 0))
  {
    var rest := [Alloc(0, 3, 0, 0, 0, 5), Insert(0)];
    var u := Unpublish(1, 0);
    ReuseSecond();
    ReuseWithdraws(rest);
    ReuseShares([u] + ([u] + rest));
    assert REUSE == [Alloc(0, 1, 0, 0, 0, 5)] + ([Insert(0)] + ([Subscribe(1, 0, 2, 0)] + ([u] + ([u] + rest))));
    var (s, users) := Reused();
    var f := 5;
    assert f in s.live && f !in Next(s, Unpublish(3, 0)).0.live;
    assert Subscriber(2) in UsersOf(Track(users, s, Unpublish(3, 0)), f);
  }
}

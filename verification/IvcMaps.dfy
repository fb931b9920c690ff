/** Which guest addresses a channel's frame is mapped at, and when a mapping outlives its frame. */
module IvcMaps {
  import opened Basics
  import opened Ivc
  import opened IvcTable
  import opened IvcCalls

  /** A frame, and how many of its bytes are mapped. */
  datatype Mapped = Mapped(frame: nat, size: nat)

  /** What is mapped at an address of a virtual machine. */
  type Maps = map<(nat, nat), Mapped>

  /** `unmap_region`: what was mapped there in that size goes. */
  function Unmap(m: Maps, vm: nat, gpa: nat, size: nat): Maps {
    if (vm, gpa) in m && m[(vm, gpa)].size == size then m - {(vm, gpa)} else m
  }

  /** The table knows that `vm` has the channel at `gpa`. */
  predicate UsesAt(c: Channel, vm: nat, gpa: nat) {
    (c.publisher == vm && c.gpa == Some(gpa)) || (vm in c.subscribers && c.subscribers[vm] == gpa)
  }

  ghost predicate Known(s: State, place: (nat, nat)) {
    exists k :: k in s.table && UsesAt(s.table[k], place.0, place.1)
  }

  /** A publisher that has subscribed to its own channel has it at two addresses. */
  predicate Apart(c: Channel) {
    c.publisher in c.subscribers ==> c.gpa != Some(c.subscribers[c.publisher])
  }

  /** All users of a channel have its frame mapped. */
  ghost predicate AllMapped(c: Channel, m: Maps) {
    Apart(c) && forall vm: nat, gpa: nat :: UsesAt(c, vm, gpa) ==>
      (vm, gpa) in m && m[(vm, gpa)] == Mapped(c.frame, c.size)
  }

  /** What is mapped is what the table knows, frame by frame. */
  ghost predicate MapsAgree(s: State, m: Maps) {
    && (forall k :: k in s.table ==> AllMapped(s.table[k], m))
    && forall p :: p in m ==> Known(s, p)
  }

  /** A frame is mapped in some guest and has been given back. */
  ghost predicate Dangling(s: State, m: Maps) {
    exists p :: p in m && m[p].frame !in s.live
  }

  /** The mappings after a call: what is mapped and unmapped is what the table's replies name. */
  function MapsAfter(s: State, m: Maps, vm: nat, what: HyperCall, env: Env): Maps {
    match what
    case HPublish(_) =>
      if CanAlloc(env) && env.mapOk
      then m[(vm, env.region.value.0) := Mapped(env.frame.value, Min(env.region.value.1, 4096))] else m
    case HUnpublish(key) => Unmapped(m, vm, Next(s, Unpublish(vm, key)).1, env)
    case HSubscribe(publisher, key) =>
      if (publisher, key) in s.table && env.region.Some? && env.mapOk then
        match Next(s, Subscribe(publisher, key, vm, env.region.value.0)).1
        case Mapping(frame, size) => m[(vm, env.region.value.0) := Mapped(frame, size)]
        case _ => m
      else m
    case HUnsubscribe(publisher, key) => Unmapped(m, vm, Next(s, Unsubscribe(publisher, key, vm)).1, env)
    case HOther => m
  }

  function Unmapped(m: Maps, vm: nat, reply: Reply, env: Env): Maps {
    match reply
    case Region(gpa, size) => if env.unmapOk then Unmap(m, vm, gpa, size) else m
    case _ => m
  }

  /** New frames are free, and new addresses unmapped. */
  predicate FreshFor(s: State, m: Maps, call: nat, vm: nat, env: Env) {
    && call !in s.pending && (env.frame.Some? ==> env.frame.value !in s.live)
    && (env.region.Some? ==> (vm, env.region.value.0) !in m)
  }

  function TableAfter(s: State, call: nat, vm: nat, what: HyperCall, env: Env): State
    requires IsRun(s, Script(s, call, vm, what, env).0)
  {
    Run(s, Script(s, call, vm, what, env).0)
  }

  /**
   * The calls that leave a frame mapped and given back: a publication whose answer cannot be delivered, or
   * under a key in use; a second withdrawal; and the last user's leaving when its unmapping fails.
   */
  predicate LeavesDangling(s: State, vm: nat, what: HyperCall, env: Env) {
    match what
    case HPublish(key) => CanAlloc(env) && env.mapOk && (!Delivers(env) || (vm, key) in s.table)
    case HUnpublish(key) =>
      (vm, key) in s.table &&
      (s.table[(vm, key)].gpa.None? || (s.table[(vm, key)].subscribers == map[] && !env.unmapOk))
    case HSubscribe(_, _) => false
    case HUnsubscribe(publisher, key) =>
      var k := (publisher, key);
      k in s.table && vm in s.table[k].subscribers && s.table[k].subscribers - {vm} == map[] && s.table[k].gpa.None?
      && !env.unmapOk
    case HOther => false
  }

  /** The calls after which the table still knows all mappings, and only those. */
  predicate Tidy(s: State, vm: nat, what: HyperCall, env: Env) {
    !LeavesDangling(s, vm, what, env) &&
    match what
    case HUnpublish(key) => (vm, key) in s.table ==> env.unmapOk
    case HSubscribe(publisher, key) =>
      (publisher, key) in s.table && env.region.Some? ==>
        env.mapOk == (vm !in s.table[(publisher, key)].subscribers)
    case HUnsubscribe(publisher, key) =>
      (publisher, key) in s.table && vm in s.table[(publisher, key)].subscribers ==> env.unmapOk
    case _ => true
  }

  // ---- the steps of a call

  lemma {:induction false} MappedIsLive(s: State, m: Maps)
    requires Inv(s) && MapsAgree(s, m)
    ensures !Dangling(s, m)
  {
    forall p | p in m ensures m[p].frame in s.live {
      var k :| k in s.table && UsesAt(s.table[k], p.0, p.1);
      assert Owned(s, s.table[k].frame);
    }
  }

  /** A channel has a user, and the user has it mapped. */
  lemma {:induction false} SomeoneMapped(s: State, m: Maps, k: Key) returns (p: (nat, nat))
    requires Inv(s) && MapsAgree(s, m) && k in s.table
    ensures p in m && m[p].frame == s.table[k].frame && UsesAt(s.table[k], p.0, p.1)
    ensures s.table[k].gpa.None? ==> p.0 in s.table[k].subscribers
  {
    var c := s.table[k];
    if c.gpa.Some? {
      p := (c.publisher, c.gpa.value);
    } else {
      var vm :| vm in c.subscribers;
      p := (vm, c.subscribers[vm]);
    }
    assert UsesAt(c, p.0, p.1);
  }

  /** The channel at a mapped place is the one whose frame is mapped there. */
  lemma {:induction false} PlaceHasOneChannel(s: State, m: Maps, k: Key, p: (nat, nat))
    requires Inv(s) && MapsAgree(s, m) && k in s.table && p in m && m[p].frame == s.table[k].frame
    ensures UsesAt(s.table[k], p.0, p.1)
  {
    var j :| j in s.table && UsesAt(s.table[j], p.0, p.1);
    assert m[(p.0, p.1)].frame == s.table[j].frame;
  }

  // ---- publishing

  ghost predicate Published(s: State, vm: nat, key: nat, env: Env, s': State)
    requires CanAlloc(env)
  {
    var c := NewChannel(vm, key, env.region.value.1, env.region.value.0, env.frame.value);
    var gone := if (vm, key) in s.table then {s.table[(vm, key)].frame} else {};
    s'.table == s.table[(vm, key) := c] && s'.live == s.live + {c.frame} - gone
  }

  lemma {:induction false} PublishState(s: State, call: nat, vm: nat, key: nat, env: Env)
    requires Inv(s) && call !in s.pending && (env.frame.Some? ==> env.frame.value !in s.live)
    ensures var steps := Script(s, call, vm, HPublish(key), env).0;
      && IsRun(s, steps)
      && (!CanAlloc(env) || !Delivers(env) ==> Run(s, steps) == s)
      && (CanAlloc(env) && Delivers(env) ==> Published(s, vm, key, env, Run(s, steps)))
  {
    var steps := Script(s, call, vm, HPublish(key), env).0;
    if CanAlloc(env) {
      TwoSteps(s, steps[0], steps[1]);
      var c := NewChannel(vm, key, env.region.value.1, env.region.value.0, env.frame.value);
      assert s.pending[call := c] - {call} == s.pending;
      assert s.live + {c.frame} - {c.frame} == s.live;
    }
  }

  lemma {:induction false} PublishDangles(s: State, m: Maps, call: nat, vm: nat, key: nat, env: Env)
    requires Inv(s) && MapsAgree(s, m) && FreshFor(s, m, call, vm, env)
    ensures IsRun(s, Script(s, call, vm, HPublish(key), env).0)
    ensures Dangling(TableAfter(s, call, vm, HPublish(key), env), MapsAfter(s, m, vm, HPublish(key), env))
       <==> LeavesDangling(s, vm, HPublish(key), env)
  {
    PublishState(s, call, vm, key, env);
    MappedIsLive(s, m);
    var s', m' := TableAfter(s, call, vm, HPublish(key), env), MapsAfter(s, m, vm, HPublish(key), env);
    if CanAlloc(env) && env.mapOk {
      var p0 := (vm, env.region.value.0);
      if !Delivers(env) {
        assert p0 in m' && m'[p0].frame !in s'.live;
      } else if (vm, key) in s.table {
        var p := SomeoneMapped(s, m, (vm, key));
        assert Owned(s, m[p].frame);
        assert p in m' && m'[p].frame !in s'.live;
      } else {
        forall p | p in m' ensures m'[p].frame in s'.live {
          assert p != p0 ==> m[p].frame in s.live;
        }
      }
    }
  }

  lemma {:induction false} PublishTidy(s: State, m: Maps, call: nat, vm: nat, key: nat, env: Env)
    requires Inv(s) && MapsAgree(s, m) && FreshFor(s, m, call, vm, env) && Tidy(s, vm, HPublish(key), env)
    ensures IsRun(s, Script(s, call, vm, HPublish(key), env).0)
    ensures MapsAgree(TableAfter(s, call, vm, HPublish(key), env), MapsAfter(s, m, vm, HPublish(key), env))
  {
    PublishState(s, call, vm, key, env);
    var s', m' := TableAfter(s, call, vm, HPublish(key), env), MapsAfter(s, m, vm, HPublish(key), env);
    if CanAlloc(env) && env.mapOk {
      KnownAfterNew(s, m, (vm, key), s'.table[(vm, key)], s', m', (vm, env.region.value.0));
    }
  }

  /** A new channel with one user, mapped at a new place. */
  lemma {:induction false} KnownAfterNew(s: State, m: Maps, k: Key, c: Channel, s': State, m': Maps, p0: (nat, nat))
    requires MapsAgree(s, m) && k !in s.table && s'.table == s.table[k := c] && p0 !in m
    requires m' == m[p0 := Mapped(c.frame, c.size)]
    requires c.publisher == p0.0 && c.gpa == Some(p0.1) && c.subscribers == map[]
    ensures MapsAgree(s', m')
  {
    forall j | j in s'.table ensures AllMapped(s'.table[j], m') {
      assert j != k ==> s'.table[j] == s.table[j] && AllMapped(s.table[j], m);
    }
    forall p | p in m' ensures Known(s', p) {
      if p == p0 {
        assert k in s'.table && UsesAt(s'.table[k], p.0, p.1);
      } else {
        var j :| j in s.table && UsesAt(s.table[j], p.0, p.1);
        assert j in s'.table && UsesAt(s'.table[j], p.0, p.1);
      }
    }
  }

  // ---- changing one channel

  /** A channel goes, with all its mappings or with some left behind. */
  lemma {:induction false} DanglesAfterDrop(s: State, m: Maps, k: Key, s': State, m': Maps)
    requires Inv(s) && MapsAgree(s, m) && k in s.table && s'.live == s.live - {s.table[k].frame}
    requires forall p :: p in m' ==> p in m && m'[p] == m[p]
    ensures Dangling(s', m') <==> exists p :: p in m' && UsesAt(s.table[k], p.0, p.1)
  {
    MappedIsLive(s, m);
    assert Owned(s, s.table[k].frame);
    if p :| p in m' && m'[p].frame !in s'.live {
      assert m[p].frame in s.live;
      PlaceHasOneChannel(s, m, k, p);
    }
    if p :| p in m' && UsesAt(s.table[k], p.0, p.1) {
      assert m[(p.0, p.1)].frame == s.table[k].frame;
      assert p in m' && m'[p].frame !in s'.live;
    }
  }

  /** Two channels are never at the same place. */
  lemma {:induction false} NotAt(s: State, m: Maps, j: Key, k: Key, vm: nat, gpa: nat)
    requires Inv(s) && MapsAgree(s, m) && k in s.table && j in s.table && j != k && UsesAt(s.table[j], vm, gpa)
    ensures !UsesAt(s.table[k], vm, gpa)
  {
    assert AllMapped(s.table[j], m) && AllMapped(s.table[k], m);
  }

  /** The other channels stay mapped when only places of one channel are unmapped. */
  lemma {:induction false} OthersStay(s: State, m: Maps, m': Maps, j: Key, k: Key)
    requires Inv(s) && MapsAgree(s, m) && k in s.table && j in s.table && j != k
    requires forall p :: p in m && !UsesAt(s.table[k], p.0, p.1) ==> p in m' && m'[p] == m[p]
    ensures AllMapped(s.table[j], m')
  {
    assert AllMapped(s.table[j], m);
    forall vm: nat, gpa: nat | UsesAt(s.table[j], vm, gpa)
      ensures (vm, gpa) in m' && m'[(vm, gpa)] == Mapped(s.table[j].frame, s.table[j].size)
    {
      NotAt(s, m, j, k, vm, gpa);
    }
  }

  lemma {:induction false} TidyDrop(s: State, m: Maps, k: Key, s': State, m': Maps)
    requires Inv(s) && MapsAgree(s, m) && k in s.table && s'.table == s.table - {k}
    requires forall p :: p in m' <==> p in m && !UsesAt(s.table[k], p.0, p.1)
    requires forall p :: p in m' ==> m'[p] == m[p]
    ensures MapsAgree(s', m')
  {
    forall p | p in m' ensures Known(s', p) {
      var j :| j in s.table && UsesAt(s.table[j], p.0, p.1);
      assert j in s'.table && UsesAt(s'.table[j], p.0, p.1);
    }
    forall j | j in s'.table ensures AllMapped(s'.table[j], m') {
      OthersStay(s, m, m', j, k);
    }
  }

  /** One user of a channel leaves, with its mapping, and the channel stays. */
  lemma {:induction false} TidyLeave(s: State, m: Maps, k: Key, c: Channel, s': State, m': Maps, p0: (nat, nat))
    requires Inv(s) && MapsAgree(s, m) && k in s.table && s'.table == s.table[k := c]
    requires c.frame == s.table[k].frame && c.size == s.table[k].size
    requires m' == m - {p0} && UsesAt(s.table[k], p0.0, p0.1) && Apart(c)
    requires forall vm: nat, gpa: nat :: UsesAt(c, vm, gpa) <==> UsesAt(s.table[k], vm, gpa) && (vm, gpa) != p0
    ensures MapsAgree(s', m')
  {
    forall p | p in m' ensures Known(s', p) {
      var j :| j in s.table && UsesAt(s.table[j], p.0, p.1);
      assert j in s'.table && UsesAt(s'.table[j], p.0, p.1);
    }
    forall j | j in s'.table ensures AllMapped(s'.table[j], m') {
      if j == k {
        assert AllMapped(s.table[k], m);
      } else {
        OthersStay(s, m, m', j, k);
      }
    }
  }

  /** A new user joins at a new place. */
  lemma {:induction false} TidyJoin(s: State, m: Maps, k: Key, c: Channel, s': State, m': Maps, p0: (nat, nat))
    requires MapsAgree(s, m) && k in s.table && s'.table == s.table[k := c]
    requires c.frame == s.table[k].frame && c.size == s.table[k].size
    requires p0 !in m && m' == m[p0 := Mapped(c.frame, c.size)] && Apart(c)
    requires forall vm: nat, gpa: nat :: UsesAt(c, vm, gpa) <==> UsesAt(s.table[k], vm, gpa) || (vm, gpa) == p0
    ensures MapsAgree(s', m')
  {
    forall p | p in m' ensures Known(s', p) {
      if p == p0 {
        assert k in s'.table && UsesAt(s'.table[k], p.0, p.1);
      } else {
        var j :| j in s.table && UsesAt(s.table[j], p.0, p.1);
        assert j in s'.table && UsesAt(s'.table[j], p.0, p.1);
      }
    }
  }

  /** One user of a channel leaves and its mapping stays: the table no longer knows of the place. */
  lemma {:induction false} LeftBehind(s: State, m: Maps, k: Key, c: Channel, s': State, p0: (nat, nat))
    requires Inv(s) && MapsAgree(s, m) && k in s.table && s'.table == s.table[k := c]
    requires UsesAt(s.table[k], p0.0, p0.1) && !UsesAt(c, p0.0, p0.1)
    ensures p0 in m && !MapsAgree(s', m)
  {
    assert AllMapped(s.table[k], m);
    forall j | j in s'.table ensures !UsesAt(s'.table[j], p0.0, p0.1) {
      if j != k { NotAt(s, m, k, j, p0.0, p0.1); }
    }
    assert !Known(s', p0);
  }

  // ---- the other calls

  lemma {:induction false} UnpublishDangles(s: State, m: Maps, vm: nat, key: nat, env: Env)
    requires Inv(s) && MapsAgree(s, m)
    ensures Dangling(Next(s, Unpublish(vm, key)).0, MapsAfter(s, m, vm, HUnpublish(key), env))
       <==> LeavesDangling(s, vm, HUnpublish(key), env)
  {
    var k := (vm, key);
    var s', m' := Next(s, Unpublish(vm, key)).0, MapsAfter(s, m, vm, HUnpublish(key), env);
    MappedIsLive(s, m);
    if k in s.table {
      var c := s.table[k];
      if c.gpa.None? || c.subscribers == map[] {
        var p := SomeoneMapped(s, m, k);
        DanglesAfterDrop(s, m, k, s', m');
      }
    }
  }

  lemma {:induction false} UnpublishTidy(s: State, m: Maps, vm: nat, key: nat, env: Env)
    requires Inv(s) && MapsAgree(s, m) && Tidy(s, vm, HUnpublish(key), env)
    ensures MapsAgree(Next(s, Unpublish(vm, key)).0, MapsAfter(s, m, vm, HUnpublish(key), env))
  {
    var k := (vm, key);
    var s', m' := Next(s, Unpublish(vm, key)).0, MapsAfter(s, m, vm, HUnpublish(key), env);
    if k in s.table {
      var c := s.table[k];
      var p0 := (vm, c.gpa.value);
      if c.subscribers == map[] {
        TidyDrop(s, m, k, s', m');
      } else {
        TidyLeave(s, m, k, c.(gpa := None), s', m', p0);
      }
    }
  }

  lemma {:induction false} UnsubscribeDangles(s: State, m: Maps, vm: nat, publisher: nat, key: nat, env: Env)
    requires Inv(s) && MapsAgree(s, m)
    ensures Dangling(Next(s, Unsubscribe(publisher, key, vm)).0,
                     MapsAfter(s, m, vm, HUnsubscribe(publisher, key), env))
       <==> LeavesDangling(s, vm, HUnsubscribe(publisher, key), env)
  {
    var k := (publisher, key);
    var s' := Next(s, Unsubscribe(publisher, key, vm)).0;
    var m' := MapsAfter(s, m, vm, HUnsubscribe(publisher, key), env);
    MappedIsLive(s, m);
    if k in s.table && vm in s.table[k].subscribers {
      var c := s.table[k];
      if c.subscribers - {vm} == map[] && c.gpa.None? {
        OnlySubscriber(c, vm);
        assert UsesAt(c, vm, c.subscribers[vm]) && m[(vm, c.subscribers[vm])] == Mapped(c.frame, c.size);
        DanglesAfterDrop(s, m, k, s', m');
      }
    }
  }

  lemma {:induction false} OnlySubscriber(c: Channel, vm: nat)
    requires vm in c.subscribers && c.subscribers - {vm} == map[] && c.gpa.None?
    ensures forall v: nat, g: nat :: UsesAt(c, v, g) <==> v == vm && g == c.subscribers[vm]
  {
    assert (c.subscribers - {vm}).Keys == {};
    forall v | v in c.subscribers ensures v == vm {
      assert v in (c.subscribers - {vm}).Keys <==> v != vm;
    }
  }

  lemma {:induction false} UnsubscribeTidy(s: State, m: Maps, vm: nat, publisher: nat, key: nat, env: Env)
    requires Inv(s) && MapsAgree(s, m) && Tidy(s, vm, HUnsubscribe(publisher, key), env)
    ensures MapsAgree(Next(s, Unsubscribe(publisher, key, vm)).0,
                      MapsAfter(s, m, vm, HUnsubscribe(publisher, key), env))
  {
    var k := (publisher, key);
    var s' := Next(s, Unsubscribe(publisher, key, vm)).0;
    var m' := MapsAfter(s, m, vm, HUnsubscribe(publisher, key), env);
    if k in s.table && vm in s.table[k].subscribers {
      var c := s.table[k];
      var p0 := (vm, c.subscribers[vm]);
      if c.subscribers - {vm} == map[] && c.gpa.None? {
        OnlySubscriber(c, vm);
        TidyDrop(s, m, k, s', m');
      } else {
        TidyLeave(s, m, k, c.(subscribers := c.subscribers - {vm}), s', m', p0);
      }
    }
  }

  lemma {:induction false} SubscribeNeverDangles(s: State, m: Maps, vm: nat, publisher: nat, key: nat, env: Env)
    requires Inv(s) && MapsAgree(s, m) && env.region.Some?
    ensures !Dangling(Next(s, Subscribe(publisher, key, vm, env.region.value.0)).0,
                      MapsAfter(s, m, vm, HSubscribe(publisher, key), env))
  {
    MappedIsLive(s, m);
    if (publisher, key) in s.table {
      var c := s.table[(publisher, key)];
      assert Owned(s, c.frame);
      StillLive(s, m, (vm, env.region.value.0), Mapped(c.frame, c.size));
    }
  }

  lemma {:induction false} StillLive(s: State, m: Maps, p0: (nat, nat), what: Mapped)
    requires !Dangling(s, m) && what.frame in s.live
    ensures !Dangling(s, m[p0 := what])
  {
    var m' := m[p0 := what];
    forall p | p in m' ensures m'[p].frame in s.live {
      assert p != p0 ==> p in m && m'[p] == m[p];
    }
  }

  lemma {:induction false} SubscribeTidy(s: State, m: Maps, vm: nat, publisher: nat, key: nat, env: Env)
    requires Inv(s) && MapsAgree(s, m) && Tidy(s, vm, HSubscribe(publisher, key), env)
    requires env.region.Some? && (vm, env.region.value.0) !in m
    ensures MapsAgree(Next(s, Subscribe(publisher, key, vm, env.region.value.0)).0,
                      MapsAfter(s, m, vm, HSubscribe(publisher, key), env))
  {
    var k, p0 := (publisher, key), (vm, env.region.value.0);
    var s' := Next(s, Subscribe(publisher, key, vm, env.region.value.0)).0;
    var m' := MapsAfter(s, m, vm, HSubscribe(publisher, key), env);
    if k in s.table {
      var c := s.table[k];
      if vm in c.subscribers {
        assert s'.table == s.table;
      } else {
        var c' := c.(subscribers := c.subscribers[vm := env.region.value.0]);
        if c.publisher == vm && c.gpa.Some? {
          assert UsesAt(c, vm, c.gpa.value) && (vm, c.gpa.value) in m;
        }
        TidyJoin(s, m, k, c', s', m', p0);
      }
    }
  }

  // ---- every call, and runs of calls

  lemma {:induction false} ScriptRuns(s: State, call: nat, vm: nat, what: HyperCall, env: Env)
    requires Inv(s) && call !in s.pending && (env.frame.Some? ==> env.frame.value !in s.live)
    ensures var steps := Script(s, call, vm, what, env).0;
      && IsRun(s, steps) && Inv(Run(s, steps)) && (steps == [] ==> Run(s, steps) == s)
      && (|steps| == 1 ==> Run(s, steps) == Next(s, steps[0]).0)
      && (|steps| <= 1 ==> Run(s, steps).pending == s.pending)
  {
    var steps := Script(s, call, vm, what, env).0;
    if |steps| == 2 {
      TwoSteps(s, steps[0], steps[1]);
    } else if |steps| == 1 {
      OneStep(s, steps[0]);
    }
    RunKeepsInv(s, steps);
  }

  /** From agreeing maps, a call leaves a frame mapped that is not live if and only if it is one of those listed. */
  lemma {:induction false} DanglesIff(s: State, m: Maps, call: nat, vm: nat, what: HyperCall, env: Env)
    requires Inv(s) && MapsAgree(s, m) && FreshFor(s, m, call, vm, env)
    ensures IsRun(s, Script(s, call, vm, what, env).0)
    ensures Dangling(TableAfter(s, call, vm, what, env), MapsAfter(s, m, vm, what, env))
       <==> LeavesDangling(s, vm, what, env)
  {
    ScriptRuns(s, call, vm, what, env);
    match what
    case HPublish(key) => PublishDangles(s, m, call, vm, key, env);
    case HUnpublish(key) => UnpublishDangles(s, m, vm, key, env);
    case HSubscribe(publisher, key) =>
      MappedIsLive(s, m);
      if env.region.Some? { SubscribeNeverDangles(s, m, vm, publisher, key, env); }
    case HUnsubscribe(publisher, key) => UnsubscribeDangles(s, m, vm, publisher, key, env);
    case HOther => MappedIsLive(s, m);
  }

  lemma {:induction false} TidyAgrees(s: State, m: Maps, call: nat, vm: nat, what: HyperCall, env: Env)
    requires Inv(s) && MapsAgree(s, m) && FreshFor(s, m, call, vm, env) && Tidy(s, vm, what, env)
    ensures IsRun(s, Script(s, call, vm, what, env).0)
    ensures MapsAgree(TableAfter(s, call, vm, what, env), MapsAfter(s, m, vm, what, env))
  {
    ScriptRuns(s, call, vm, what, env);
    match what
    case HPublish(key) => PublishTidy(s, m, call, vm, key, env);
    case HUnpublish(key) => UnpublishTidy(s, m, vm, key, env);
    case HSubscribe(publisher, key) =>
      if env.region.Some? { SubscribeTidy(s, m, vm, publisher, key, env); }
    case HUnsubscribe(publisher, key) => UnsubscribeTidy(s, m, vm, publisher, key, env);
    case HOther =>
  }

  lemma {:induction false} UntidyUnpublish(s: State, m: Maps, vm: nat, key: nat, env: Env)
    requires Inv(s) && MapsAgree(s, m) && !Tidy(s, vm, HUnpublish(key), env)
    requires !LeavesDangling(s, vm, HUnpublish(key), env)
    ensures !MapsAgree(Next(s, Unpublish(vm, key)).0, MapsAfter(s, m, vm, HUnpublish(key), env))
  {
    var c := s.table[(vm, key)];
    assert AllMapped(c, m);
    LeftBehind(s, m, (vm, key), c.(gpa := None), Next(s, Unpublish(vm, key)).0, (vm, c.gpa.value));
  }

  lemma {:induction false} UntidyUnsubscribe(s: State, m: Maps, vm: nat, publisher: nat, key: nat, env: Env)
    requires Inv(s) && MapsAgree(s, m) && !Tidy(s, vm, HUnsubscribe(publisher, key), env)
    requires !LeavesDangling(s, vm, HUnsubscribe(publisher, key), env)
    ensures !MapsAgree(Next(s, Unsubscribe(publisher, key, vm)).0,
                       MapsAfter(s, m, vm, HUnsubscribe(publisher, key), env))
  {
    var c := s.table[(publisher, key)];
    assert AllMapped(c, m);
    var c' := c.(subscribers := c.subscribers - {vm});
    LeftBehind(s, m, (publisher, key), c', Next(s, Unsubscribe(publisher, key, vm)).0, (vm, c.subscribers[vm]));
  }

  lemma {:induction false} UntidySubscribe(s: State, m: Maps, vm: nat, publisher: nat, key: nat, env: Env)
    requires MapsAgree(s, m) && !Tidy(s, vm, HSubscribe(publisher, key), env)
    requires env.region.Some? && (vm, env.region.value.0) !in m
    ensures !MapsAgree(Next(s, Subscribe(publisher, key, vm, env.region.value.0)).0,
                       MapsAfter(s, m, vm, HSubscribe(publisher, key), env))
  {
    var k, g := (publisher, key), env.region.value.0;
    var s' := Next(s, Subscribe(publisher, key, vm, g)).0;
    if env.mapOk {
      forall j | j in s'.table ensures !UsesAt(s'.table[j], vm, g) {
        assert s'.table[j] == s.table[j] && AllMapped(s.table[j], m);
      }
      assert !Known(s', (vm, g));
    } else {
      assert k in s'.table && UsesAt(s'.table[k], vm, g);
    }
  }

  /** From agreeing maps, the maps agree after a call if and only if the call is tidy. */
  lemma {:induction false} AgreesIff(s: State, m: Maps, call: nat, vm: nat, what: HyperCall, env: Env)
    requires Inv(s) && MapsAgree(s, m) && FreshFor(s, m, call, vm, env)
    ensures IsRun(s, Script(s, call, vm, what, env).0)
    ensures MapsAgree(TableAfter(s, call, vm, what, env), MapsAfter(s, m, vm, what, env)) <==> Tidy(s, vm, what, env)
  {
    ScriptRuns(s, call, vm, what, env);
    if Tidy(s, vm, what, env) {
      TidyAgrees(s, m, call, vm, what, env);
    } else if LeavesDangling(s, vm, what, env) {
      DanglesIff(s, m, call, vm, what, env);
      var s', m' := TableAfter(s, call, vm, what, env), MapsAfter(s, m, vm, what, env);
      if MapsAgree(s', m') { MappedIsLive(s', m'); }
    } else {
      match what
      case HUnpublish(key) => UntidyUnpublish(s, m, vm, key, env);
      case HSubscribe(publisher, key) => UntidySubscribe(s, m, vm, publisher, key, env);
      case HUnsubscribe(publisher, key) => UntidyUnsubscribe(s, m, vm, publisher, key, env);
    }
  }

  // ---- what success means

  ghost predicate HasMapped(m: Maps, vm: nat, gpa: nat, frame: nat, size: nat) {
    (vm, gpa) in m && m[(vm, gpa)] == Mapped(frame, size)
  }

  /** What a call is for: the table, the mapping and the answer to the guest are all as asked. */
  ghost predicate Achieves(s: State, vm: nat, what: HyperCall, env: Env, s': State, m': Maps) {
    match what
    case HPublish(key) =>
      && CanAlloc(env) && env.writeBaseOk && env.writeSizeOk && (vm, key) !in s.table && (vm, key) in s'.table
      && var (gpa, size) := env.region.value;
      && s'.table[(vm, key)] == Channel(vm, key, map[], env.frame.value, Min(size, 4096), Some(gpa))
      && HasMapped(m', vm, gpa, env.frame.value, Min(size, 4096))
    case HUnpublish(key) =>
      && (vm, key) in s.table && s.table[(vm, key)].gpa.Some? && (vm, s.table[(vm, key)].gpa.value) !in m'
      && ((vm, key) in s'.table ==> s'.table[(vm, key)].gpa.None?)
    case HSubscribe(publisher, key) =>
      var k := (publisher, key);
      && k in s.table && env.region.Some? && env.writeBaseOk && env.writeSizeOk
      && k in s'.table && vm in s'.table[k].subscribers
      && HasMapped(m', vm, env.region.value.0, s.table[k].frame, s.table[k].size)
    case HUnsubscribe(publisher, key) =>
      var k := (publisher, key);
      && k in s.table && vm in s.table[k].subscribers && (vm, s.table[k].subscribers[vm]) !in m'
      && (k in s'.table ==> vm !in s'.table[k].subscribers)
    case HOther => false
  }

  lemma {:induction false} PublishSuccess(s: State, m: Maps, call: nat, vm: nat, key: nat, env: Env, s': State)
    requires !CanAlloc(env) || !Delivers(env) ==> s' == s
    requires CanAlloc(env) && Delivers(env) ==> Published(s, vm, key, env, s')
    requires env.region.Some? ==> (vm, env.region.value.0) !in m
    ensures Script(s, call, vm, HPublish(key), env).1 <==>
      Achieves(s, vm, HPublish(key), env, s', MapsAfter(s, m, vm, HPublish(key), env))
  {
  }

  lemma {:induction false} UnpublishSuccess(s: State, m: Maps, call: nat, vm: nat, key: nat, env: Env)
    requires MapsAgree(s, m) && Inv(s)
    ensures Script(s, call, vm, HUnpublish(key), env).1 <==>
      Achieves(s, vm, HUnpublish(key), env, Next(s, Unpublish(vm, key)).0, MapsAfter(s, m, vm, HUnpublish(key), env))
  {
    if (vm, key) in s.table && s.table[(vm, key)].gpa.Some? {
      assert AllMapped(s.table[(vm, key)], m) && UsesAt(s.table[(vm, key)], vm, s.table[(vm, key)].gpa.value);
    }
  }

  lemma {:induction false} SubscribeSuccess(s: State, m: Maps, call: nat, vm: nat, publisher: nat, key: nat, env: Env,
        s': State)
    requires env.region.Some? ==> (vm, env.region.value.0) !in m
    requires (publisher, key) in s.table && env.region.Some? ==>
      s' == Next(s, Subscribe(publisher, key, vm, env.region.value.0)).0
    ensures Script(s, call, vm, HSubscribe(publisher, key), env).1 <==>
      Achieves(s, vm, HSubscribe(publisher, key), env, s', MapsAfter(s, m, vm, HSubscribe(publisher, key), env))
  {
  }

  lemma {:induction false} UnsubscribeSuccess(s: State, m: Maps, call: nat, vm: nat, publisher: nat, key: nat, env: Env)
    requires MapsAgree(s, m)
    ensures Script(s, call, vm, HUnsubscribe(publisher, key), env).1 <==>
      Achieves(s, vm, HUnsubscribe(publisher, key), env, Next(s, Unsubscribe(publisher, key, vm)).0,
               MapsAfter(s, m, vm, HUnsubscribe(publisher, key), env))
  {
    var k := (publisher, key);
    if k in s.table && vm in s.table[k].subscribers {
      assert AllMapped(s.table[k], m) && UsesAt(s.table[k], vm, s.table[k].subscribers[vm]);
    }
  }

  /** A call reports success if and only if it has achieved what it is for. */
  lemma {:induction false} SuccessIff(s: State, m: Maps, call: nat, vm: nat, what: HyperCall, env: Env)
    requires Inv(s) && MapsAgree(s, m) && FreshFor(s, m, call, vm, env)
    ensures IsRun(s, Script(s, call, vm, what, env).0)
    ensures Script(s, call, vm, what, env).1 <==>
      Achieves(s, vm, what, env, TableAfter(s, call, vm, what, env), MapsAfter(s, m, vm, what, env))
  {
    ScriptRuns(s, call, vm, what, env);
    var s' := TableAfter(s, call, vm, what, env);
    match what
    case HPublish(key) =>
      PublishState(s, call, vm, key, env);
      PublishSuccess(s, m, call, vm, key, env, s');
    case HUnpublish(key) => UnpublishSuccess(s, m, call, vm, key, env);
    case HSubscribe(publisher, key) => SubscribeSuccess(s, m, call, vm, publisher, key, env, s');
    case HUnsubscribe(publisher, key) => UnsubscribeSuccess(s, m, call, vm, publisher, key, env);
    case HOther =>
  }

  // ---- runs of calls

  /** One hypercall, with the answers of its surroundings. */
  datatype Request = Request(call: nat, vm: nat, what: HyperCall, env: Env)

  /** Calls one after another, each at fresh frames and addresses. */
  ghost predicate IsCallRun(s: State, m: Maps, calls: seq<Request>)
    decreases |calls|
  {
    calls == [] ||
    (var c := calls[0];
     && FreshFor(s, m, c.call, c.vm, c.env) && IsRun(s, Script(s, c.call, c.vm, c.what, c.env).0)
     && IsCallRun(TableAfter(s, c.call, c.vm, c.what, c.env), MapsAfter(s, m, c.vm, c.what, c.env), calls[1..]))
  }

  /** Every call of the run is tidy where it is made. */
  ghost predicate TidyRun(s: State, m: Maps, calls: seq<Request>)
    requires IsCallRun(s, m, calls)
    decreases |calls|
  {
    calls == [] ||
    (var c := calls[0];
     && Tidy(s, c.vm, c.what, c.env)
     && TidyRun(TableAfter(s, c.call, c.vm, c.what, c.env), MapsAfter(s, m, c.vm, c.what, c.env), calls[1..]))
  }

  /** The maps agree with the table at the start and after every call. */
  ghost predicate AlwaysAgree(s: State, m: Maps, calls: seq<Request>)
    requires IsCallRun(s, m, calls)
    decreases |calls|
  {
    MapsAgree(s, m) &&
    (calls != [] ==>
       var c := calls[0];
       AlwaysAgree(TableAfter(s, c.call, c.vm, c.what, c.env), MapsAfter(s, m, c.vm, c.what, c.env), calls[1..]))
  }

  /** No frame that has been given back is mapped, at the start and after every call. */
  ghost predicate NeverDangling(s: State, m: Maps, calls: seq<Request>)
    requires IsCallRun(s, m, calls)
    decreases |calls|
  {
    !Dangling(s, m) &&
    (calls != [] ==>
       var c := calls[0];
       NeverDangling(TableAfter(s, c.call, c.vm, c.what, c.env), MapsAfter(s, m, c.vm, c.what, c.env), calls[1..]))
  }

  /** Over every run of calls: the maps always agree with the table if and only if every call is tidy. */
  lemma {:induction false} AlwaysAgreeIff(s: State, m: Maps, calls: seq<Request>)
    requires Inv(s) && MapsAgree(s, m) && IsCallRun(s, m, calls)
    ensures AlwaysAgree(s, m, calls) <==> TidyRun(s, m, calls)
    decreases |calls|
  {
    if calls != [] {
      var c := calls[0];
      AgreesIff(s, m, c.call, c.vm, c.what, c.env);
      ScriptRuns(s, c.call, c.vm, c.what, c.env);
      var s', m' := TableAfter(s, c.call, c.vm, c.what, c.env), MapsAfter(s, m, c.vm, c.what, c.env);
      if Tidy(s, c.vm, c.what, c.env) { AlwaysAgreeIff(s', m', calls[1..]); }
    }
  }

  /** In a run of tidy calls no mapped frame is ever given back. */
  lemma {:induction false} TidyRunNeverDangles(s: State, m: Maps, calls: seq<Request>)
    requires Inv(s) && MapsAgree(s, m) && IsCallRun(s, m, calls) && TidyRun(s, m, calls)
    ensures NeverDangling(s, m, calls)
    decreases |calls|
  {
    MappedIsLive(s, m);
    if calls != [] {
      var c := calls[0];
      TidyAgrees(s, m, c.call, c.vm, c.what, c.env);
      ScriptRuns(s, c.call, c.vm, c.what, c.env);
      var s', m' := TableAfter(s, c.call, c.vm, c.what, c.env), MapsAfter(s, m, c.vm, c.what, c.env);
      TidyRunNeverDangles(s', m', calls[1..]);
    }
  }
}

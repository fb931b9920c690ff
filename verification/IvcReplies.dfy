/** What the replies of the channel table name, over whole runs. */
module IvcReplies {
  import opened Basics
  import opened Ivc

  lemma {:induction false} RunOn(s: State, a: seq<Step>, b: seq<Step>)
    requires IsRun(s, a + b)
    ensures IsRun(s, a) && IsRun(Run(s, a), b) && Run(s, a + b) == Run(Run(s, a), b)
    decreases |a|
  {
    if a == [] {
      EmptyAppend(b);
    } else {
      ConsTail(a, b);
      RunOn(Next(s, a[0]).0, a[1..], b);
    }
  }

  lemma {:induction false} RunOne(s: State, a: Step, b: seq<Step>)
    requires IsRun(s, [a] + b)
    ensures Enabled(s, a) && IsRun(Next(s, a).0, b) && Run(s, [a] + b) == Run(Next(s, a).0, b)
  {
    ConsTail([a], b);
    EmptyAppend(b);
  }

  // ---- a channel between its allocation and its insertion

  /** No step of the call that holds the channel. */
  predicate LeavesCall(steps: seq<Step>, call: nat) {
    forall i :: 0 <= i < |steps| ==> steps[i] != Insert(call) && steps[i] != Abandon(call)
  }

  lemma {:induction false} PendingStays(s: State, steps: seq<Step>, call: nat)
    requires IsRun(s, steps) && call in s.pending && LeavesCall(steps, call)
    ensures call in Run(s, steps).pending && Run(s, steps).pending[call] == s.pending[call]
    decreases |steps|
  {
    if steps != [] {
      assert steps[0] != Insert(call) && steps[0] != Abandon(call);
      PendingStays(Next(s, steps[0]).0, steps[1..], call);
    }
  }

  // ---- a channel between its insertion and its withdrawal

  /** The step puts another channel under the key. */
  predicate Republishes(s: State, step: Step, k: Key)
    requires Enabled(s, step)
  {
    step.Insert? && (s.pending[step.call].publisher, s.pending[step.call].key) == k
  }

  /** No step publishes under the key or withdraws what is there. */
  predicate LeavesKey(s: State, steps: seq<Step>, k: Key)
    requires IsRun(s, steps)
    decreases |steps|
  {
    steps == [] ||
    (!Republishes(s, steps[0], k) && steps[0] != Unpublish(k.0, k.1) && LeavesKey(Next(s, steps[0]).0, steps[1..], k))
  }

  /** The channel under the key is published at `gpa` and has this frame and size. */
  predicate PublishedAs(s: State, k: Key, frame: nat, size: nat, gpa: nat) {
    k in s.table && s.table[k].frame == frame && s.table[k].size == size && s.table[k].gpa == Some(gpa)
  }

  lemma {:induction false} PublishedStays(s: State, steps: seq<Step>, k: Key, frame: nat, size: nat, gpa: nat)
    requires IsRun(s, steps) && LeavesKey(s, steps, k) && PublishedAs(s, k, frame, size, gpa)
    ensures PublishedAs(Run(s, steps), k, frame, size, gpa)
    decreases |steps|
  {
    if steps != [] {
      PublishedStays(Next(s, steps[0]).0, steps[1..], k, frame, size, gpa);
    }
  }

  /** A publication: its frame is taken, other calls go on, and its channel is inserted. */
  function Publication(call: nat, k: Key, size: nat, gpa: nat, frame: nat, meanwhile: seq<Step>): seq<Step> {
    [Alloc(call, k.0, k.1, size, gpa, frame)] + (meanwhile + [Insert(call)])
  }

  lemma {:induction false} PublicationPublishes(s: State, call: nat, k: Key, size: nat, gpa: nat, frame: nat,
        meanwhile: seq<Step>)
    requires IsRun(s, Publication(call, k, size, gpa, frame, meanwhile)) && LeavesCall(meanwhile, call)
    ensures PublishedAs(Run(s, Publication(call, k, size, gpa, frame, meanwhile)), k, frame, Min(size, 4096), gpa)
  {
    var alloc := Alloc(call, k.0, k.1, size, gpa, frame);
    RunOne(s, alloc, meanwhile + [Insert(call)]);
    var taken := Next(s, alloc).0;
    RunOn(taken, meanwhile, [Insert(call)]);
    PendingStays(taken, meanwhile, call);
    EmptyAppend([Insert(call)]);
    RunOne(Run(taken, meanwhile), Insert(call), []);
  }

  /**
   * The reply to a withdrawal names the very address at which the channel was published, and its size then, up
   * to the 4096 bytes of a frame, whatever other calls do in between. So does the reply to a subscription with
   * the frame that was taken.
   */
  lemma {:induction false} RepliesNamePublication(s: State, call: nat, k: Key, size: nat, gpa: nat, frame: nat,
        meanwhile: seq<Step>, after: seq<Step>)
    requires IsRun(s, Publication(call, k, size, gpa, frame, meanwhile)) && LeavesCall(meanwhile, call)
    requires var published := Run(s, Publication(call, k, size, gpa, frame, meanwhile));
      IsRun(published, after) && LeavesKey(published, after, k)
    ensures var now := Run(Run(s, Publication(call, k, size, gpa, frame, meanwhile)), after);
      && Next(now, Unpublish(k.0, k.1)).1 == Region(gpa, Min(size, 4096))
      && forall vm, place :: Next(now, Subscribe(k.0, k.1, vm, place)).1 == Mapping(frame, Min(size, 4096))
  {
    PublicationPublishes(s, call, k, size, gpa, frame, meanwhile);
    PublishedStays(Run(s, Publication(call, k, size, gpa, frame, meanwhile)), after, k, frame, Min(size, 4096), gpa);
  }

  // ---- a subscription until it ends

  /** No step publishes under the key, ends the subscription, or withdraws a second time. */
  predicate LeavesSubscription(s: State, steps: seq<Step>, k: Key, vm: nat)
    requires IsRun(s, steps)
    decreases |steps|
  {
    steps == [] ||
    (&& !Republishes(s, steps[0], k) && steps[0] != Unsubscribe(k.0, k.1, vm)
     && (steps[0] == Unpublish(k.0, k.1) ==> k in s.table && s.table[k].gpa.Some?)
     && LeavesSubscription(Next(s, steps[0]).0, steps[1..], k, vm))
  }

  predicate SubscribedAt(s: State, k: Key, vm: nat, size: nat, place: nat) {
    k in s.table && s.table[k].size == size && vm in s.table[k].subscribers && s.table[k].subscribers[vm] == place
  }

  lemma {:induction false} SubscriptionStep(s: State, step: Step, k: Key, vm: nat, size: nat, place: nat)
    requires Enabled(s, step) && SubscribedAt(s, k, vm, size, place)
    requires !Republishes(s, step, k) && step != Unsubscribe(k.0, k.1, vm)
    requires step == Unpublish(k.0, k.1) ==> s.table[k].gpa.Some?
    ensures SubscribedAt(Next(s, step).0, k, vm, size, place)
  {
    var c := s.table[k];
    assert c.subscribers != map[];
    if step.Unsubscribe? && (step.publisher, step.key) == k {
      assert vm in c.subscribers - {step.vm};
    }
  }

  lemma {:induction false} SubscriptionStays(s: State, steps: seq<Step>, k: Key, vm: nat, size: nat, place: nat)
    requires IsRun(s, steps) && LeavesSubscription(s, steps, k, vm) && SubscribedAt(s, k, vm, size, place)
    ensures SubscribedAt(Run(s, steps), k, vm, size, place)
    decreases |steps|
  {
    if steps != [] {
      SubscriptionStep(s, steps[0], k, vm, size, place);
      SubscriptionStays(Next(s, steps[0]).0, steps[1..], k, vm, size, place);
    }
  }

  /**
   * The reply when a subscription ends names the very address at which it began, and the size that its own
   * reply named then, whatever other calls did in between; the channel may have been withdrawn.
   */
  lemma {:induction false} EndNamesSubscription(s: State, k: Key, vm: nat, place: nat, after: seq<Step>)
    requires k in s.table && vm !in s.table[k].subscribers
    requires IsRun(Next(s, Subscribe(k.0, k.1, vm, place)).0, after)
    requires LeavesSubscription(Next(s, Subscribe(k.0, k.1, vm, place)).0, after, k, vm)
    ensures var (subscribed, first) := Next(s, Subscribe(k.0, k.1, vm, place));
      first.Mapping? && Next(Run(subscribed, after), Unsubscribe(k.0, k.1, vm)).1 == Region(place, first.size)
  {
    SubscriptionStays(Next(s, Subscribe(k.0, k.1, vm, place)).0, after, k, vm, s.table[k].size, place);
  }
}

/** Subscriptions to external interrupts: a vcpu that is subscribed to a vector waits in the vector's
    dispatch queue of its processor, leaves it when the interrupt is dispatched, and comes back when the
    interrupt is injected at its next entry.

    A step machine of one physical processor and one vector, with any number of vcpus pinned to the
    processor; processors and vectors share nothing of this.  A section under the dispatch lock or a
    pending lock is one step.  Permissions change and interrupts become pending from other processors
    at any time. */
module Subscription {
  import opened Seqs

  /** `pending` is the vector's bit of the pending set, or the pending NMI for the NMI vector. */
  datatype Vcpu = Vcpu(allowed: bool, subscribed: bool, pending: bool, terminated: bool)

  /** Where the processor is.  It takes external interrupts only when Open. */
  datatype Phase =
    | Open
    | Entering(v: nat)       // __venter: interrupts are off, injection not yet decided
    | Requeueing(v: nat)     // the vector was injected, its subscription not yet looked at

  datatype State = State(vcpus: seq<Vcpu>, queue: seq<nat>, phase: Phase)

  datatype Action =
    | Subscribe(v: nat)
    | Unsubscribe(v: nat)
    | SetPermission(v: nat, allow: bool)
    | SetPending(v: nat)
    | Dispatch
    | BeginEntry(v: nat)
    | Inject                 // the entry injects the vector
    | InjectOther            // it injects something else or nothing
    | Requeue
    | Terminate(v: nat)

  predicate Enabled(s: State, a: Action) {
    match a
    case Subscribe(v) => v < |s.vcpus| && s.phase.Open? && !s.vcpus[v].terminated
    case Unsubscribe(v) => v < |s.vcpus| && s.phase.Open? && !s.vcpus[v].terminated
    case SetPermission(v, _) => v < |s.vcpus|
    case SetPending(v) => v < |s.vcpus|
    case Dispatch => s.phase.Open?
    case BeginEntry(v) => v < |s.vcpus| && s.phase.Open? && !s.vcpus[v].terminated
    case Inject => s.phase.Entering? && s.phase.v < |s.vcpus| && s.vcpus[s.phase.v].pending
    case InjectOther => s.phase.Entering?
    case Requeue => s.phase.Requeueing? && s.phase.v < |s.vcpus|
    case Terminate(v) => v < |s.vcpus| && (s.phase.Open? || s.phase.v != v)
  }

  function SetVcpu(s: State, v: nat, x: Vcpu): State
    requires v < |s.vcpus|
  {
    State(s.vcpus[v := x], s.queue, s.phase)
  }

  /** vdispatch_interrupt: walks the queue, sets the vector pending and empties the queue. */
  function Deliver(vs: seq<Vcpu>, q: seq<nat>): seq<Vcpu>
    decreases |q|
  {
    if q == [] then vs
    else if q[0] < |vs| then Deliver(vs[q[0] := vs[q[0]].(pending := true)], q[1..])
    else Deliver(vs, q[1..])
  }

  function Apply(s: State, a: Action): State
    requires Enabled(s, a)
  {
    match a
    case Subscribe(v) =>
      var x := s.vcpus[v];
      if !x.allowed then s
      else
        State(s.vcpus[v := x.(subscribed := true)], if !x.pending && v !in s.queue then s.queue + [v] else s.queue, s.phase)
    case Unsubscribe(v) =>
      var x := s.vcpus[v];
      if !x.allowed then s else State(s.vcpus[v := x.(subscribed := false)], Without(s.queue, v), s.phase)
    case SetPermission(v, allow) =>
      var x := s.vcpus[v];
      if allow then SetVcpu(s, v, x.(allowed := true))
      else State(s.vcpus[v := x.(allowed := false, subscribed := false)], Without(s.queue, v), s.phase)
    case SetPending(v) => SetVcpu(s, v, s.vcpus[v].(pending := true))
    case Dispatch => State(Deliver(s.vcpus, s.queue), [], s.phase)
    case BeginEntry(v) => State(s.vcpus, s.queue, Entering(v))
    case Inject =>
      var v := s.phase.v;
      State(s.vcpus[v := s.vcpus[v].(pending := false)], s.queue, Requeueing(v))
    case InjectOther => State(s.vcpus, s.queue, Open)
    case Requeue =>
      var v := s.phase.v;
      State(s.vcpus, if s.vcpus[v].subscribed && v !in s.queue then s.queue + [v] else s.queue, Open)
    case Terminate(v) =>
      State(s.vcpus[v := s.vcpus[v].(terminated := true)], Without(s.queue, v), s.phase)
  }

  // ---------------------------------------------------------------------------
  // The invariant
  // ---------------------------------------------------------------------------

  ghost predicate VcpuOk(s: State, v: nat)
    requires v < |s.vcpus|
  {
    var x := s.vcpus[v];
    && (x.subscribed ==> x.allowed)
    && (v in s.queue ==> x.subscribed && !x.terminated)
    && (x.subscribed && !x.terminated ==> v in s.queue || x.pending || s.phase == Requeueing(v))
  }

  ghost predicate Inv(s: State) {
    && NoDup(s.queue)
    && (forall v | v in s.queue :: v < |s.vcpus|)
    && (!s.phase.Open? ==> s.phase.v < |s.vcpus| && !s.vcpus[s.phase.v].terminated)
    && (forall v: nat {:trigger VcpuOk(s, v)} | v < |s.vcpus| :: VcpuOk(s, v))
  }

  lemma {:induction false} Delivered(vs: seq<Vcpu>, q: seq<nat>)
    ensures |Deliver(vs, q)| == |vs|
    ensures forall v: nat | v < |vs| :: Deliver(vs, q)[v] == if v in q then vs[v].(pending := true) else vs[v]
    decreases |q|
  {
    if q != [] {
      var vs' := if q[0] < |vs| then vs[q[0] := vs[q[0]].(pending := true)] else vs;
      Delivered(vs', q[1..]);
      forall v: nat | v < |vs| ensures Deliver(vs, q)[v] == if v in q then vs[v].(pending := true) else vs[v] {
        assert v in q <==> v == q[0] || v in q[1..];
      }
    }
  }

  /** How a step may leave the queue. */
  lemma StepQueue(s: State, a: Action)
    requires Inv(s) && Enabled(s, a)
    ensures var s' := Apply(s, a); |s'.vcpus| == |s.vcpus| && NoDup(s'.queue) && forall v | v in s'.queue :: v < |s'.vcpus|
  {
    match a
    case Unsubscribe(v) => WithoutMembers(s.queue, v);
    case SetPermission(v, _) => WithoutMembers(s.queue, v);
    case Terminate(v) => WithoutMembers(s.queue, v);
    case Dispatch => Delivered(s.vcpus, s.queue);
    case _ =>
  }

  lemma StepVcpu(s: State, a: Action, v: nat)
    requires Inv(s) && Enabled(s, a) && v < |s.vcpus|
    ensures |Apply(s, a).vcpus| == |s.vcpus| && VcpuOk(Apply(s, a), v)
  {
    assert VcpuOk(s, v);
    match a
    case Unsubscribe(w) => WithoutMembers(s.queue, w);
    case SetPermission(w, _) => WithoutMembers(s.queue, w);
    case Terminate(w) => WithoutMembers(s.queue, w);
    case Dispatch => Delivered(s.vcpus, s.queue);
    case _ =>
  }

  lemma StepPhase(s: State, a: Action)
    requires Inv(s) && Enabled(s, a)
    ensures var s' := Apply(s, a);
      !s'.phase.Open? ==> |s'.vcpus| == |s.vcpus| && s'.phase.v < |s'.vcpus| && !s'.vcpus[s'.phase.v].terminated
  {
    if a.Dispatch? { Delivered(s.vcpus, s.queue); }
  }

  lemma StepInv(s: State, a: Action)
    requires Inv(s) && Enabled(s, a)
    ensures Inv(Apply(s, a))
  {
    StepQueue(s, a);
    StepPhase(s, a);
    var s' := Apply(s, a);
    forall v: nat | v < |s'.vcpus| ensures VcpuOk(s', v) { StepVcpu(s, a, v); }
  }

  // ---------------------------------------------------------------------------
  // Main results, over every run
  // ---------------------------------------------------------------------------

  predicate Initial(s: State) {
    s.queue == [] && s.phase.Open? && forall v: nat | v < |s.vcpus| :: !s.vcpus[v].subscribed
  }

  ghost predicate EnabledRun(s: State, acts: seq<Action>)
    decreases |acts|
  {
    acts == [] || (Enabled(s, acts[0]) && EnabledRun(Apply(s, acts[0]), acts[1..]))
  }

  ghost function Run(s: State, acts: seq<Action>): State
    requires EnabledRun(s, acts)
    decreases |acts|
  {
    if acts == [] then s else Run(Apply(s, acts[0]), acts[1..])
  }

  lemma {:induction false} RunInv(s: State, acts: seq<Action>)
    requires Inv(s) && EnabledRun(s, acts)
    ensures Inv(Run(s, acts))
    decreases |acts|
  {
    if acts != [] {
      StepInv(s, acts[0]);
      RunInv(Apply(s, acts[0]), acts[1..]);
    }
  }

  ghost predicate Reachable(s: State) {
    exists s0: State, acts: seq<Action> :: Initial(s0) && EnabledRun(s0, acts) && s == Run(s0, acts)
  }

  lemma ReachableInv(s: State)
    requires Reachable(s)
    ensures Inv(s)
  {
    var s0: State, acts: seq<Action> :| Initial(s0) && EnabledRun(s0, acts) && s == Run(s0, acts);
    forall v: nat | v < |s0.vcpus| ensures VcpuOk(s0, v) { }
    RunInv(s0, acts);
  }

  /** Whenever the processor can take an external interrupt, every subscribed vcpu waits in the queue or
      has the interrupt pending already. */
  lemma NeverDropsOut(s: State, v: nat)
    requires Reachable(s) && s.phase.Open? && v < |s.vcpus| && s.vcpus[v].subscribed && !s.vcpus[v].terminated
    ensures v in s.queue || s.vcpus[v].pending
  {
    ReachableInv(s);
    assert VcpuOk(s, v);
  }

  /** So an interrupt reaches every subscriber, and nobody else gets it. */
  lemma DispatchReachesSubscribers(s: State, v: nat)
    requires Reachable(s) && Enabled(s, Dispatch) && v < |s.vcpus|
    ensures |Apply(s, Dispatch).vcpus| == |s.vcpus|
    ensures s.vcpus[v].subscribed && !s.vcpus[v].terminated ==> Apply(s, Dispatch).vcpus[v].pending
    ensures !s.vcpus[v].subscribed ==> Apply(s, Dispatch).vcpus[v] == s.vcpus[v]
  {
    ReachableInv(s);
    assert VcpuOk(s, v);
    Delivered(s.vcpus, s.queue);
  }

  /** A vcpu waits at most once, and only while it is subscribed and permitted to be. */
  lemma QueueExact(s: State, v: nat)
    requires Reachable(s) && v in s.queue
    ensures NoDup(s.queue) && v < |s.vcpus| && s.vcpus[v].subscribed && s.vcpus[v].allowed && !s.vcpus[v].terminated
  {
    ReachableInv(s);
    assert VcpuOk(s, v);
  }

  // ---------------------------------------------------------------------------
  // What the calls achieve
  // ---------------------------------------------------------------------------

  /** What a vcpu may and wants to receive, in terms of the calls made for it: a subscription counts when it is
      permitted, and lasts until it is ended or the permission withdrawn. */
  datatype Wish = Wish(allowed: bool, subscribed: bool)

  function WishOf(x: Vcpu): Wish { Wish(x.allowed, x.subscribed) }

  function After(w: Wish, a: Action, v: nat): Wish {
    match a
    case Subscribe(u) => if u == v then Wish(w.allowed, w.allowed) else w
    case Unsubscribe(u) => if u == v then Wish(w.allowed, false) else w
    case SetPermission(u, allow) => if u == v then Wish(allow, allow && w.subscribed) else w
    case _ => w
  }

  function AfterAll(w: Wish, acts: seq<Action>, v: nat): Wish
    decreases |acts|
  {
    if acts == [] then w else AfterAll(After(w, acts[0], v), acts[1..], v)
  }

  lemma WishStep(s: State, a: Action, v: nat)
    requires Inv(s) && Enabled(s, a) && v < |s.vcpus|
    ensures |Apply(s, a).vcpus| == |s.vcpus| && WishOf(Apply(s, a).vcpus[v]) == After(WishOf(s.vcpus[v]), a, v)
  {
    assert VcpuOk(s, v);
    if a.Dispatch? { Delivered(s.vcpus, s.queue); }
  }

  /** In every run a vcpu is permitted and subscribed exactly as its calls say, whatever is dispatched,
      injected or done to others in between. */
  lemma {:induction false} SubscribedAsAsked(s: State, acts: seq<Action>, v: nat)
    requires Inv(s) && EnabledRun(s, acts) && v < |s.vcpus|
    ensures |Run(s, acts).vcpus| == |s.vcpus| && WishOf(Run(s, acts).vcpus[v]) == AfterAll(WishOf(s.vcpus[v]), acts, v)
    decreases |acts|
  {
    if acts != [] {
      StepInv(s, acts[0]);
      WishStep(s, acts[0], v);
      SubscribedAsAsked(Apply(s, acts[0]), acts[1..], v);
    }
  }

  /** The last word decides: after a permitted subscription the vcpu is subscribed, waiting or pending; after
      its end, a withdrawn permission or its termination it waits no longer. */
  lemma LastWord(s: State, a: Action, v: nat)
    requires Reachable(s) && Enabled(s, a) && v < |s.vcpus|
    ensures var s' := Apply(s, a);
      && |s'.vcpus| == |s.vcpus|
      && (a == Subscribe(v) && s.vcpus[v].allowed ==> s'.vcpus[v].subscribed && (s'.vcpus[v].pending || v in s'.queue))
      && (a == Unsubscribe(v) || a == SetPermission(v, false) ==> !s'.vcpus[v].subscribed && v !in s'.queue)
      && (a == Terminate(v) ==> s'.vcpus[v].terminated && v !in s'.queue)
  {
    ReachableInv(s);
    assert VcpuOk(s, v);
    WishStep(s, a, v);
    PendingExactly(s, a, v);
    QueuedExactly(s, a, v);
  }

  /** The vector becomes pending at a vcpu by being sent to it or dispatched to its subscription, and stays so
      exactly until it is injected. */
  lemma PendingExactly(s: State, a: Action, v: nat)
    requires Reachable(s) && Enabled(s, a) && v < |s.vcpus|
    ensures var s' := Apply(s, a);
      && |s'.vcpus| == |s.vcpus|
      && (s'.vcpus[v].pending <==>
            (s.vcpus[v].pending && !(a.Inject? && s.phase.v == v)) || a == SetPending(v) || (a.Dispatch? && v in s.queue))
      && (s'.vcpus[v].terminated <==> s.vcpus[v].terminated || a == Terminate(v))
  {
    if a.Dispatch? { Delivered(s.vcpus, s.queue); }
  }

  /** A vcpu leaves the dispatch queue by a dispatch or its own calls and termination, and comes into it by its
      subscription or, when it is subscribed, by the entry that injected the vector. */
  lemma QueuedExactly(s: State, a: Action, v: nat)
    requires Reachable(s) && Enabled(s, a) && v < |s.vcpus|
    ensures var x, s' := s.vcpus[v], Apply(s, a);
      v in s'.queue <==>
        || (v in s.queue && !a.Dispatch? && a != SetPermission(v, false) && a != Terminate(v) && a != Unsubscribe(v))
        || (a == Subscribe(v) && x.allowed && !x.pending)
        || (a.Requeue? && s.phase.v == v && x.subscribed)
  {
    ReachableInv(s);
    assert VcpuOk(s, v);
    match a
    case Unsubscribe(w) => WithoutMembers(s.queue, w);
    case SetPermission(w, _) => WithoutMembers(s.queue, w);
    case Terminate(w) => WithoutMembers(s.queue, w);
    case _ =>
  }

  ghost predicate KeepsOrder(q: seq<nat>, q': seq<nat>, u: nat) { q' == q || q' == Without(q, u) || q' == q + [u] }

  /** Apart from a dispatch, which empties it, a step moves at most one vcpu out of the queue or to its end. */
  lemma OrderKept(s: State, a: Action)
    requires Enabled(s, a)
    ensures if a.Dispatch? then Apply(s, a).queue == [] else exists u :: KeepsOrder(s.queue, Apply(s, a).queue, u)
  {
    if !a.Dispatch? {
      var u := match a
        case Subscribe(v) => v
        case Unsubscribe(v) => v
        case SetPermission(v, _) => v
        case Requeue => s.phase.v
        case Terminate(v) => v
        case _ => 0;
      assert KeepsOrder(s.queue, Apply(s, a).queue, u);
    }
  }

  /** An entry ends with the processor open again: without the vector in the very same state; with it, pending
      no more and, if subscribed, waiting in the queue. */
  lemma EntryEnds(s: State, v: nat)
    requires Reachable(s) && Enabled(s, BeginEntry(v))
    ensures var s1 := Apply(s, BeginEntry(v));
      && Enabled(s1, InjectOther) && Apply(s1, InjectOther) == s
      && (s.vcpus[v].pending ==>
            && Enabled(s1, Inject) && Enabled(Apply(s1, Inject), Requeue)
            && var s3 := Apply(Apply(s1, Inject), Requeue);
            && s3.phase.Open? && s3.vcpus == s.vcpus[v := s.vcpus[v].(pending := false)]
            && (v in s3.queue <==> s.vcpus[v].subscribed))
  {
    ReachableInv(s);
    assert VcpuOk(s, v);
  }
}

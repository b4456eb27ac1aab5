/** Twanvisor's cross-processor TLB shootdown: `vemu_tlb_invalidate` against VM entry and VM exit.

    A step machine over any number of physical processors and of virtual processors pinned to them.
    A section under a scheduler lock or an ack-queue lock is one step; everything may interleave
    between two sections.  A shootdown may be started by any vcpu in root mode, any number of them
    may run at once, and its caller may be preempted and resumed in the middle.

    What the machine records beside the hypervisor's own state: for each vcpu, the shootdowns that
    were announced to it and those not yet followed by a flush of its TLB context. */
module TlbShootdown {

  datatype VState = Ready | Running | Transitioning

  /** Where a physical processor is.  Interrupts are off from `Entering` to `Guest` and from `Exited`
      to `Root`. */
  datatype Cpu =
    | Idle                              // no vcpu current
    | Root(v: nat)                      // hypervisor code on behalf of v
    | Entering(v: nat, invvpid: bool)   // __venter has left its locked section
    | Flushed(v: nat)                   // invvpid done if it was due, the rest of __venter still to come
    | Guest(v: nat)
    | Exited(v: nat)                    // VM exit taken, state not yet changed
    | Acking(v: nat)                    // state changed, ack queue not yet cleared

  /** A call of vemu_tlb_invalidate in progress: `op` numbers it, `target` is the partition. */
  datatype Call =
    | NoCall
    | Announce(op: nat, target: nat, next: nat, waitFor: set<nat>)   // first pass, next vcpu to look at
    | Await(op: nat, target: nat, next: nat, waitFor: set<nat>)      // second pass, next processor to wait for

  /** One vcpu; `home`, `partition` and `vpid` never change.  `announced` holds the shootdowns whose
      flag was set on it, `stale` those among them that no flush has followed yet. */
  datatype Vcpu = Vcpu(home: nat, partition: nat, vpid: bool, state: VState, flushPending: bool,
                       announced: set<nat>, stale: set<nat>, call: Call)

  /** `acks[k]` is processor k's vcpu_sender_dq, `ipi[k]` its pending shootdown interrupt; `ops`
      counts the shootdowns started, `done` maps those that have returned to their partition. */
  datatype State = State(cpus: seq<Cpu>, vcpus: seq<Vcpu>, acks: seq<set<nat>>, ipi: seq<bool>,
                         ops: nat, done: map<nat, nat>)

  datatype Action =
    | Schedule(k: nat, v: nat)
    | Deschedule(k: nat)
    | Enter(k: nat)
    | Flush(k: nat)
    | LaunchGuest(k: nat)
    | Exit(k: nat, byIpi: bool)
    | Transition(k: nat)
    | Ack(k: nat)
    | TakeIpi(k: nat)
    | Start(v: nat, target: nat)
    | AnnounceNext(v: nat)
    | AwaitNext(v: nat)

  predicate Shape(s: State) {
    && |s.acks| == |s.ipi| == |s.cpus|
    && (forall k :: 0 <= k < |s.cpus| && !s.cpus[k].Idle? ==> s.cpus[k].v < |s.vcpus|)
    && (forall v :: 0 <= v < |s.vcpus| ==> s.vcpus[v].home < |s.cpus|)
  }

  predicate Current(s: State, v: nat)
    requires Shape(s) && v < |s.vcpus|
  {
    s.cpus[s.vcpus[v].home] == Root(v)
  }

  predicate Enabled(s: State, a: Action)
    requires Shape(s)
  {
    match a
    case Schedule(k, v) =>
      k < |s.cpus| && v < |s.vcpus| && s.cpus[k].Idle? && s.vcpus[v].home == k && s.vcpus[v].state.Ready?
    case Deschedule(k) => k < |s.cpus| && s.cpus[k].Root?
    case Enter(k) => k < |s.cpus| && s.cpus[k].Root? && s.vcpus[s.cpus[k].v].call.NoCall?
    case Flush(k) => k < |s.cpus| && s.cpus[k].Entering?
    case LaunchGuest(k) => k < |s.cpus| && s.cpus[k].Flushed?
    case Exit(k, byIpi) => k < |s.cpus| && s.cpus[k].Guest? && (byIpi ==> s.ipi[k])
    case Transition(k) => k < |s.cpus| && s.cpus[k].Exited?
    case Ack(k) => k < |s.cpus| && s.cpus[k].Acking?
    case TakeIpi(k) => k < |s.cpus| && (s.cpus[k].Root? || s.cpus[k].Idle?) && s.ipi[k]
    case Start(v, target) => v < |s.vcpus| && Current(s, v) && s.vcpus[v].call.NoCall?
    case AnnounceNext(v) => v < |s.vcpus| && Current(s, v) && s.vcpus[v].call.Announce?
    case AwaitNext(v) => v < |s.vcpus| && Current(s, v) && s.vcpus[v].call.Await?
  }

  function SetVcpu(s: State, v: nat, x: Vcpu): State
    requires v < |s.vcpus|
  {
    s.(vcpus := s.vcpus[v := x])
  }

  function Apply(s: State, a: Action): State
    requires Shape(s) && Enabled(s, a)
  {
    match a
    case Schedule(k, v) =>
      SetVcpu(s, v, s.vcpus[v].(state := Transitioning)).(cpus := s.cpus[k := Root(v)])
    case Deschedule(k) =>
      var v := s.cpus[k].v;
      SetVcpu(s, v, s.vcpus[v].(state := Ready)).(cpus := s.cpus[k := Idle])
    case Enter(k) =>
      // the locked section of __venter
      var v := s.cpus[k].v;
      var x := s.vcpus[v];
      SetVcpu(s, v, x.(state := Running, flushPending := false))
      .(cpus := s.cpus[k := Entering(v, x.flushPending && x.vpid)])
    case Flush(k) =>
      // invvpid, if the locked section found it due
      var v := s.cpus[k].v;
      var x := s.vcpus[v];
      SetVcpu(s, v, x.(stale := if s.cpus[k].invvpid then {} else x.stale)).(cpus := s.cpus[k := Flushed(v)])
    case LaunchGuest(k) =>
      // without a VPID the VM entry itself flushes
      var v := s.cpus[k].v;
      var x := s.vcpus[v];
      SetVcpu(s, v, x.(stale := if x.vpid then x.stale else {})).(cpus := s.cpus[k := Guest(v)])
    case Exit(k, byIpi) =>
      s.(cpus := s.cpus[k := Exited(s.cpus[k].v)], ipi := if byIpi then s.ipi[k := false] else s.ipi)
    case Transition(k) =>
      var v := s.cpus[k].v;
      SetVcpu(s, v, s.vcpus[v].(state := Transitioning)).(cpus := s.cpus[k := Acking(v)])
    case Ack(k) =>
      s.(cpus := s.cpus[k := Root(s.cpus[k].v)], acks := s.acks[k := {}])
    case TakeIpi(k) =>
      s.(ipi := s.ipi[k := false])
    case Start(v, target) =>
      SetVcpu(s, v, s.vcpus[v].(call := Announce(s.ops, target, 0, {}))).(ops := s.ops + 1)
    case AnnounceNext(v) =>
      var Announce(op, target, next, waitFor) := s.vcpus[v].call;
      if next < |s.vcpus| then AnnounceTo(s, v, next)
      else SetVcpu(s, v, s.vcpus[v].(call := Await(op, target, 0, waitFor)))
    case AwaitNext(v) =>
      var Await(op, target, next, waitFor) := s.vcpus[v].call;
      if next < |s.cpus| then
        if next in waitFor && v in s.acks[next] then s
        else SetVcpu(s, v, s.vcpus[v].(call := Await(op, target, next + 1, waitFor)))
      else SetVcpu(s, v, s.vcpus[v].(call := NoCall)).(done := s.done[op := target])
  }

  function Announced(x: Vcpu, op: nat): Vcpu {
    x.(flushPending := true, announced := x.announced + {op}, stale := x.stale + {op})
  }

  /** One iteration of the first pass of vemu_tlb_invalidate, the sender's section under the
      scheduler lock of vcpu v. */
  function AnnounceTo(s: State, sender: nat, v: nat): State
    requires Shape(s) && sender < |s.vcpus| && v < |s.vcpus| && s.vcpus[sender].call.Announce?
  {
    var Announce(op, target, _, waitFor) := s.vcpus[sender].call;
    var x := s.vcpus[v];
    if x.partition != target then SetVcpu(s, sender, s.vcpus[sender].(call := Announce(op, target, v + 1, waitFor)))
    else
      var k := x.home;
      var s1 := SetVcpu(s, v, Announced(x, op));
      if x.state.Running? then
        SetVcpu(s1, sender, s1.vcpus[sender].(call := Announce(op, target, v + 1, waitFor + {k})))
        .(acks := s.acks[k := s.acks[k] + {sender}],
          ipi := if x.flushPending then s.ipi else s.ipi[k := true])
      else SetVcpu(s1, sender, s1.vcpus[sender].(call := Announce(op, target, v + 1, waitFor)))
  }

  predicate Initial(s: State) {
    && Shape(s) && s.ops == 0 && s.done == map[]
    && (forall k :: 0 <= k < |s.cpus| ==> CpuInitial(s, k))
    && (forall v :: 0 <= v < |s.vcpus| ==> VcpuInitial(s.vcpus[v]))
    && (forall v :: 0 <= v < |s.vcpus| ==> (s.vcpus[v].state.Running? <==> s.cpus[s.vcpus[v].home] == Guest(v)))
  }

  /** Processors start idle or, after the launch of the root partition, in the guest. */
  predicate CpuInitial(s: State, k: nat)
    requires Shape(s) && k < |s.cpus|
  {
    && s.acks[k] == {} && !s.ipi[k]
    && (s.cpus[k].Idle? || (s.cpus[k].Guest? && s.vcpus[s.cpus[k].v].home == k))
  }

  predicate VcpuInitial(x: Vcpu) {
    (x.state.Ready? || x.state.Running?) && !x.flushPending && x.announced == {} && x.stale == {} && x.call.NoCall?
  }

  // ---------------------------------------------------------------------------
  // The invariant
  // ---------------------------------------------------------------------------

  function CpuOf(s: State, v: nat): Cpu
    requires Shape(s) && v < |s.vcpus|
  {
    s.cpus[s.vcpus[v].home]
  }

  /** The flush that the next guest entry of v will carry out whatever happens before it. */
  predicate FlushCommitted(s: State, v: nat)
    requires Shape(s) && v < |s.vcpus|
  {
    || CpuOf(s, v) == Entering(v, true)
    || ((CpuOf(s, v) == Entering(v, false) || CpuOf(s, v) == Flushed(v)) && !s.vcpus[v].vpid)
  }

  /** v may be executing, or about to execute, guest code with translations older than shootdown op. */
  predicate StaleRunning(s: State, v: nat, op: nat)
    requires Shape(s) && v < |s.vcpus|
  {
    && op in s.vcpus[v].stale
    && (CpuOf(s, v) == Guest(v) || CpuOf(s, v) == Exited(v) ||
        ((CpuOf(s, v) == Entering(v, false) || CpuOf(s, v) == Flushed(v)) && s.vcpus[v].vpid))
  }

  predicate CpuOk(s: State, k: nat)
    requires Shape(s) && k < |s.cpus|
  {
    match s.cpus[k]
    case Idle => true
    case Root(v) => s.vcpus[v].home == k && s.vcpus[v].state.Transitioning?
    case Acking(v) => s.vcpus[v].home == k && s.vcpus[v].state.Transitioning?
    case Entering(v, _) => s.vcpus[v].home == k && s.vcpus[v].state.Running?
    case Flushed(v) => s.vcpus[v].home == k && s.vcpus[v].state.Running?
    case Guest(v) => s.vcpus[v].home == k && s.vcpus[v].state.Running?
    case Exited(v) => s.vcpus[v].home == k && s.vcpus[v].state.Running?
  }

  /** v is in the guest or bound for it with interrupts off. */
  predicate Exposed(s: State, v: nat)
    requires Shape(s) && v < |s.vcpus|
  {
    CpuOf(s, v) in {Guest(v), Flushed(v), Entering(v, true), Entering(v, false)}
  }

  /** Running and flagged implies an interrupt in flight; stale implies a flush before the guest code that
      follows the next locked section of __venter. */
  predicate VcpuOk(s: State, v: nat)
    requires Shape(s) && v < |s.vcpus|
  {
    var x := s.vcpus[v];
    && (!x.state.Ready? ==> !CpuOf(s, v).Idle? && CpuOf(s, v).v == v)
    && (Exposed(s, v) && x.flushPending ==> s.ipi[x.home])
    && (x.stale != {} ==> x.flushPending || FlushCommitted(s, v))
    && x.stale <= x.announced
    && (forall op :: op in x.announced ==> op < s.ops)
  }

  /** A sender waits in k's ack queue only while k has still to leave the guest and acknowledge. */
  predicate AckOk(s: State, k: nat)
    requires Shape(s) && k < |s.cpus|
  {
    s.acks[k] != {} ==>
      || s.cpus[k].Exited? || s.cpus[k].Acking?
      || ((s.cpus[k].Guest? || s.cpus[k].Flushed? || s.cpus[k].Entering?) && s.vcpus[s.cpus[k].v].flushPending)
  }

  predicate Calling(x: Vcpu) { !x.call.NoCall? }

  predicate CallOk(s: State, c: nat)
    requires Shape(s) && c < |s.vcpus|
  {
    Calling(s.vcpus[c]) ==> s.vcpus[c].call.op < s.ops && s.vcpus[c].call.op !in s.done
  }

  predicate CallsDiffer(s: State, c: nat, d: nat)
    requires Shape(s) && c < |s.vcpus| && d < |s.vcpus|
  {
    c != d && Calling(s.vcpus[c]) && Calling(s.vcpus[d]) ==> s.vcpus[c].call.op != s.vcpus[d].call.op
  }

  /** What the call of c has achieved for vcpu v so far. */
  predicate PairOk(s: State, c: nat, v: nat)
    requires Shape(s) && c < |s.vcpus| && v < |s.vcpus|
  {
    var k := s.vcpus[v].home;
    match s.vcpus[c].call
    case NoCall => true
    case Announce(op, target, next, waitFor) =>
      && (v < next && s.vcpus[v].partition == target ==> op in s.vcpus[v].announced)
      && (StaleRunning(s, v, op) ==> c in s.acks[k] && k in waitFor)
    case Await(op, target, next, waitFor) =>
      && (s.vcpus[v].partition == target ==> op in s.vcpus[v].announced)
      && (StaleRunning(s, v, op) ==> c in s.acks[k] && k in waitFor && next <= k)
  }

  predicate DoneOk(s: State, op: nat, v: nat)
    requires Shape(s) && v < |s.vcpus| && op in s.done
  {
    && op < s.ops
    && (s.vcpus[v].partition == s.done[op] ==> op in s.vcpus[v].announced)
    && !StaleRunning(s, v, op)
  }

  ghost predicate LocalInv(s: State)
    requires Shape(s)
  {
    && (forall k: nat :: k < |s.cpus| ==> CpuOk(s, k))
    && (forall v: nat :: v < |s.vcpus| ==> VcpuOk(s, v))
    && (forall k: nat :: k < |s.cpus| ==> AckOk(s, k))
  }

  ghost predicate CallInv(s: State)
    requires Shape(s)
  {
    && (forall op: nat :: op in s.done ==> op < s.ops)
    && (forall c: nat :: c < |s.vcpus| ==> CallOk(s, c))
    && (forall c: nat, d: nat :: c < |s.vcpus| && d < |s.vcpus| ==> CallsDiffer(s, c, d))
  }

  ghost predicate PairInv(s: State)
    requires Shape(s)
  {
    && (forall c: nat, v: nat :: c < |s.vcpus| && v < |s.vcpus| ==> PairOk(s, c, v))
    && (forall op: nat, v: nat :: op in s.done && v < |s.vcpus| ==> DoneOk(s, op, v))
  }

  /** A call does not wait for its own processor, for which the source's test of the ack queue never says yes. */
  predicate SelfOk(s: State, c: nat)
    requires Shape(s) && c < |s.vcpus|
  {
    Calling(s.vcpus[c]) ==> s.vcpus[c].home !in s.vcpus[c].call.waitFor
  }

  ghost predicate SelfInv(s: State)
    requires Shape(s)
  {
    forall c: nat {:trigger SelfOk(s, c)} :: c < |s.vcpus| ==> SelfOk(s, c)
  }

  ghost predicate Inv(s: State) { Shape(s) && LocalInv(s) && CallInv(s) && PairInv(s) && SelfInv(s) }

  lemma InitialInv(s: State)
    requires Initial(s)
    ensures Inv(s)
  {
    forall k: nat | k < |s.cpus| ensures CpuOk(s, k) && AckOk(s, k) {
      assert CpuInitial(s, k);
      if s.cpus[k].Guest? { assert s.vcpus[s.cpus[k].v].state.Running?; }
    }
    forall v: nat | v < |s.vcpus| ensures VcpuOk(s, v) && CallOk(s, v) && SelfOk(s, v) {
      assert VcpuInitial(s.vcpus[v]);
    }
    forall c: nat, v: nat | c < |s.vcpus| && v < |s.vcpus| ensures PairOk(s, c, v) && CallsDiffer(s, c, v) {
      assert VcpuInitial(s.vcpus[c]);
    }
  }

  predicate CpuStep(a: Action) { !a.Start? && !a.AnnounceNext? && !a.AwaitNext? }

  lemma StepShape(s: State, a: Action)
    requires Shape(s) && Enabled(s, a)
    ensures Shape(Apply(s, a)) && |Apply(s, a).cpus| == |s.cpus| && |Apply(s, a).vcpus| == |s.vcpus|
  {
    if CpuStep(a) { ShapeCpu(s, a); } else { ShapeCall(s, a); }
  }

  lemma ShapeCpu(s: State, a: Action)
    requires Shape(s) && Enabled(s, a) && CpuStep(a)
    ensures Shape(Apply(s, a)) && |Apply(s, a).cpus| == |s.cpus| && |Apply(s, a).vcpus| == |s.vcpus|
  {
  }

  lemma ShapeCall(s: State, a: Action)
    requires Shape(s) && Enabled(s, a) && !CpuStep(a)
    ensures Shape(Apply(s, a)) && |Apply(s, a).cpus| == |s.cpus| && |Apply(s, a).vcpus| == |s.vcpus|
  {
  }

  /** The physical processor that takes the step. */
  function Actor(s: State, a: Action): nat
    requires Shape(s) && Enabled(s, a)
  {
    match a
    case Schedule(k, _) => k
    case Deschedule(k) => k
    case Enter(k) => k
    case Flush(k) => k
    case LaunchGuest(k) => k
    case Exit(k, _) => k
    case Transition(k) => k
    case Ack(k) => k
    case TakeIpi(k) => k
    case Start(v, _) => s.vcpus[v].home
    case AnnounceNext(v) => s.vcpus[v].home
    case AwaitNext(v) => s.vcpus[v].home
  }

  lemma StepCpu(s: State, a: Action, k: nat)
    requires Shape(s) && LocalInv(s) && Enabled(s, a) && Shape(Apply(s, a))
    requires k < |s.cpus| && |Apply(s, a).cpus| == |s.cpus|
    ensures CpuOk(Apply(s, a), k)
  {
    assert CpuOk(s, k) && CpuOk(s, Actor(s, a));
    if !CpuStep(a) {
      if !s.cpus[k].Idle? { CallFrame(s, a, s.cpus[k].v); } else { CallFrame(s, a, a.v); }
    } else {
      if a.Schedule? { assert VcpuOk(s, a.v); }
      CpuByCpu(s, a, k);
    }
  }

  lemma CpuByCpu(s: State, a: Action, k: nat)
    requires Shape(s) && Enabled(s, a) && Shape(Apply(s, a)) && CpuStep(a)
    requires k < |s.cpus| && |Apply(s, a).cpus| == |s.cpus|
    requires CpuOk(s, k) && CpuOk(s, Actor(s, a))
    ensures CpuOk(Apply(s, a), k)
  {
  }

  lemma StepVcpu(s: State, a: Action, v: nat)
    requires Shape(s) && LocalInv(s) && CallInv(s) && Enabled(s, a) && Shape(Apply(s, a))
    requires v < |s.vcpus| && |Apply(s, a).vcpus| == |s.vcpus|
    ensures VcpuOk(Apply(s, a), v)
  {
    assert VcpuOk(s, v) && CpuOk(s, s.vcpus[v].home) && CpuOk(s, Actor(s, a));
    if CpuStep(a) {
      if s.vcpus[v].home == Actor(s, a) { VcpuHere(s, a, v); } else { VcpuElsewhere(s, a, v); }
    } else {
      assert CallOk(s, a.v);
      VcpuCall(s, a, v);
    }
  }

  lemma VcpuHere(s: State, a: Action, v: nat)
    requires Shape(s) && Enabled(s, a) && Shape(Apply(s, a)) && CpuStep(a)
    requires v < |s.vcpus| && |Apply(s, a).vcpus| == |s.vcpus| && s.vcpus[v].home == Actor(s, a)
    requires VcpuOk(s, v) && CpuOk(s, Actor(s, a))
    ensures VcpuOk(Apply(s, a), v)
  {
  }

  lemma VcpuElsewhere(s: State, a: Action, v: nat)
    requires Shape(s) && Enabled(s, a) && Shape(Apply(s, a)) && CpuStep(a)
    requires v < |s.vcpus| && |Apply(s, a).vcpus| == |s.vcpus| && s.vcpus[v].home != Actor(s, a)
    requires VcpuOk(s, v) && CpuOk(s, Actor(s, a))
    ensures VcpuOk(Apply(s, a), v)
  {
    var s' := Apply(s, a);
    assert s'.vcpus[v] == s.vcpus[v];
    assert CpuOf(s', v) == CpuOf(s, v) && s'.ipi[s.vcpus[v].home] == s.ipi[s.vcpus[v].home];
  }

  /** The vcpu whose flag the step sets. */
  predicate Hit(s: State, a: Action, v: nat)
    requires Shape(s) && Enabled(s, a) && v < |s.vcpus|
  {
    a.AnnounceNext? && s.vcpus[a.v].call.next == v && s.vcpus[v].partition == s.vcpus[a.v].call.target
  }

  lemma CallFrame(s: State, a: Action, v: nat)
    requires Shape(s) && Enabled(s, a) && !CpuStep(a) && v < |s.vcpus|
    ensures var s' := Apply(s, a);
      && s'.cpus == s.cpus && |s'.acks| == |s.acks| && |s'.ipi| == |s.ipi| && |s'.vcpus| == |s.vcpus| && s.ops <= s'.ops
      && (forall k :: 0 <= k < |s.cpus| ==> s.acks[k] <= s'.acks[k] && (s.ipi[k] ==> s'.ipi[k]))
      && var x, y := s.vcpus[v], s'.vcpus[v];
      && y.home == x.home && y.partition == x.partition && y.vpid == x.vpid && y.state == x.state
      && (v != a.v ==> y.call == x.call)
      && (if Hit(s, a, v)
          then var op := s.vcpus[a.v].call.op;
               && y.flushPending && y.announced == x.announced + {op} && y.stale == x.stale + {op}
               && (x.state.Running? ==> a.v in s'.acks[x.home] && (x.flushPending || s'.ipi[x.home]))
          else y.flushPending == x.flushPending && y.announced == x.announced && y.stale == x.stale)
  {
    if a.AnnounceNext? && s.vcpus[a.v].call.next < |s.vcpus| {
      AnnounceQueues(s, a.v);
      AnnounceFrame(s, a.v, v);
    }
  }

  /** Announcing only adds senders and interrupts. */
  lemma AnnounceQueues(s: State, c: nat)
    requires Shape(s) && Enabled(s, AnnounceNext(c)) && s.vcpus[c].call.next < |s.vcpus|
    ensures var s' := AnnounceTo(s, c, s.vcpus[c].call.next);
      && s'.cpus == s.cpus && |s'.acks| == |s.acks| && |s'.ipi| == |s.ipi| && |s'.vcpus| == |s.vcpus| && s.ops <= s'.ops
      && (forall k :: 0 <= k < |s.cpus| ==> s.acks[k] <= s'.acks[k] && (s.ipi[k] ==> s'.ipi[k]))
  {
  }

  lemma AnnounceFrame(s: State, c: nat, v: nat)
    requires Shape(s) && Enabled(s, AnnounceNext(c)) && v < |s.vcpus| && s.vcpus[c].call.next < |s.vcpus|
    ensures var s' := AnnounceTo(s, c, s.vcpus[c].call.next);
      && |s'.vcpus| == |s.vcpus| && |s'.acks| == |s.acks| && |s'.ipi| == |s.ipi|
      && var x, y := s.vcpus[v], s'.vcpus[v];
      && y.home == x.home && y.partition == x.partition && y.vpid == x.vpid && y.state == x.state
      && (v != c ==> y.call == x.call)
      && (if Hit(s, AnnounceNext(c), v)
          then var op := s.vcpus[c].call.op;
               && y.flushPending && y.announced == x.announced + {op} && y.stale == x.stale + {op}
               && (x.state.Running? ==> c in s'.acks[x.home] && (x.flushPending || s'.ipi[x.home]))
          else y.flushPending == x.flushPending && y.announced == x.announced && y.stale == x.stale)
  {
    AnnounceData(s, c, v);
    if Hit(s, AnnounceNext(c), v) && s.vcpus[v].state.Running? { AnnounceWaits(s, c); }
  }

  lemma AnnounceData(s: State, c: nat, v: nat)
    requires Shape(s) && Enabled(s, AnnounceNext(c)) && v < |s.vcpus| && s.vcpus[c].call.next < |s.vcpus|
    ensures var s' := AnnounceTo(s, c, s.vcpus[c].call.next);
      && |s'.vcpus| == |s.vcpus| && |s'.acks| == |s.acks| && |s'.ipi| == |s.ipi|
      && (v != c ==> s'.vcpus[v].call == s.vcpus[v].call)
      && s'.vcpus[v].(call := NoCall) ==
         (if Hit(s, AnnounceNext(c), v) then Announced(s.vcpus[v], s.vcpus[c].call.op) else s.vcpus[v]).(call := NoCall)
  {
  }

  lemma AnnounceWaits(s: State, c: nat)
    requires Shape(s) && Enabled(s, AnnounceNext(c)) && s.vcpus[c].call.next < |s.vcpus|
    ensures var v := s.vcpus[c].call.next; var s' := AnnounceTo(s, c, v);
      && |s'.acks| == |s.acks| && |s'.ipi| == |s.ipi|
      && (Hit(s, AnnounceNext(c), v) && s.vcpus[v].state.Running? ==>
            c in s'.acks[s.vcpus[v].home] && (s.vcpus[v].flushPending || s'.ipi[s.vcpus[v].home]))
  {
  }

  lemma VcpuCall(s: State, a: Action, v: nat)
    requires Shape(s) && Enabled(s, a) && Shape(Apply(s, a)) && !CpuStep(a)
    requires v < |s.vcpus| && |Apply(s, a).vcpus| == |s.vcpus|
    requires VcpuOk(s, v) && CpuOk(s, s.vcpus[v].home) && CallOk(s, a.v)
    ensures VcpuOk(Apply(s, a), v)
  {
    CallFrame(s, a, v);
  }

  lemma StepAck(s: State, a: Action, k: nat)
    requires Shape(s) && LocalInv(s) && Enabled(s, a) && Shape(Apply(s, a))
    requires k < |s.cpus| && |Apply(s, a).cpus| == |s.cpus|
    ensures AckOk(Apply(s, a), k)
  {
    assert AckOk(s, k) && CpuOk(s, k) && CpuOk(s, Actor(s, a));
    if !CpuStep(a) { AckCall(s, a, k); }
  }

  lemma AckCall(s: State, a: Action, k: nat)
    requires Shape(s) && LocalInv(s) && Enabled(s, a) && Shape(Apply(s, a)) && !CpuStep(a)
    requires k < |s.cpus| && |Apply(s, a).cpus| == |s.cpus|
    ensures AckOk(Apply(s, a), k)
  {
    assert AckOk(s, k) && CpuOk(s, k);
    if a.AnnounceNext? && s.vcpus[a.v].call.next < |s.vcpus| { AckAnnounce(s, a.v, k); }
  }

  lemma AckAnnounce(s: State, c: nat, k: nat)
    requires Shape(s) && LocalInv(s) && Enabled(s, AnnounceNext(c)) && Shape(Apply(s, AnnounceNext(c)))
    requires k < |s.cpus| && s.vcpus[c].call.next < |s.vcpus| && |Apply(s, AnnounceNext(c)).cpus| == |s.cpus|
    ensures AckOk(Apply(s, AnnounceNext(c)), k)
  {
    var v := s.vcpus[c].call.next;
    assert AckOk(s, k) && CpuOk(s, k);
    assert VcpuOk(s, v) && CpuOk(s, s.vcpus[v].home);
    if !s.cpus[k].Idle? { AnnounceFrame(s, c, s.cpus[k].v); }
  }

  lemma StepCalls(s: State, a: Action)
    requires Shape(s) && CallInv(s) && Enabled(s, a) && Shape(Apply(s, a)) && |Apply(s, a).vcpus| == |s.vcpus|
    ensures CallInv(Apply(s, a))
  {
    if CpuStep(a) { CallsSame(s, a); } else { CallsStep(s, a); }
  }

  lemma CallsSame(s: State, a: Action)
    requires Shape(s) && CallInv(s) && Enabled(s, a) && Shape(Apply(s, a)) && |Apply(s, a).vcpus| == |s.vcpus|
    requires CpuStep(a)
    ensures CallInv(Apply(s, a))
  {
    var s' := Apply(s, a);
    assert s'.ops == s.ops && s'.done == s.done;
    assert forall c :: 0 <= c < |s.vcpus| ==> s'.vcpus[c].call == s.vcpus[c].call;
    forall c: nat | c < |s.vcpus| ensures CallOk(s', c) { assert CallOk(s, c); }
    forall c: nat, d: nat | c < |s.vcpus| && d < |s.vcpus| ensures CallsDiffer(s', c, d) {
      assert CallsDiffer(s, c, d);
    }
  }

  /** The caller keeps its number, takes a fresh one, or retires it. */
  lemma CallerFrame(s: State, a: Action)
    requires Shape(s) && Enabled(s, a) && !CpuStep(a)
    ensures var s' := Apply(s, a);
      && |s'.vcpus| == |s.vcpus|
      && (a.Start? ==> Calling(s'.vcpus[a.v]) && s'.vcpus[a.v].call.op == s.ops && s'.ops == s.ops + 1)
      && (!a.Start? ==> s'.ops == s.ops)
      && (a.AnnounceNext? ==> Calling(s'.vcpus[a.v]))
      && (!a.Start? && Calling(s'.vcpus[a.v]) ==> s'.vcpus[a.v].call.op == s.vcpus[a.v].call.op)
      && (Calling(s'.vcpus[a.v]) ==> s'.done == s.done)
      && (!Calling(s'.vcpus[a.v]) ==>
            Calling(s.vcpus[a.v]) && s'.done == s.done[s.vcpus[a.v].call.op := s.vcpus[a.v].call.target])
  {
  }

  lemma CallsStep(s: State, a: Action)
    requires Shape(s) && CallInv(s) && Enabled(s, a) && Shape(Apply(s, a)) && |Apply(s, a).vcpus| == |s.vcpus|
    requires !CpuStep(a)
    ensures CallInv(Apply(s, a))
  {
    var s' := Apply(s, a);
    CallerFrame(s, a);
    assert CallOk(s, a.v);
    forall c: nat | c < |s.vcpus| ensures CallOk(s', c) {
      CallFrame(s, a, c);
      assert CallOk(s, c) && CallsDiffer(s, c, a.v);
    }
    forall c: nat, d: nat | c < |s.vcpus| && d < |s.vcpus| ensures CallsDiffer(s', c, d) {
      CallFrame(s, a, c);
      CallFrame(s, a, d);
      assert CallsDiffer(s, c, d) && CallOk(s, c) && CallOk(s, d);
    }
  }

  /** A step never makes a vcpu run stale behind the caller's back: unless the shootdown's own caller
      announces it, a vcpu that does not run stale with respect to op stays so. */
  lemma StaleOnlyByCaller(s: State, a: Action, v: nat, op: nat)
    requires Shape(s) && LocalInv(s) && Enabled(s, a) && Shape(Apply(s, a))
    requires v < |s.vcpus| && |Apply(s, a).vcpus| == |s.vcpus|
    requires !(a.AnnounceNext? && s.vcpus[a.v].call.op == op)
    ensures StaleRunning(Apply(s, a), v, op) ==> StaleRunning(s, v, op)
    ensures op in s.vcpus[v].announced ==> op in Apply(s, a).vcpus[v].announced
    ensures Apply(s, a).vcpus[v].partition == s.vcpus[v].partition && Apply(s, a).vcpus[v].home == s.vcpus[v].home
  {
    assert VcpuOk(s, v) && CpuOk(s, Actor(s, a));
    if CpuStep(a) {
      StaleByCpu(s, a, v, op);
    } else {
      CallFrame(s, a, v);
    }
  }

  lemma StaleByCpu(s: State, a: Action, v: nat, op: nat)
    requires Shape(s) && Enabled(s, a) && Shape(Apply(s, a)) && CpuStep(a)
    requires v < |s.vcpus| && |Apply(s, a).vcpus| == |s.vcpus| && VcpuOk(s, v) && CpuOk(s, Actor(s, a))
    ensures StaleRunning(Apply(s, a), v, op) ==> StaleRunning(s, v, op)
    ensures Apply(s, a).vcpus[v].announced == s.vcpus[v].announced
    ensures Apply(s, a).vcpus[v].partition == s.vcpus[v].partition && Apply(s, a).vcpus[v].home == s.vcpus[v].home
  {
  }

  lemma StepDone(s: State, a: Action, op: nat, v: nat)
    requires Inv(s) && Enabled(s, a) && Shape(Apply(s, a)) && |Apply(s, a).vcpus| == |s.vcpus|
    requires |Apply(s, a).cpus| == |s.cpus| && v < |s.vcpus| && op in Apply(s, a).done
    ensures DoneOk(Apply(s, a), op, v)
  {
    if !CpuStep(a) {
      CallerFrame(s, a);
      CallFrame(s, a, v);
      assert CallOk(s, a.v);
    }
    if op in s.done {
      assert DoneOk(s, op, v);
      StaleOnlyByCaller(s, a, v, op);
    } else {
      RetireDone(s, a.v, v);
    }
  }

  lemma RetireDone(s: State, c: nat, v: nat)
    requires Inv(s) && Enabled(s, AwaitNext(c)) && Shape(Apply(s, AwaitNext(c))) && v < |s.vcpus|
    requires s.vcpus[c].call.next >= |s.cpus|
    ensures |Apply(s, AwaitNext(c)).vcpus| == |s.vcpus| && s.vcpus[c].call.op in Apply(s, AwaitNext(c)).done
    ensures DoneOk(Apply(s, AwaitNext(c)), s.vcpus[c].call.op, v)
  {
    assert CallOk(s, c) && PairOk(s, c, v);
  }

  lemma StepPair(s: State, a: Action, c: nat, v: nat)
    requires Inv(s) && Enabled(s, a) && Shape(Apply(s, a)) && |Apply(s, a).vcpus| == |s.vcpus|
    requires |Apply(s, a).cpus| == |s.cpus| && c < |s.vcpus| && v < |s.vcpus|
    ensures PairOk(Apply(s, a), c, v)
  {
    assert PairOk(s, c, v) && CallOk(s, c) && VcpuOk(s, v);
    if CpuStep(a) {
      PairCpu(s, a, c, v);
    } else if a.v != c {
      PairOther(s, a, c, v);
    } else if a.Start? {
      CallFrame(s, a, v);
    } else if a.AnnounceNext? {
      PairAnnounce(s, c, v);
    } else {
      CallFrame(s, a, v);
    }
  }

  lemma PairCpu(s: State, a: Action, c: nat, v: nat)
    requires Inv(s) && Enabled(s, a) && Shape(Apply(s, a)) && |Apply(s, a).vcpus| == |s.vcpus|
    requires |Apply(s, a).cpus| == |s.cpus| && c < |s.vcpus| && v < |s.vcpus| && CpuStep(a)
    ensures PairOk(Apply(s, a), c, v)
  {
    var s' := Apply(s, a);
    assert PairOk(s, c, v);
    assert s'.vcpus[c].call == s.vcpus[c].call;
    if Calling(s.vcpus[c]) {
      StaleOnlyByCaller(s, a, v, s.vcpus[c].call.op);
      assert s'.acks == s.acks || (a.Ack? && s'.acks == s.acks[a.k := {}] && s'.cpus[a.k].Root?);
    }
  }

  lemma PairOther(s: State, a: Action, c: nat, v: nat)
    requires Inv(s) && Enabled(s, a) && Shape(Apply(s, a)) && |Apply(s, a).vcpus| == |s.vcpus|
    requires |Apply(s, a).cpus| == |s.cpus| && c < |s.vcpus| && v < |s.vcpus| && !CpuStep(a) && a.v != c
    ensures PairOk(Apply(s, a), c, v)
  {
    assert PairOk(s, c, v) && CallsDiffer(s, c, a.v);
    CallFrame(s, a, c);
    CallFrame(s, a, v);
    if Calling(s.vcpus[c]) {
      StaleOnlyByCaller(s, a, v, s.vcpus[c].call.op);
    }
  }

  lemma PairAnnounce(s: State, c: nat, v: nat)
    requires Inv(s) && Enabled(s, AnnounceNext(c)) && Shape(Apply(s, AnnounceNext(c))) && v < |s.vcpus|
    requires |Apply(s, AnnounceNext(c)).vcpus| == |s.vcpus| && |Apply(s, AnnounceNext(c)).cpus| == |s.cpus|
    ensures PairOk(Apply(s, AnnounceNext(c)), c, v)
  {
    var a := AnnounceNext(c);
    assert PairOk(s, c, v) && VcpuOk(s, v) && CpuOk(s, s.vcpus[v].home);
    CallFrame(s, a, v);
    AnnounceCall(s, c);
  }

  lemma AnnounceCall(s: State, c: nat)
    requires Shape(s) && Enabled(s, AnnounceNext(c))
    ensures var call, call' := s.vcpus[c].call, Apply(s, AnnounceNext(c)).vcpus[c].call;
      if call.next < |s.vcpus| then
        && call'.Announce? && call'.op == call.op && call'.target == call.target && call'.next == call.next + 1
        && call.waitFor <= call'.waitFor
        && (s.vcpus[call.next].partition == call.target && s.vcpus[call.next].state.Running? ==>
              s.vcpus[call.next].home in call'.waitFor)
      else call' == Await(call.op, call.target, 0, call.waitFor)
  {
  }

  lemma StepInv(s: State, a: Action)
    requires Inv(s) && Enabled(s, a)
    ensures Inv(Apply(s, a))
  {
    var s' := Apply(s, a);
    StepShape(s, a);
    forall k: nat | k < |s'.cpus| ensures CpuOk(s', k) && AckOk(s', k) { StepCpu(s, a, k); StepAck(s, a, k); }
    forall v: nat | v < |s'.vcpus| ensures VcpuOk(s', v) { StepVcpu(s, a, v); }
    StepCalls(s, a);
    forall c: nat, v: nat | c < |s'.vcpus| && v < |s'.vcpus| ensures PairOk(s', c, v) { StepPair(s, a, c, v); }
    forall op: nat, v: nat | op in s'.done && v < |s'.vcpus| ensures DoneOk(s', op, v) { StepDone(s, a, op, v); }
    forall c: nat | c < |s'.vcpus| ensures SelfOk(s', c) { StepSelf(s, a, c); }
  }

  lemma StepSelf(s: State, a: Action, c: nat)
    requires Inv(s) && Enabled(s, a) && Shape(Apply(s, a)) && |Apply(s, a).vcpus| == |s.vcpus| && c < |s.vcpus|
    ensures SelfOk(Apply(s, a), c)
  {
    assert SelfOk(s, c);
    if CpuStep(a) {
      assert Apply(s, a).vcpus[c].call == s.vcpus[c].call && Apply(s, a).vcpus[c].home == s.vcpus[c].home;
    } else {
      CallFrame(s, a, c);
      if a == AnnounceNext(c) { SelfAnnounce(s, c); }
    }
  }

  /** While the caller is current, no other vcpu of its processor runs. */
  lemma SelfAnnounce(s: State, c: nat)
    requires Inv(s) && Enabled(s, AnnounceNext(c)) && SelfOk(s, c)
    requires Shape(Apply(s, AnnounceNext(c))) && |Apply(s, AnnounceNext(c)).vcpus| == |s.vcpus|
    ensures SelfOk(Apply(s, AnnounceNext(c)), c)
  {
    var v := s.vcpus[c].call.next;
    assert CpuOk(s, s.vcpus[c].home);
    if v < |s.vcpus| { assert VcpuOk(s, v); }
  }

  // ---------------------------------------------------------------------------
  // Main results, over every run
  // ---------------------------------------------------------------------------

  ghost predicate EnabledRun(s: State, acts: seq<Action>)
    requires Inv(s)
    decreases |acts|
  {
    acts == [] || (Enabled(s, acts[0]) && (StepInv(s, acts[0]); EnabledRun(Apply(s, acts[0]), acts[1..])))
  }

  ghost function Run(s: State, acts: seq<Action>): (s': State)
    requires Inv(s) && EnabledRun(s, acts)
    ensures Inv(s')
    decreases |acts|
  {
    if acts == [] then s else (StepInv(s, acts[0]); Run(Apply(s, acts[0]), acts[1..]))
  }

  ghost predicate Reachable(s: State) {
    exists s0: State, acts: seq<Action> :: Initial(s0) && Inv(s0) && EnabledRun(s0, acts) && s == Run(s0, acts)
  }

  /** Shootdown safety: once a shootdown has returned, every vcpu of its partition was told, and one
      that executes guest code has flushed its TLB context after it was told; a vcpu that has not
      flushed yet is out of the guest and cannot enter it again without flushing first. */
  lemma ShootdownSafety(s: State, op: nat, v: nat)
    requires Reachable(s) && op in s.done && v < |s.vcpus| && s.vcpus[v].partition == s.done[op]
    ensures op in s.vcpus[v].announced
    ensures s.vcpus[v].home < |s.cpus|
    ensures s.cpus[s.vcpus[v].home] == Guest(v) ==> op !in s.vcpus[v].stale
    ensures op in s.vcpus[v].stale ==>
      s.vcpus[v].flushPending || s.cpus[s.vcpus[v].home] == Entering(v, true) || !s.vcpus[v].vpid
  {
    assert DoneOk(s, op, v) && VcpuOk(s, v);
  }

  /** A vcpu that runs with its flush flag set has the interrupt in flight that makes it leave. */
  lemma FlaggedGuestHasIpi(s: State, v: nat)
    requires Reachable(s) && v < |s.vcpus|
    ensures s.vcpus[v].home < |s.cpus| && |s.ipi| == |s.cpus|
    ensures s.cpus[s.vcpus[v].home] == Guest(v) && s.vcpus[v].flushPending ==> s.ipi[s.vcpus[v].home]
  {
    assert VcpuOk(s, v);
  }

  /** A waiting shootdown is never stuck: the processor it waits for has an enabled step on the way to
      its acknowledgement that does not depend on anybody else. */
  lemma WaitMakesProgress(s: State, c: nat, k: nat)
    requires Reachable(s) && k < |s.cpus| && k < |s.acks| && c in s.acks[k]
    ensures Shape(s)
    ensures s.cpus[k].Entering? || s.cpus[k].Flushed? || s.cpus[k].Guest? || s.cpus[k].Exited? || s.cpus[k].Acking?
    ensures s.cpus[k].Entering? ==> Enabled(s, Flush(k)) && s.ipi[k]
    ensures s.cpus[k].Flushed? ==> Enabled(s, LaunchGuest(k)) && s.ipi[k]
    ensures s.cpus[k].Guest? ==> Enabled(s, Exit(k, true))
    ensures s.cpus[k].Exited? ==> Enabled(s, Transition(k))
    ensures s.cpus[k].Acking? ==> Enabled(s, Ack(k)) && c !in Apply(s, Ack(k)).acks[k]
  {
    assert AckOk(s, k) && CpuOk(s, k);
    if s.cpus[k].Entering? || s.cpus[k].Flushed? || s.cpus[k].Guest? { assert VcpuOk(s, s.cpus[k].v); }
  }

  // ---------------------------------------------------------------------------
  // Every shootdown returns
  // ---------------------------------------------------------------------------

  /** Steps of its own that a processor needs until it has acknowledged. */
  function AckWork(k: Cpu): nat {
    match k
    case Entering(_, _) => 5
    case Flushed(_) => 4
    case Guest(_) => 3
    case Exited(_) => 2
    case Acking(_) => 1
    case _ => 0
  }

  function AckWorkFor(s: State, c: nat, k: nat): nat
    requires Shape(s) && k < |s.cpus|
  {
    if c in s.acks[k] then AckWork(s.cpus[k]) else 0
  }

  /** The same over the first n processors, for those that c waits in. */
  function AcksWork(s: State, c: nat, n: nat): nat
    requires Shape(s) && n <= |s.cpus|
  {
    if n == 0 then 0 else AcksWork(s, c, n - 1) + AckWorkFor(s, c, n - 1)
  }

  /** Steps of its own that a call still has to take, an announcement counted with the acknowledgement that it
      may ask for. */
  function CallWork(s: State, call: Call): nat {
    match call
    case NoCall => 0
    case Announce(_, _, next, _) => 6 * (if next < |s.vcpus| then |s.vcpus| - next else 0) + |s.cpus| + 2
    case Await(_, _, next, _) => (if next < |s.cpus| then |s.cpus| - next else 0) + 1
  }

  function Work(s: State, c: nat): nat
    requires Shape(s) && c < |s.vcpus|
  {
    CallWork(s, s.vcpus[c].call) + AcksWork(s, c, |s.cpus|)
  }

  /** c waits for a processor that has not acknowledged. */
  predicate Spinning(s: State, c: nat)
    requires Shape(s) && c < |s.vcpus|
  {
    var call := s.vcpus[c].call;
    call.Await? && call.next < |s.cpus| && c in s.acks[call.next]
  }

  /** A step of c's call that is not a turn of its spin loop, or a step of a processor that c waits in. */
  predicate Useful(s: State, a: Action, c: nat)
    requires Shape(s) && Enabled(s, a) && c < |s.vcpus|
  {
    || ((a == AnnounceNext(c) || a == AwaitNext(c)) && !Spinning(s, c))
    || (CpuStep(a) && Actor(s, a) < |s.acks| && c in s.acks[Actor(s, a)])
  }

  /** The second pass moves past a processor as soon as it has acknowledged, and the call ends with the last
      of them. */
  lemma AwaitMoves(s: State, c: nat)
    requires Inv(s) && c < |s.vcpus| && Enabled(s, AwaitNext(c)) && !Spinning(s, c)
    ensures var call, s' := s.vcpus[c].call, Apply(s, AwaitNext(c));
      && |s'.vcpus| == |s.vcpus| && s'.cpus == s.cpus && s'.acks == s.acks
      && (if call.next < |s.cpus| then s'.vcpus[c].call == call.(next := call.next + 1)
          else s'.vcpus[c].call.NoCall? && call.op in s'.done && s'.done[call.op] == call.target)
  {
  }

  lemma {:induction false} WorkFrame(s: State, s': State, c: nat, n: nat)
    requires Shape(s) && Shape(s') && n <= |s.cpus| == |s'.cpus|
    requires forall k: nat :: k < n ==> AckWorkFor(s', c, k) <= AckWorkFor(s, c, k)
    ensures AcksWork(s', c, n) <= AcksWork(s, c, n)
  {
    if n > 0 { WorkFrame(s, s', c, n - 1); }
  }

  lemma {:induction false} WorkLess(s: State, s': State, c: nat, n: nat, j: nat)
    requires Shape(s) && Shape(s') && j < n <= |s.cpus| == |s'.cpus|
    requires forall k: nat :: k < n ==> AckWorkFor(s', c, k) <= AckWorkFor(s, c, k)
    requires AckWorkFor(s', c, j) < AckWorkFor(s, c, j)
    ensures AcksWork(s', c, n) < AcksWork(s, c, n)
  {
    if j == n - 1 { WorkFrame(s, s', c, n - 1); } else { WorkLess(s, s', c, n - 1, j); }
  }

  lemma {:induction false} WorkMore(s: State, s': State, c: nat, n: nat, j: nat)
    requires Shape(s) && Shape(s') && n <= |s.cpus| == |s'.cpus|
    requires forall k: nat :: k < n && k != j ==> AckWorkFor(s', c, k) <= AckWorkFor(s, c, k)
    requires j < n ==> AckWorkFor(s', c, j) <= AckWorkFor(s, c, j) + 5
    ensures AcksWork(s', c, n) <= AcksWork(s, c, n) + 5
    ensures j >= n ==> AcksWork(s', c, n) <= AcksWork(s, c, n)
  {
    if n > 0 { WorkMore(s, s', c, n - 1, j); }
  }

  lemma {:induction false} WorkBound(s: State, c: nat, n: nat)
    requires Shape(s) && n <= |s.cpus|
    ensures AcksWork(s, c, n) <= 5 * n
  {
    if n > 0 { WorkBound(s, c, n - 1); }
  }

  /** A processor's own step brings it nearer to its acknowledgement, for everyone who waits in it. */
  lemma AckByCpu(s: State, a: Action, c: nat, k: nat)
    requires Inv(s) && Enabled(s, a) && CpuStep(a) && Shape(Apply(s, a)) && |Apply(s, a).cpus| == |s.cpus|
    requires k < |s.cpus|
    ensures AckWorkFor(Apply(s, a), c, k) <= AckWorkFor(s, c, k)
    ensures k == Actor(s, a) && c in s.acks[k] ==> AckWorkFor(Apply(s, a), c, k) < AckWorkFor(s, c, k)
  {
    assert AckOk(s, k) && CpuOk(s, k);
  }

  /** Another call, or the rest of this one, leaves alone whom c waits for. */
  lemma AckByCall(s: State, a: Action, c: nat, k: nat)
    requires Inv(s) && Enabled(s, a) && !CpuStep(a) && Shape(Apply(s, a)) && |Apply(s, a).cpus| == |s.cpus|
    requires k < |s.cpus|
    ensures a != AnnounceNext(c) ==> AckWorkFor(Apply(s, a), c, k) == AckWorkFor(s, c, k)
  {
    if a.AnnounceNext? && s.vcpus[a.v].call.next < |s.vcpus| { AnnounceOthers(s, a.v, c, k); }
  }

  lemma AnnounceOthers(s: State, v: nat, c: nat, k: nat)
    requires Shape(s) && Enabled(s, AnnounceNext(v)) && s.vcpus[v].call.next < |s.vcpus| && k < |s.cpus|
    ensures var s' := AnnounceTo(s, v, s.vcpus[v].call.next);
      && s'.cpus == s.cpus && |s'.acks| == |s.acks|
      && (c != v || k != s.vcpus[s.vcpus[v].call.next].home ==> (c in s'.acks[k] <==> c in s.acks[k]))
  {
  }

  lemma AnnounceWork(s: State, c: nat)
    requires Inv(s) && c < |s.vcpus| && Enabled(s, AnnounceNext(c)) && Shape(Apply(s, AnnounceNext(c)))
    requires |Apply(s, AnnounceNext(c)).cpus| == |s.cpus| && |Apply(s, AnnounceNext(c)).vcpus| == |s.vcpus|
    ensures Work(Apply(s, AnnounceNext(c)), c) < Work(s, c)
  {
    var s' := Apply(s, AnnounceNext(c));
    var next := s.vcpus[c].call.next;
    AnnounceCall(s, c);
    if next < |s.vcpus| {
      var j := s.vcpus[next].home;
      forall k: nat | k < |s.cpus| && k != j ensures AckWorkFor(s', c, k) <= AckWorkFor(s, c, k) {
        AnnounceOthers(s, c, c, k);
      }
      AnnounceOthers(s, c, c + 1, j);
      WorkMore(s, s', c, |s.cpus|, j);
    } else {
      WorkFrame(s, s', c, |s.cpus|);
    }
  }

  /** A useful step leaves less to be done for the call, and no step adds to it. */
  lemma WorkStep(s: State, a: Action, c: nat)
    requires Inv(s) && Enabled(s, a) && c < |s.vcpus| && Calling(s.vcpus[c])
    ensures var s' := Apply(s, a);
      && Shape(s') && |s'.cpus| == |s.cpus| && |s'.vcpus| == |s.vcpus|
      && Work(s', c) <= Work(s, c) && (Useful(s, a, c) ==> Work(s', c) < Work(s, c))
  {
    var s' := Apply(s, a);
    StepShape(s, a);
    if CpuStep(a) {
      WorkByCpu(s, a, c);
    } else if a == AnnounceNext(c) {
      AnnounceWork(s, c);
    } else {
      forall k: nat | k < |s.cpus| ensures AckWorkFor(s', c, k) <= AckWorkFor(s, c, k) { AckByCall(s, a, c, k); }
      WorkFrame(s, s', c, |s.cpus|);
      CallByCall(s, a, c);
    }
  }

  lemma WorkByCpu(s: State, a: Action, c: nat)
    requires Inv(s) && Enabled(s, a) && c < |s.vcpus| && CpuStep(a)
    requires Shape(Apply(s, a)) && |Apply(s, a).cpus| == |s.cpus| && |Apply(s, a).vcpus| == |s.vcpus|
    ensures Work(Apply(s, a), c) <= Work(s, c)
    ensures Actor(s, a) < |s.cpus| && (c in s.acks[Actor(s, a)] ==> Work(Apply(s, a), c) < Work(s, c))
  {
    var s' := Apply(s, a);
    forall k: nat | k < |s.cpus| ensures AckWorkFor(s', c, k) <= AckWorkFor(s, c, k) { AckByCpu(s, a, c, k); }
    WorkFrame(s, s', c, |s.cpus|);
    assert s'.vcpus[c].call == s.vcpus[c].call;
    if c in s.acks[Actor(s, a)] {
      AckByCpu(s, a, c, Actor(s, a));
      WorkLess(s, s', c, |s.cpus|, Actor(s, a));
    }
  }

  /** Calls move on by their own steps alone. */
  lemma CallByCall(s: State, a: Action, c: nat)
    requires Inv(s) && Enabled(s, a) && c < |s.vcpus| && Calling(s.vcpus[c]) && !CpuStep(a) && a != AnnounceNext(c)
    requires |Apply(s, a).vcpus| == |s.vcpus| && |Apply(s, a).cpus| == |s.cpus|
    ensures var s' := Apply(s, a);
      && CallWork(s', s'.vcpus[c].call) <= CallWork(s, s.vcpus[c].call)
      && (a == AwaitNext(c) && !Spinning(s, c) ==> CallWork(s', s'.vcpus[c].call) < CallWork(s, s.vcpus[c].call))
  {
    if a == AwaitNext(c) {
      if !Spinning(s, c) { AwaitMoves(s, c); }
    } else {
      CallFrame(s, a, c);
    }
  }

  /** How many steps of a run were useful for c's call while it lasted. */
  ghost function UsefulSteps(s: State, acts: seq<Action>, c: nat): nat
    requires Inv(s) && EnabledRun(s, acts) && c < |s.vcpus|
    decreases |acts|
  {
    if acts == [] || !Calling(s.vcpus[c]) then 0
    else
      StepInv(s, acts[0]);
      StepShape(s, acts[0]);
      (if Useful(s, acts[0], c) then 1 else 0) + UsefulSteps(Apply(s, acts[0]), acts[1..], c)
  }

  /** The number of the call and its partition stay with it to the end. */
  lemma CallKept(s: State, a: Action, c: nat)
    requires Inv(s) && Enabled(s, a) && c < |s.vcpus| && Calling(s.vcpus[c])
    ensures var s', op, target := Apply(s, a), s.vcpus[c].call.op, s.vcpus[c].call.target;
      && |s'.vcpus| == |s.vcpus|
      && (if Calling(s'.vcpus[c]) then s'.vcpus[c].call.op == op && s'.vcpus[c].call.target == target
          else op in s'.done && s'.done[op] == target)
  {
    StepShape(s, a);
    if !CpuStep(a) {
      CallFrame(s, a, c);
      if a == AnnounceNext(c) { AnnounceCall(s, c); }
    }
  }

  /** Every shootdown returns: no run takes as many useful steps as there is work left for a call, which is at
      most 6 for each vcpu and processor and 2 more, without ending it. */
  lemma {:induction false} ShootdownReturns(s: State, acts: seq<Action>, c: nat)
    requires Inv(s) && EnabledRun(s, acts) && c < |s.vcpus| && Calling(s.vcpus[c])
    ensures UsefulSteps(s, acts, c) <= Work(s, c) <= 6 * |s.vcpus| + 6 * |s.cpus| + 2
    ensures UsefulSteps(s, acts, c) == Work(s, c) ==>
      s.vcpus[c].call.op in Run(s, acts).done && Run(s, acts).done[s.vcpus[c].call.op] == s.vcpus[c].call.target
    decreases |acts|
  {
    WorkBound(s, c, |s.cpus|);
    if acts != [] {
      var s' := Apply(s, acts[0]);
      StepInv(s, acts[0]);
      WorkStep(s, acts[0], c);
      CallKept(s, acts[0], c);
      if Calling(s'.vcpus[c]) {
        ShootdownReturns(s', acts[1..], c);
      } else {
        DoneKept(s', acts[1..], s.vcpus[c].call.op);
      }
    }
  }

  /** A shootdown that has returned stays returned, with its partition. */
  lemma {:induction false} DoneKept(s: State, acts: seq<Action>, op: nat)
    requires Inv(s) && EnabledRun(s, acts) && op in s.done
    ensures op in Run(s, acts).done && Run(s, acts).done[op] == s.done[op]
    decreases |acts|
  {
    if acts != [] {
      StepInv(s, acts[0]);
      if acts[0].AwaitNext? { assert CallOk(s, acts[0].v); }
      DoneKept(Apply(s, acts[0]), acts[1..], op);
    }
  }

  lemma StartCalls(s: State, v: nat, target: nat)
    requires Inv(s) && Enabled(s, Start(v, target))
    ensures var s' := Apply(s, Start(v, target));
      && |s'.vcpus| == |s.vcpus| && s'.vcpus[v].call == Announce(s.ops, target, 0, {}) && s.ops !in s'.done
  {
    StepInv(s, Start(v, target));
    assert CallOk(Apply(s, Start(v, target)), v);
  }

  /** From its start on: the call gets the next number, and is returned under the partition asked for once
      enough useful steps have been taken. */
  lemma StartedReturns(s: State, v: nat, target: nat, acts: seq<Action>)
    requires Inv(s) && Enabled(s, Start(v, target)) && Inv(Apply(s, Start(v, target)))
    requires EnabledRun(Apply(s, Start(v, target)), acts) && |Apply(s, Start(v, target)).vcpus| == |s.vcpus|
    requires UsefulSteps(Apply(s, Start(v, target)), acts, v) >= 6 * |s.vcpus| + 6 * |s.cpus| + 2
    ensures var s' := Run(Apply(s, Start(v, target)), acts); s.ops !in s.done && s.ops in s'.done && s'.done[s.ops] == target
  {
    StartCalls(s, v, target);
    ShootdownReturns(Apply(s, Start(v, target)), acts, v);
  }

  /** A call spins for processors other than its own only. */
  lemma NeverWaitsForItself(s: State, c: nat)
    requires Reachable(s) && Shape(s) && c < |s.vcpus| && Spinning(s, c)
    ensures s.vcpus[c].call.next in s.vcpus[c].call.waitFor ==> s.vcpus[c].call.next != s.vcpus[c].home
  {
    assert SelfOk(s, c);
  }

  /** And it never has to wait for want of a step: while the call lasts and its vcpu is current, a useful step
      is enabled. */
  lemma UsefulEnabled(s: State, c: nat)
    requires Reachable(s) && c < |s.vcpus| && Shape(s) && Calling(s.vcpus[c]) && Current(s, c)
    ensures exists a :: Enabled(s, a) && Useful(s, a, c)
  {
    if s.vcpus[c].call.Announce? {
      assert Useful(s, AnnounceNext(c), c);
    } else if !Spinning(s, c) {
      assert Useful(s, AwaitNext(c), c);
    } else {
      var k := s.vcpus[c].call.next;
      WaitMakesProgress(s, c, k);
      var a := match s.cpus[k]
        case Entering(_, _) => Flush(k)
        case Flushed(_) => LaunchGuest(k)
        case Guest(_) => Exit(k, true)
        case Exited(_) => Transition(k)
        case _ => Ack(k);
      assert Enabled(s, a) && Useful(s, a, c);
    }
  }

  /** A processor's shootdown interrupt is there from an announcement to a vcpu running on it, whose flag was
      not set yet, until it is taken, once. */
  lemma IpisExactly(s: State, a: Action, k: nat)
    requires Reachable(s) && Shape(s) && Enabled(s, a) && k < |s.cpus|
    ensures k < |Apply(s, a).ipi|
    ensures Apply(s, a).ipi[k] <==>
      || (s.ipi[k] && a != TakeIpi(k) && a != Exit(k, true))
      || exists v: nat :: v < |s.vcpus| && Hit(s, a, v) && s.vcpus[v].home == k && s.vcpus[v].state.Running? && !s.vcpus[v].flushPending
  {
    if a.AnnounceNext? && s.vcpus[a.v].call.next < |s.vcpus| { IpiOfAnnouncement(s, a.v, k); }
  }

  lemma IpiOfAnnouncement(s: State, c: nat, k: nat)
    requires Shape(s) && Enabled(s, AnnounceNext(c)) && s.vcpus[c].call.next < |s.vcpus| && k < |s.cpus|
    ensures var v := s.vcpus[c].call.next; var s' := AnnounceTo(s, c, v);
      && |s'.ipi| == |s.ipi|
      && (s'.ipi[k] <==> s.ipi[k] || (Hit(s, AnnounceNext(c), v) && s.vcpus[v].home == k && s.vcpus[v].state.Running? &&
                                      !s.vcpus[v].flushPending))
  {
  }

  /** A vcpu that is scheduled leaves the locked section of its entry with its flag cleared, and with a flush due
      if the flag was set; */
  lemma EntersUnflagged(s: State, k: nat, v: nat)
    requires Shape(s) && Enabled(s, Schedule(k, v)) && s.vcpus[v].call.NoCall?
    ensures var s1 := Apply(s, Schedule(k, v));
      Shape(s1) && Enabled(s1, Enter(k)) && var s2 := Apply(s1, Enter(k));
      s2 == s.(cpus := s.cpus[k := Entering(v, s.vcpus[v].flushPending && s.vcpus[v].vpid)],
               vcpus := s.vcpus[v := s.vcpus[v].(state := Running, flushPending := false)])
  {
    var s1 := Apply(s, Schedule(k, v));
    assert s1 == s.(cpus := s.cpus[k := Root(v)], vcpus := s.vcpus[v := s.vcpus[v].(state := Transitioning)]);
  }

  /** ... and is in the guest two steps later, flushed if it was due or the entry itself flushes. */
  lemma LaunchesFlushed(s: State, k: nat, v: nat)
    requires Shape(s) && k < |s.cpus| && s.cpus[k].Entering? && s.cpus[k].v == v
    ensures Enabled(s, Flush(k)) && var s1 := Apply(s, Flush(k));
      Shape(s1) && Enabled(s1, LaunchGuest(k)) && var s2 := Apply(s1, LaunchGuest(k));
      s2 == s.(cpus := s.cpus[k := Guest(v)],
               vcpus := s.vcpus[v := s.vcpus[v].(stale := if s.cpus[k].invvpid || !s.vcpus[v].vpid then {} else s.vcpus[v].stale)])
  {
    assert Apply(s, Flush(k)).cpus[k := Guest(v)] == s.cpus[k := Guest(v)];
  }

  /** It leaves the guest with everyone acknowledged who has waited for that; */
  lemma LeavesAcknowledged(s: State, k: nat, v: nat)
    requires Shape(s) && k < |s.cpus| && s.cpus[k] == Guest(v)
    ensures Enabled(s, Exit(k, false)) && var s1 := Apply(s, Exit(k, false));
      Shape(s1) && Enabled(s1, Transition(k)) && var s2 := Apply(s1, Transition(k));
      Shape(s2) && Enabled(s2, Ack(k)) && var s3 := Apply(s2, Ack(k));
      s3 == s.(cpus := s.cpus[k := Root(v)], vcpus := s.vcpus[v := s.vcpus[v].(state := Transitioning)], acks := s.acks[k := {}])
  {
    var s2 := Apply(Apply(s, Exit(k, false)), Transition(k));
    assert s2.cpus == s.cpus[k := Acking(v)] && s2.cpus[k := Root(v)] == s.cpus[k := Root(v)];
  }

  /** ... and is ready again when its processor gives it up. */
  lemma ReadyAgain(s: State, k: nat, v: nat)
    requires Shape(s) && k < |s.cpus| && s.cpus[k] == Root(v)
    ensures Enabled(s, Deschedule(k))
    ensures Apply(s, Deschedule(k)) == s.(cpus := s.cpus[k := Idle], vcpus := s.vcpus[v := s.vcpus[v].(state := Ready)])
  {
  }
}

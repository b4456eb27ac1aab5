/** Tearing down a partition: vteardown calls, failing vcpus and vcpus that find their terminate flag set
    all terminate vcpus of the partition and add what they have terminated to num_terminated; who
    brings it to the number of vcpus finalises the teardown.

    A step machine over the vcpus of one partition and any number of vteardown calls.  A section under
    a scheduler lock is one step; what a walk over the vcpus has terminated is counted locally and
    added at its end. */
module Teardown {

  datatype VState = Initializing | Ready | Running | Transitioning | Paused | Spinning | Terminated

  /** Where a vcpu's own code is. */
  datatype Pc =
    | Normal
    | Recovering                          // vdo_transitioning_recover, terminate flag seen
    | AddOne                              // ... terminated, not yet counted
    | Failing(next: nat, count: nat)      // vfailure_recover, next vcpu to look at
    | FailAdd(count: nat)                 // ... walk finished, not yet counted
    | Gone(final: bool)                   // left for good, final when it finalised the teardown

  /** `kick` is the interrupt that makes the vcpu leave the guest. */
  datatype Vcpu = Vcpu(state: VState, terminate: bool, kick: bool, pc: Pc)

  /** A vteardown call. */
  datatype Job = Walk(next: nat, count: nat) | Add(count: nat) | Done(final: bool)

  /** `finals` counts those that finalised the teardown after terminating at least one vcpu. */
  datatype State = State(vcpus: seq<Vcpu>, jobs: seq<Job>, num: nat, finals: nat)

  datatype Action =
    | Schedule(v: nat)                    // vsched_enter_ctx
    | Enter(v: nat)                       // __venter
    | Exit(v: nat)                        // vexit_dispatcher
    | Notice(v: nat)                      // ... sees the terminate flag
    | Put(v: nat)                         // vsched_put
    | Pause(v: nat, spin: bool)           // vsched_put_paused
    | Wake(v: nat)
    | Fail(v: nat)                        // vfailure_recover starts
    | Recover(v: nat)
    | AddSelf(v: nat)
    | FailNext(v: nat)
    | AddFailed(v: nat)
    | StartJob
    | JobNext(j: nat)
    | AddJob(j: nat)

  /** The vcpu is current on its processor. */
  predicate Executing(x: VState) { x.Initializing? || x.Running? || x.Transitioning? }

  predicate Enabled(s: State, a: Action) {
    match a
    case Schedule(v) => v < |s.vcpus| && s.vcpus[v].state.Ready?
    case Enter(v) => v < |s.vcpus| && s.vcpus[v].pc.Normal? && (s.vcpus[v].state.Transitioning? || s.vcpus[v].state.Initializing?)
    case Exit(v) => v < |s.vcpus| && s.vcpus[v].pc.Normal? && s.vcpus[v].state.Running?
    case Notice(v) => v < |s.vcpus| && s.vcpus[v].pc.Normal? && s.vcpus[v].state.Transitioning? && s.vcpus[v].terminate
    case Put(v) => v < |s.vcpus| && s.vcpus[v].pc.Normal? && (s.vcpus[v].state.Transitioning? || s.vcpus[v].state.Initializing?)
    case Pause(v, _) => v < |s.vcpus| && s.vcpus[v].pc.Normal? && s.vcpus[v].state.Transitioning?
    case Wake(v) => v < |s.vcpus| && (s.vcpus[v].state.Paused? || s.vcpus[v].state.Spinning?)
    case Fail(v) => v < |s.vcpus| && s.vcpus[v].pc.Normal? && Executing(s.vcpus[v].state)
    case Recover(v) => v < |s.vcpus| && s.vcpus[v].pc.Recovering?
    case AddSelf(v) => v < |s.vcpus| && s.vcpus[v].pc.AddOne?
    case FailNext(v) => v < |s.vcpus| && s.vcpus[v].pc.Failing?
    case AddFailed(v) => v < |s.vcpus| && s.vcpus[v].pc.FailAdd?
    case StartJob => true
    case JobNext(j) => j < |s.jobs| && s.jobs[j].Walk?
    case AddJob(j) => j < |s.jobs| && s.jobs[j].Add?
  }

  function SetVcpu(s: State, v: nat, x: Vcpu): State
    requires v < |s.vcpus|
  {
    State(s.vcpus[v := x], s.jobs, s.num, s.finals)
  }

  /** Unless it has to terminate, the vcpu goes to state x. */
  function Settle(s: State, v: nat, x: VState): State
    requires v < |s.vcpus|
  {
    var o := s.vcpus[v];
    SetVcpu(s, v, if o.terminate then o.(pc := Recovering) else o.(state := x))
  }

  /** A walk terminates a vcpu that is not current anywhere. */
  predicate Takes(x: VState) { x.Ready? || x.Paused? || x.Spinning? }

  /** The section of a walk on a vcpu that is not the walker. */
  function Visit(x: Vcpu): Vcpu {
    x.(state := if Takes(x.state) then Terminated else x.state, terminate := true, kick := x.kick || x.state.Running?)
  }

  /** num_terminated after count has been added, and whether that makes all vcpus. */
  function Total(s: State, count: nat): (r: (nat, bool)) {
    (s.num + count, s.num + count == |s.vcpus|)
  }

  function Finals(s: State, count: nat): nat {
    if Total(s, count).1 && count > 0 then s.finals + 1 else s.finals
  }

  function Apply(s: State, a: Action): State
    requires Enabled(s, a)
  {
    match a
    case Schedule(v) => SetVcpu(s, v, s.vcpus[v].(state := Transitioning))
    case Enter(v) => Settle(s, v, Running)
    case Exit(v) => SetVcpu(s, v, s.vcpus[v].(state := Transitioning, kick := false))
    case Notice(v) => SetVcpu(s, v, s.vcpus[v].(pc := Recovering))
    case Put(v) => Settle(s, v, Ready)
    case Pause(v, spin) => Settle(s, v, if spin then Spinning else Paused)
    case Wake(v) => SetVcpu(s, v, s.vcpus[v].(state := Ready))
    case Fail(v) => SetVcpu(s, v, s.vcpus[v].(pc := Failing(0, 0)))
    case Recover(v) => SetVcpu(s, v, s.vcpus[v].(state := Terminated, pc := AddOne))
    case AddSelf(v) =>
      State(s.vcpus[v := s.vcpus[v].(pc := Gone(Total(s, 1).1))], s.jobs, s.num + 1, Finals(s, 1))
    case FailNext(v) =>
      var Failing(next, count) := s.vcpus[v].pc;
      if next >= |s.vcpus| then SetVcpu(s, v, s.vcpus[v].(pc := FailAdd(count)))
      else if next == v then SetVcpu(s, v, s.vcpus[v].(state := Terminated, terminate := true, pc := Failing(next + 1, count + 1)))
      else
        var taken := if Takes(s.vcpus[next].state) then 1 else 0;
        SetVcpu(SetVcpu(s, next, Visit(s.vcpus[next])), v, s.vcpus[v].(pc := Failing(next + 1, count + taken)))
    case AddFailed(v) =>
      var count := s.vcpus[v].pc.count;
      State(s.vcpus[v := s.vcpus[v].(pc := Gone(Total(s, count).1))], s.jobs, s.num + count, Finals(s, count))
    case StartJob => State(s.vcpus, s.jobs + [Walk(0, 0)], s.num, s.finals)
    case JobNext(j) =>
      var Walk(next, count) := s.jobs[j];
      if next >= |s.vcpus| then State(s.vcpus, s.jobs[j := Add(count)], s.num, s.finals)
      else
        var taken := if Takes(s.vcpus[next].state) then 1 else 0;
        State(s.vcpus[next := Visit(s.vcpus[next])], s.jobs[j := Walk(next + 1, count + taken)], s.num, s.finals)
    case AddJob(j) =>
      var count := s.jobs[j].count;
      State(s.vcpus, s.jobs[j := Done(Total(s, count).1)], s.num + count, Finals(s, count))
  }

  // ---------------------------------------------------------------------------
  // Counting
  // ---------------------------------------------------------------------------

  /** Terminated by the code of this vcpu and not yet added. */
  function Held(p: Pc): nat {
    match p
    case AddOne => 1
    case Failing(_, c) => c
    case FailAdd(c) => c
    case _ => 0
  }

  function JobHeld(j: Job): nat {
    match j
    case Walk(_, c) => c
    case Add(c) => c
    case Done(_) => 0
  }

  function One(x: Vcpu): nat { if x.state.Terminated? then 1 else 0 }

  function Count(vs: seq<Vcpu>): (n: nat)
    ensures n <= |vs|
  {
    if vs == [] then 0 else One(vs[0]) + Count(vs[1..])
  }

  function SumHeld(vs: seq<Vcpu>): nat {
    if vs == [] then 0 else Held(vs[0].pc) + SumHeld(vs[1..])
  }

  function SumJobs(js: seq<Job>): nat {
    if js == [] then 0 else JobHeld(js[0]) + SumJobs(js[1..])
  }

  lemma {:induction false} CountUpdate(vs: seq<Vcpu>, v: nat, x: Vcpu)
    requires v < |vs|
    ensures Count(vs[v := x]) + One(vs[v]) == Count(vs) + One(x)
    ensures SumHeld(vs[v := x]) + Held(vs[v].pc) == SumHeld(vs) + Held(x.pc)
  {
    if v == 0 {
      assert vs[v := x][1..] == vs[1..];
    } else {
      assert vs[v := x][1..] == vs[1..][v - 1 := x];
      CountUpdate(vs[1..], v - 1, x);
    }
  }

  lemma {:induction false} JobsUpdate(js: seq<Job>, j: nat, x: Job)
    requires j < |js|
    ensures SumJobs(js[j := x]) + JobHeld(js[j]) == SumJobs(js) + JobHeld(x)
  {
    if j == 0 {
      assert js[j := x][1..] == js[1..];
    } else {
      assert js[j := x][1..] == js[1..][j - 1 := x];
      JobsUpdate(js[1..], j - 1, x);
    }
  }

  lemma {:induction false} JobsAppend(js: seq<Job>, x: Job)
    ensures SumJobs(js + [x]) == SumJobs(js) + JobHeld(x)
  {
    if js == [] {
      assert (js + [x])[1..] == [];
    } else {
      assert (js + [x])[1..] == js[1..] + [x];
      JobsAppend(js[1..], x);
    }
  }

  lemma {:induction false} CountAll(vs: seq<Vcpu>)
    requires Count(vs) == |vs|
    ensures forall v | 0 <= v < |vs| :: vs[v].state.Terminated?
  {
    if vs != [] {
      CountAll(vs[1..]);
      forall v | 0 <= v < |vs| ensures vs[v].state.Terminated? {
        if v > 0 { assert vs[v] == vs[1..][v - 1]; }
      }
    }
  }

  // ---------------------------------------------------------------------------
  // The invariant
  // ---------------------------------------------------------------------------

  /** A vcpu terminates itself only while it is current, and nobody else terminates it then. */
  predicate VcpuOk(s: State, v: nat)
    requires v < |s.vcpus|
  {
    var x := s.vcpus[v];
    match x.pc
    case Normal => true
    case Recovering => Executing(x.state)
    case Failing(next, count) => if next <= v then Executing(x.state) else x.state.Terminated? && count > 0
    case FailAdd(count) => x.state.Terminated? && count > 0
    case _ => x.state.Terminated?
  }

  /** num_terminated and what is not yet added make up the terminated vcpus. */
  predicate Balanced(s: State) { s.num + SumHeld(s.vcpus) + SumJobs(s.jobs) == Count(s.vcpus) }

  predicate Finalised(s: State) {
    || (exists v: nat | v < |s.vcpus| :: s.vcpus[v].pc == Gone(true))
    || (exists j: nat | j < |s.jobs| :: s.jobs[j] == Done(true))
  }

  /** A vcpu that has been told to terminate has, or is current and stays so until it has; in the guest it has
      the interrupt on its way that makes it leave. */
  predicate FlagOk(x: Vcpu) {
    && (x.terminate ==> Executing(x.state) || x.state.Terminated?)
    && (x.terminate && x.state.Running? ==> x.kick)
    && (x.state.Terminated? || x.pc.Recovering? ==> x.terminate)
  }

  /** The first n vcpus, or all, have been told. */
  predicate Told(vs: seq<Vcpu>, n: nat) {
    forall v: nat | v < n && v < |vs| :: vs[v].terminate
  }

  /** How far the code of a vcpu, or a vteardown call, has told vcpus to terminate. */
  function ToldBy(p: Pc, n: nat): nat {
    match p
    case Failing(next, _) => next
    case FailAdd(_) => n
    case _ => 0
  }

  function ToldByJob(j: Job, n: nat): nat {
    match j
    case Walk(next, _) => next
    case _ => n
  }

  predicate WalkOk(s: State, v: nat)
    requires v < |s.vcpus|
  {
    FlagOk(s.vcpus[v]) && Told(s.vcpus, ToldBy(s.vcpus[v].pc, |s.vcpus|))
  }

  predicate JobOk(s: State, j: nat)
    requires j < |s.jobs|
  {
    Told(s.vcpus, ToldByJob(s.jobs[j], |s.vcpus|))
  }

  /** Every walk has told the vcpus it has passed, and a finished one all of them. */
  predicate FlagInv(s: State) {
    && (forall v: nat {:trigger WalkOk(s, v)} | v < |s.vcpus| :: WalkOk(s, v))
    && (forall j: nat {:trigger JobOk(s, j)} | j < |s.jobs| :: JobOk(s, j))
  }

  predicate Inv(s: State) {
    && FlagInv(s)
    && (forall v: nat {:trigger VcpuOk(s, v)} | v < |s.vcpus| :: VcpuOk(s, v))
    && Balanced(s)
    && (Finalised(s) ==> s.num == |s.vcpus|)
    && s.finals <= 1 && (|s.vcpus| > 0 ==> (s.finals == 1 <==> s.num == |s.vcpus|))
  }

  lemma StepVcpu(s: State, a: Action, v: nat)
    requires Inv(s) && Enabled(s, a) && v < |s.vcpus|
    ensures |Apply(s, a).vcpus| == |s.vcpus| && VcpuOk(Apply(s, a), v)
  {
    assert VcpuOk(s, v);
    if a.FailNext? { assert VcpuOk(s, a.v); VcpuFail(s, a.v, v); }
  }

  lemma VcpuFail(s: State, w: nat, v: nat)
    requires Enabled(s, FailNext(w)) && v < |s.vcpus| && VcpuOk(s, v) && VcpuOk(s, w)
    ensures |Apply(s, FailNext(w)).vcpus| == |s.vcpus| && VcpuOk(Apply(s, FailNext(w)), v)
  {
  }

  /** Excess of what is terminated over what is counted somewhere. */
  function Gap(s: State): int { Count(s.vcpus) - s.num - SumHeld(s.vcpus) - SumJobs(s.jobs) }

  lemma GapSet(s: State, v: nat, x: Vcpu)
    requires v < |s.vcpus|
    ensures Gap(SetVcpu(s, v, x)) == Gap(s) + One(x) - One(s.vcpus[v]) + Held(s.vcpus[v].pc) - Held(x.pc)
  {
    CountUpdate(s.vcpus, v, x);
  }

  lemma StepBalanced(s: State, a: Action)
    requires Inv(s) && Enabled(s, a)
    ensures Balanced(Apply(s, a))
  {
    match a
    case StartJob => JobsAppend(s.jobs, Walk(0, 0));
    case JobNext(j) => BalancedJob(s, j);
    case AddJob(j) => JobsUpdate(s.jobs, j, Apply(s, a).jobs[j]);
    case FailNext(v) => BalancedFail(s, v);
    case AddSelf(v) => BalancedAdd(s, a, v);
    case AddFailed(v) => BalancedAdd(s, a, v);
    case Recover(v) => BalancedRecover(s, v);
    case _ => BalancedMove(s, a, a.v);
  }

  lemma BalancedAdd(s: State, a: Action, v: nat)
    requires Balanced(s) && Enabled(s, a) && (a == AddSelf(v) || a == AddFailed(v))
    ensures Balanced(Apply(s, a))
  {
    CountUpdate(s.vcpus, v, Apply(s, a).vcpus[v]);
  }

  lemma BalancedRecover(s: State, v: nat)
    requires Inv(s) && Enabled(s, Recover(v))
    ensures Balanced(Apply(s, Recover(v)))
  {
    assert VcpuOk(s, v);
    GapSet(s, v, Apply(s, Recover(v)).vcpus[v]);
  }

  /** Steps that neither terminate nor count. */
  lemma BalancedMove(s: State, a: Action, v: nat)
    requires Balanced(s) && Enabled(s, a)
    requires a in {Schedule(v), Enter(v), Exit(v), Notice(v), Put(v), Pause(v, true), Pause(v, false), Wake(v), Fail(v)}
    ensures Balanced(Apply(s, a))
  {
    var x := Apply(s, a).vcpus[v];
    assert Apply(s, a) == SetVcpu(s, v, x);
    GapSet(s, v, x);
  }

  lemma BalancedJob(s: State, j: nat)
    requires Balanced(s) && Enabled(s, JobNext(j))
    ensures Balanced(Apply(s, JobNext(j)))
  {
    var s' := Apply(s, JobNext(j));
    var next := s.jobs[j].next;
    JobsUpdate(s.jobs, j, s'.jobs[j]);
    if next < |s.vcpus| { CountUpdate(s.vcpus, next, Visit(s.vcpus[next])); }
  }

  lemma BalancedFail(s: State, v: nat)
    requires Inv(s) && Enabled(s, FailNext(v))
    ensures Balanced(Apply(s, FailNext(v)))
  {
    assert VcpuOk(s, v);
    var next := s.vcpus[v].pc.next;
    if next >= |s.vcpus| || next == v {
      GapSet(s, v, Apply(s, FailNext(v)).vcpus[v]);
    } else {
      BalancedVisit(s, v, next, s.vcpus[v].pc.count);
    }
  }

  lemma BalancedVisit(s: State, v: nat, next: nat, count: nat)
    requires Balanced(s) && v < |s.vcpus| && next < |s.vcpus| && next != v && s.vcpus[v].pc == Failing(next, count)
    ensures Balanced(Apply(s, FailNext(v)))
  {
    var s1 := SetVcpu(s, next, Visit(s.vcpus[next]));
    var taken := if Takes(s.vcpus[next].state) then 1 else 0;
    var x := s.vcpus[v].(pc := Failing(next + 1, count + taken));
    GapSet(s, next, Visit(s.vcpus[next]));
    GapSet(s1, v, x);
    assert Apply(s, FailNext(v)) == SetVcpu(s1, v, x);
  }

  lemma StepInv(s: State, a: Action)
    requires Inv(s) && Enabled(s, a)
    ensures Inv(Apply(s, a))
  {
    var s' := Apply(s, a);
    forall v: nat | v < |s'.vcpus| ensures VcpuOk(s', v) { StepVcpu(s, a, v); }
    StepBalanced(s, a);
    StepFinal(s, a);
    StepFlags(s, a);
  }

  /** A vcpu once told stays told. */
  lemma ToldStays(s: State, a: Action, n: nat)
    requires Enabled(s, a) && Told(s.vcpus, n)
    ensures |Apply(s, a).vcpus| == |s.vcpus| && Told(Apply(s, a).vcpus, n)
  {
  }

  lemma StepFlags(s: State, a: Action)
    requires FlagInv(s) && Enabled(s, a)
    ensures FlagInv(Apply(s, a))
  {
    var s' := Apply(s, a);
    ToldStays(s, a, 0);
    forall v: nat | v < |s'.vcpus| ensures WalkOk(s', v) { FlagsOfVcpu(s, a, v); }
    forall j: nat | j < |s'.jobs| ensures JobOk(s', j) { FlagsOfJob(s, a, j); }
  }

  lemma FlagsOfVcpu(s: State, a: Action, v: nat)
    requires Enabled(s, a) && v < |s.vcpus| && WalkOk(s, v)
    ensures |Apply(s, a).vcpus| == |s.vcpus| && WalkOk(Apply(s, a), v)
  {
    ToldStays(s, a, ToldBy(s.vcpus[v].pc, |s.vcpus|));
    FlagStep(s, a, v);
  }

  lemma FlagStep(s: State, a: Action, v: nat)
    requires Enabled(s, a) && v < |s.vcpus| && FlagOk(s.vcpus[v])
    ensures |Apply(s, a).vcpus| == |s.vcpus| && FlagOk(Apply(s, a).vcpus[v])
    ensures ToldBy(Apply(s, a).vcpus[v].pc, |s.vcpus|) <= ToldBy(s.vcpus[v].pc, |s.vcpus|) ||
            (a == FailNext(v) && ToldBy(Apply(s, a).vcpus[v].pc, |s.vcpus|) <= s.vcpus[v].pc.next + 1 &&
             s.vcpus[v].pc.next < |s.vcpus| && Apply(s, a).vcpus[s.vcpus[v].pc.next].terminate) ||
            (a == FailNext(v) && s.vcpus[v].pc.next >= |s.vcpus|)
  {
  }

  lemma FlagsOfJob(s: State, a: Action, j: nat)
    requires FlagInv(s) && Enabled(s, a) && j < |Apply(s, a).jobs|
    ensures JobOk(Apply(s, a), j)
  {
    if j < |s.jobs| {
      assert JobOk(s, j);
      ToldStays(s, a, ToldByJob(s.jobs[j], |s.vcpus|));
    }
  }

  lemma StepFinal(s: State, a: Action)
    requires Inv(s) && Enabled(s, a) && Balanced(Apply(s, a))
    ensures var s' := Apply(s, a); |s'.vcpus| == |s.vcpus| && (Finalised(s') ==> s'.num == |s'.vcpus|)
    ensures var s' := Apply(s, a); s'.finals <= 1 && (|s'.vcpus| > 0 ==> (s'.finals == 1 <==> s'.num == |s'.vcpus|))
  {
    assert s.num <= Apply(s, a).num <= |s.vcpus|;
    FinalisedAtTotal(s, a);
  }

  lemma FinalisedAtTotal(s: State, a: Action)
    requires Inv(s) && Enabled(s, a) && s.num <= Apply(s, a).num <= |s.vcpus|
    ensures var s' := Apply(s, a); |s'.vcpus| == |s.vcpus| && (Finalised(s') ==> s'.num == |s'.vcpus|)
  {
    var s' := Apply(s, a);
    if v: nat :| v < |s'.vcpus| && s'.vcpus[v].pc == Gone(true) { assert s.vcpus[v].pc == Gone(true) ==> Finalised(s); }
    if j: nat :| j < |s'.jobs| && s'.jobs[j] == Done(true) { assert j < |s.jobs| && s.jobs[j] == Done(true) ==> Finalised(s); }
  }

  // ---------------------------------------------------------------------------
  // Main results, over every run
  // ---------------------------------------------------------------------------

  /** A partition before any teardown; no call is in progress. */
  predicate Initial(s: State) {
    && s.jobs == [] && s.num == 0 && s.finals == 0
    && forall v: nat | v < |s.vcpus| :: s.vcpus[v].pc.Normal? && !s.vcpus[v].state.Terminated? && !s.vcpus[v].terminate
  }

  lemma {:induction false} NothingCounted(vs: seq<Vcpu>)
    requires forall v: nat | v < |vs| :: vs[v].pc.Normal? && !vs[v].state.Terminated?
    ensures Count(vs) == 0 && SumHeld(vs) == 0
  {
    if vs != [] { NothingCounted(vs[1..]); }
  }

  lemma InitialInv(s: State)
    requires Initial(s)
    ensures Inv(s)
  {
    NothingCounted(s.vcpus);
    forall v: nat | v < |s.vcpus| ensures VcpuOk(s, v) && WalkOk(s, v) { }
  }

  ghost predicate EnabledRun(s: State, acts: seq<Action>)
    decreases |acts|
  {
    acts == [] || (Enabled(s, acts[0]) && EnabledRun(Apply(s, acts[0]), acts[1..]))
  }

  ghost function Run(s: State, acts: seq<Action>): State
    requires EnabledRun(s, acts)
    decreases |acts|
  {
    if acts == [] then s else Run(Apply(s, acts[0]), acts[1..])
  }

  lemma {:induction false} RunInv(s: State, acts: seq<Action>)
    requires Inv(s) && EnabledRun(s, acts)
    ensures Inv(Run(s, acts))
    decreases |acts|
  {
    if acts != [] {
      StepInv(s, acts[0]);
      RunInv(Apply(s, acts[0]), acts[1..]);
    }
  }

  ghost predicate Reachable(s: State) {
    exists s0: State, acts: seq<Action> :: Initial(s0) && EnabledRun(s0, acts) && s == Run(s0, acts)
  }

  lemma ReachableInv(s: State)
    requires Reachable(s)
    ensures Inv(s)
  {
    var s0: State, acts: seq<Action> :| Initial(s0) && EnabledRun(s0, acts) && s == Run(s0, acts);
    InitialInv(s0);
    RunInv(s0, acts);
  }

  /** num_terminated and the counts that have not been added yet are exactly the terminated vcpus. */
  lemma Conservation(s: State)
    requires Reachable(s)
    ensures s.num + SumHeld(s.vcpus) + SumJobs(s.jobs) == Count(s.vcpus) <= |s.vcpus|
  {
    ReachableInv(s);
  }

  /** The vcpus whose state a step sets to terminated. */
  function Terminates(s: State, a: Action): set<nat>
    requires Enabled(s, a)
  {
    match a
    case Recover(v) => {v}
    case FailNext(v) =>
      var next := s.vcpus[v].pc.next;
      if next < |s.vcpus| && (next == v || Takes(s.vcpus[next].state)) then {next} else {}
    case JobNext(j) =>
      var next := s.jobs[j].next;
      if next < |s.vcpus| && Takes(s.vcpus[next].state) then {next} else {}
    case _ => {}
  }

  /** A vcpu is set to terminated once: never when it is already, and no step takes it back. */
  lemma TerminatedOnce(s: State, a: Action, v: nat)
    requires Reachable(s) && Enabled(s, a) && v < |s.vcpus|
    ensures v in Terminates(s, a) ==> !s.vcpus[v].state.Terminated?
    ensures |Apply(s, a).vcpus| == |s.vcpus|
    ensures Apply(s, a).vcpus[v].state.Terminated? <==> s.vcpus[v].state.Terminated? || v in Terminates(s, a)
  {
    ReachableInv(s);
    assert VcpuOk(s, v);
    if a.FailNext? { assert VcpuOk(s, a.v); }
  }

  /** Nobody finalises the teardown while a vcpu is live. */
  lemma FinalisingWaits(s: State, v: nat)
    requires Reachable(s) && Finalised(s) && v < |s.vcpus|
    ensures s.vcpus[v].state.Terminated?
  {
    ReachableInv(s);
    CountAll(s.vcpus);
  }

  /** Among those that terminated a vcpu, at most one finalises the teardown, and exactly one has once all
      vcpus are terminated and all counts are added. */
  lemma OneTerminatorFinalises(s: State)
    requires Reachable(s) && |s.vcpus| > 0
    ensures s.finals <= 1
    ensures Count(s.vcpus) == |s.vcpus| && SumHeld(s.vcpus) == 0 && SumJobs(s.jobs) == 0 ==> s.finals == 1
  {
    ReachableInv(s);
  }

  /** A vteardown call that terminated nobody finalises the teardown again exactly when all vcpus have been
      counted before it. */
  lemma IdleTeardown(s: State, j: nat)
    requires Reachable(s) && j < |s.jobs| && s.jobs[j] == Add(0)
    ensures Apply(s, AddJob(j)).jobs[j] == Done(true) <==> s.num == |s.vcpus|
    ensures s.num == |s.vcpus| ==> forall v: nat | v < |s.vcpus| :: s.vcpus[v].state.Terminated?
  {
    ReachableInv(s);
    if s.num == |s.vcpus| { CountAll(s.vcpus); }
  }

  /** The step marks its code as the one that finalises. */
  predicate Finalises(s: State, a: Action)
    requires Enabled(s, a)
  {
    match a
    case AddSelf(v) => Apply(s, a).vcpus[v].pc == Gone(true)
    case AddFailed(v) => Apply(s, a).vcpus[v].pc == Gone(true)
    case AddJob(j) => Apply(s, a).jobs[j] == Done(true)
    case _ => false
  }

  /** A vteardown call that terminated nobody adds its zero after all vcpus have been counted. */
  predicate Late(s: State, a: Action)
    requires Enabled(s, a)
  {
    a.AddJob? && s.jobs[a.j].count == 0 && s.num == |s.vcpus|
  }

  ghost function Finalisations(s: State, acts: seq<Action>): nat
    requires EnabledRun(s, acts)
    decreases |acts|
  {
    if acts == [] then 0 else (if Finalises(s, acts[0]) then 1 else 0) + Finalisations(Apply(s, acts[0]), acts[1..])
  }

  ghost function LateCalls(s: State, acts: seq<Action>): nat
    requires EnabledRun(s, acts)
    decreases |acts|
  {
    if acts == [] then 0 else (if Late(s, acts[0]) then 1 else 0) + LateCalls(Apply(s, acts[0]), acts[1..])
  }

  lemma FinalisingStep(s: State, a: Action)
    requires Inv(s) && Enabled(s, a) && |s.vcpus| > 0
    ensures var s' := Apply(s, a);
      && s'.finals >= s.finals
      && (Late(s, a) ==> s.finals == 1)
      && (if Finalises(s, a) then 1 else 0) == s'.finals - s.finals + (if Late(s, a) then 1 else 0)
  {
    if a.AddFailed? { assert VcpuOk(s, a.v); }
  }

  /** The partition is finalised once by one of those that terminated a vcpu, when the total is reached, and
      once more by every late call. */
  lemma {:induction false} FinalisationsOfRun(s: State, acts: seq<Action>)
    requires Inv(s) && EnabledRun(s, acts) && |s.vcpus| > 0
    ensures Finalisations(s, acts) == Run(s, acts).finals - s.finals + LateCalls(s, acts)
    ensures s.finals <= Run(s, acts).finals <= 1 && (LateCalls(s, acts) > 0 ==> Run(s, acts).finals == 1)
    decreases |acts|
  {
    if acts != [] {
      FinalisingStep(s, acts[0]);
      StepInv(s, acts[0]);
      FinalisationsOfRun(Apply(s, acts[0]), acts[1..]);
    }
  }

  /** A run finalises the partition more than once if and only if one of its calls is late. */
  lemma FinalisedOnceExactly(s: State, acts: seq<Action>)
    requires Initial(s) && |s.vcpus| > 0 && EnabledRun(s, acts)
    ensures Finalisations(s, acts) > 1 <==> LateCalls(s, acts) > 0
    ensures Finalisations(s, acts) == Run(s, acts).finals + LateCalls(s, acts) && Run(s, acts).finals <= 1
  {
    InitialInv(s);
    FinalisationsOfRun(s, acts);
  }

  lemma {:induction false} RunAppend(s: State, acts: seq<Action>, a: Action)
    requires EnabledRun(s, acts) && Enabled(Run(s, acts), a)
    ensures EnabledRun(s, acts + [a]) && Run(s, acts + [a]) == Apply(Run(s, acts), a)
    decreases |acts|
  {
    if acts == [] {
      assert (acts + [a])[1..] == [];
    } else {
      assert (acts + [a])[1..] == acts[1..] + [a];
      RunAppend(Apply(s, acts[0]), acts[1..], a);
    }
  }

  lemma ReachStep(s: State, a: Action, s': State)
    requires Reachable(s) && Enabled(s, a) && s' == Apply(s, a)
    ensures Reachable(s')
  {
    var s0: State, acts: seq<Action> :| Initial(s0) && EnabledRun(s0, acts) && s == Run(s0, acts);
    RunAppend(s0, acts, a);
  }

  lemma TwoStart(ready: seq<Vcpu>)
    requires ready == [Vcpu(Ready, false, false, Normal)]
    ensures Reachable(State(ready, [Walk(0, 0), Walk(0, 0)], 0, 0))
  {
    var s0 := State(ready, [], 0, 0);
    assert Run(s0, []) == s0 && Initial(s0);
    ReachStep(s0, StartJob, State(ready, [Walk(0, 0)], 0, 0));
    ReachStep(State(ready, [Walk(0, 0)], 0, 0), StartJob, State(ready, [Walk(0, 0), Walk(0, 0)], 0, 0));
  }

  /** Two calls start on a ready vcpu, and the first terminates it. */
  lemma TwoCalls(ready: seq<Vcpu>, gone: seq<Vcpu>)
    requires ready == [Vcpu(Ready, false, false, Normal)] && gone == [Vcpu(Terminated, true, false, Normal)]
    ensures Reachable(State(gone, [Add(1), Walk(0, 0)], 0, 0))
  {
    TwoStart(ready);
    ReachStep(State(ready, [Walk(0, 0), Walk(0, 0)], 0, 0), JobNext(0), State(gone, [Walk(1, 1), Walk(0, 0)], 0, 0));
    ReachStep(State(gone, [Walk(1, 1), Walk(0, 0)], 0, 0), JobNext(0), State(gone, [Add(1), Walk(0, 0)], 0, 0));
  }

  /** ... which does happen: the second call has nothing to terminate and finalises once more. */
  lemma FinalisedTwice(gone: seq<Vcpu>)
    requires gone == [Vcpu(Terminated, true, false, Normal)]
    ensures Reachable(State(gone, [Done(true), Done(true)], 1, 1))
  {
    TwoCalls([Vcpu(Ready, false, false, Normal)], gone);
    ReachStep(State(gone, [Add(1), Walk(0, 0)], 0, 0), JobNext(1), State(gone, [Add(1), Walk(1, 0)], 0, 0));
    ReachStep(State(gone, [Add(1), Walk(1, 0)], 0, 0), JobNext(1), State(gone, [Add(1), Add(0)], 0, 0));
    ReachStep(State(gone, [Add(1), Add(0)], 0, 0), AddJob(0), State(gone, [Done(true), Add(0)], 1, 1));
    ReachStep(State(gone, [Done(true), Add(0)], 1, 1), AddJob(1), State(gone, [Done(true), Done(true)], 1, 1));
  }

  // ---------------------------------------------------------------------------
  // A teardown completes
  // ---------------------------------------------------------------------------

  ghost predicate AllTold(s: State) { Told(s.vcpus, |s.vcpus|) }

  /** The walk of a vteardown call or of a failing vcpu is over. */
  ghost predicate WalkFinished(s: State) {
    || (exists j: nat | j < |s.jobs| :: !s.jobs[j].Walk?)
    || (exists v: nat | v < |s.vcpus| :: s.vcpus[v].pc.FailAdd?)
  }

  /** A walk that is over has told every vcpu of the partition to terminate, and nothing takes that back. */
  lemma WalkTellsAll(s: State)
    requires Reachable(s) && WalkFinished(s)
    ensures AllTold(s)
  {
    ReachableInv(s);
    if j: nat :| j < |s.jobs| && !s.jobs[j].Walk? { assert JobOk(s, j); }
    if v: nat :| v < |s.vcpus| && s.vcpus[v].pc.FailAdd? { assert WalkOk(s, v); }
  }

  /** A call moves on by its own steps alone, by one unit of work each, so its walk is over after one step for
      each vcpu and one more. */
  lemma CallMovesOn(s: State, a: Action, j: nat)
    requires Enabled(s, a) && j < |s.jobs|
    ensures j < |Apply(s, a).jobs| && |Apply(s, a).vcpus| == |s.vcpus|
    ensures JobWork(Apply(s, a).jobs[j], |s.vcpus|) ==
            JobWork(s.jobs[j], |s.vcpus|) - (if a == JobNext(j) || a == AddJob(j) then 1 else 0)
    ensures !s.jobs[j].Done? ==> Enabled(s, if s.jobs[j].Walk? then JobNext(j) else AddJob(j))
  {
  }

  /** A vcpu that has been told is not put into the guest, into the run queue or to sleep by any step, and in
      the guest has its interrupt. */
  lemma ToldLeaves(s: State, a: Action, v: nat)
    requires Reachable(s) && Enabled(s, a) && v < |s.vcpus| && s.vcpus[v].terminate
    ensures |Apply(s, a).vcpus| == |s.vcpus| && Apply(s, a).vcpus[v].terminate
    ensures var x, x' := s.vcpus[v], Apply(s, a).vcpus[v];
      && (x'.state.Running? ==> x.state.Running? && x.kick && x'.kick)
      && !x'.state.Ready? && !x'.state.Paused? && !x'.state.Spinning?
  {
    ReachableInv(s);
    assert WalkOk(s, v);
    FlagStep(s, a, v);
    ToldStep(s, a, v);
  }

  lemma ToldStep(s: State, a: Action, v: nat)
    requires Enabled(s, a) && v < |s.vcpus| && s.vcpus[v].terminate
    ensures |Apply(s, a).vcpus| == |s.vcpus| && Apply(s, a).vcpus[v].terminate
    ensures Apply(s, a).vcpus[v].state.Running? ==> s.vcpus[v].state.Running?
    ensures Apply(s, a).vcpus[v].state.Ready? ==> s.vcpus[v].state.Ready? || a == Wake(v)
  {
  }

  /** Steps of its own that a told vcpu still has to take, among n. */
  function VcpuWork(x: Vcpu, n: nat): nat {
    match x.pc
    case Normal => if x.state.Terminated? then 0 else if x.state.Running? then n + 5 else n + 4
    case Recovering => 2
    case AddOne => 1
    case Failing(next, _) => (if next < n then n - next else 0) + 2
    case FailAdd(_) => 1
    case Gone(_) => 0
  }

  function JobWork(j: Job, n: nat): nat {
    match j
    case Walk(next, _) => (if next < n then n - next else 0) + 2
    case Add(_) => 1
    case Done(_) => 0
  }

  function SumWork(vs: seq<Vcpu>, n: nat): nat {
    if vs == [] then 0 else VcpuWork(vs[0], n) + SumWork(vs[1..], n)
  }

  function SumJobWork(js: seq<Job>, n: nat): nat {
    if js == [] then 0 else JobWork(js[0], n) + SumJobWork(js[1..], n)
  }

  function Work(s: State): nat { SumWork(s.vcpus, |s.vcpus|) + SumJobWork(s.jobs, |s.vcpus|) }

  lemma {:induction false} WorkUpdate(vs: seq<Vcpu>, v: nat, x: Vcpu, n: nat)
    requires v < |vs|
    ensures SumWork(vs[v := x], n) + VcpuWork(vs[v], n) == SumWork(vs, n) + VcpuWork(x, n)
  {
    if v == 0 {
      assert vs[v := x][1..] == vs[1..];
    } else {
      assert vs[v := x][1..] == vs[1..][v - 1 := x];
      WorkUpdate(vs[1..], v - 1, x, n);
    }
  }

  lemma {:induction false} JobWorkUpdate(js: seq<Job>, j: nat, x: Job, n: nat)
    requires j < |js|
    ensures SumJobWork(js[j := x], n) + JobWork(js[j], n) == SumJobWork(js, n) + JobWork(x, n)
  {
    if j == 0 {
      assert js[j := x][1..] == js[1..];
    } else {
      assert js[j := x][1..] == js[1..][j - 1 := x];
      JobWorkUpdate(js[1..], j - 1, x, n);
    }
  }

  lemma {:induction false} JobWorkAppend(js: seq<Job>, x: Job, n: nat)
    ensures SumJobWork(js + [x], n) == SumJobWork(js, n) + JobWork(x, n)
  {
    if js == [] {
      assert (js + [x])[1..] == [];
    } else {
      assert (js + [x])[1..] == js[1..] + [x];
      JobWorkAppend(js[1..], x, n);
    }
  }

  lemma {:induction false} NoWorkLeft(vs: seq<Vcpu>, n: nat)
    requires SumWork(vs, n) == 0
    ensures forall v: nat | v < |vs| :: VcpuWork(vs[v], n) == 0
    ensures SumHeld(vs) == 0
  {
    if vs != [] {
      NoWorkLeft(vs[1..], n);
      forall v: nat | v < |vs| ensures VcpuWork(vs[v], n) == 0 { assert v > 0 ==> vs[v] == vs[1..][v - 1]; }
    }
  }

  lemma {:induction false} NoJobsLeft(js: seq<Job>, n: nat)
    requires SumJobWork(js, n) == 0
    ensures SumJobs(js) == 0
  {
    if js != [] { NoJobsLeft(js[1..], n); }
  }

  lemma {:induction false} AllCounted(vs: seq<Vcpu>)
    requires forall v: nat | v < |vs| :: vs[v].state.Terminated?
    ensures Count(vs) == |vs|
  {
    if vs != [] {
      assert vs[0].state.Terminated?;
      forall v: nat | v < |vs[1..]| ensures vs[1..][v].state.Terminated? { assert vs[1..][v] == vs[v + 1]; }
      AllCounted(vs[1..]);
    }
  }

  /** Once all have been told, whatever happens short of another call is work done. */
  lemma WorkStep(s: State, a: Action)
    requires Inv(s) && Enabled(s, a) && AllTold(s)
    ensures |Apply(s, a).vcpus| == |s.vcpus| && AllTold(Apply(s, a))
    ensures a.StartJob? ==> Work(Apply(s, a)) == Work(s) + |s.vcpus| + 2
    ensures !a.StartJob? ==> Work(Apply(s, a)) < Work(s)
  {
    ToldStays(s, a, |s.vcpus|);
    match a
    case StartJob => JobWorkAppend(s.jobs, Walk(0, 0), |s.vcpus|);
    case JobNext(j) => WorkOfWalk(s, j);
    case AddJob(j) => JobWorkUpdate(s.jobs, j, Apply(s, a).jobs[j], |s.vcpus|);
    case FailNext(v) => WorkOfFailing(s, v);
    case _ => WorkOfVcpu(s, a, a.v);
  }

  /** A visit finds a told vcpu current or terminated and leaves its work as it is. */
  lemma VisitTold(s: State, v: nat)
    requires Inv(s) && AllTold(s) && v < |s.vcpus|
    ensures VcpuWork(Visit(s.vcpus[v]), |s.vcpus|) == VcpuWork(s.vcpus[v], |s.vcpus|)
    ensures SumWork(s.vcpus[v := Visit(s.vcpus[v])], |s.vcpus|) == SumWork(s.vcpus, |s.vcpus|)
  {
    assert WalkOk(s, v);
    WorkUpdate(s.vcpus, v, Visit(s.vcpus[v]), |s.vcpus|);
  }

  lemma WorkOfWalk(s: State, j: nat)
    requires Inv(s) && Enabled(s, JobNext(j)) && AllTold(s)
    ensures Work(Apply(s, JobNext(j))) < Work(s)
  {
    JobWorkUpdate(s.jobs, j, Apply(s, JobNext(j)).jobs[j], |s.vcpus|);
    if s.jobs[j].next < |s.vcpus| { VisitTold(s, s.jobs[j].next); }
  }

  lemma WorkOfFailing(s: State, v: nat)
    requires Inv(s) && Enabled(s, FailNext(v)) && AllTold(s)
    ensures Work(Apply(s, FailNext(v))) < Work(s)
  {
    var n, next := |s.vcpus|, s.vcpus[v].pc.next;
    var x := Apply(s, FailNext(v)).vcpus[v];
    if next >= n || next == v {
      WorkUpdate(s.vcpus, v, x, n);
    } else {
      VisitTold(s, next);
      WorkUpdate(s.vcpus[next := Visit(s.vcpus[next])], v, x, n);
    }
  }

  lemma WorkOfVcpu(s: State, a: Action, v: nat)
    requires Inv(s) && Enabled(s, a) && AllTold(s)
    requires a in {Schedule(v), Enter(v), Exit(v), Notice(v), Put(v), Pause(v, true), Pause(v, false), Wake(v), Fail(v),
                   Recover(v), AddSelf(v), AddFailed(v)}
    ensures Work(Apply(s, a)) < Work(s)
  {
    assert WalkOk(s, v) && VcpuOk(s, v);
    WorkUpdate(s.vcpus, v, Apply(s, a).vcpus[v], |s.vcpus|);
    assert VcpuWork(Apply(s, a).vcpus[v], |s.vcpus|) < VcpuWork(s.vcpus[v], |s.vcpus|);
  }

  /** The steps of a run that do not start a call, and the work that those that do bring. */
  function Others(acts: seq<Action>): nat {
    if acts == [] then 0 else (if acts[0].StartJob? then 0 else 1) + Others(acts[1..])
  }

  function Brought(acts: seq<Action>, n: nat): nat {
    if acts == [] then 0 else (if acts[0].StartJob? then n + 2 else 0) + Brought(acts[1..], n)
  }

  /** Once all have been told, a run has only so many steps, apart from new calls and what they bring. */
  lemma {:induction false} WorkOfRun(s: State, acts: seq<Action>)
    requires Inv(s) && AllTold(s) && EnabledRun(s, acts)
    ensures |Run(s, acts).vcpus| == |s.vcpus| && Inv(Run(s, acts)) && AllTold(Run(s, acts))
    ensures Others(acts) + Work(Run(s, acts)) <= Work(s) + Brought(acts, |s.vcpus|)
    decreases |acts|
  {
    if acts != [] {
      WorkStep(s, acts[0]);
      StepInv(s, acts[0]);
      WorkOfRun(Apply(s, acts[0]), acts[1..]);
    }
  }

  /** What is true when nothing is left to be done: the partition is terminated, counted and finalised. */
  lemma NothingLeft(s: State)
    requires Inv(s) && Work(s) == 0 && |s.vcpus| > 0
    ensures s.finals == 1 && forall v: nat | v < |s.vcpus| :: s.vcpus[v].state.Terminated?
  {
    NoWorkLeft(s.vcpus, |s.vcpus|);
    NoJobsLeft(s.jobs, |s.vcpus|);
    forall v: nat | v < |s.vcpus| ensures s.vcpus[v].state.Terminated? { assert VcpuOk(s, v); }
    AllCounted(s.vcpus);
  }

  /** A teardown completes: after one walk is over, every run long enough, beyond the new calls and their work,
      ends with all vcpus terminated and the partition finalised by one of those that terminated a vcpu. */
  lemma TeardownCompletes(s: State, acts: seq<Action>)
    requires Reachable(s) && WalkFinished(s) && |s.vcpus| > 0 && EnabledRun(s, acts)
    requires Others(acts) >= Work(s) + Brought(acts, |s.vcpus|)
    ensures var s' := Run(s, acts);
      |s'.vcpus| == |s.vcpus| && s'.finals == 1 && forall v: nat | v < |s.vcpus| :: s'.vcpus[v].state.Terminated?
  {
    ReachableInv(s);
    WalkTellsAll(s);
    WorkOfRun(s, acts);
    NothingLeft(Run(s, acts));
  }

  /** And it cannot get stuck before: while anything is left to be done, a step other than a new call is
      enabled, and no vcpu has to fail for it. */
  lemma TeardownNeverStuck(s: State)
    requires Reachable(s) && WalkFinished(s) && Work(s) > 0
    ensures exists a :: Enabled(s, a) && !a.StartJob? && !a.Fail?
  {
    ReachableInv(s);
    WalkTellsAll(s);
    if SumWork(s.vcpus, |s.vcpus|) > 0 {
      var v := SomeWork(s.vcpus, |s.vcpus|);
      assert WalkOk(s, v);
      var a := match s.vcpus[v].pc
        case Normal => if s.vcpus[v].state.Running? then Exit(v) else Enter(v)
        case Recovering => Recover(v)
        case AddOne => AddSelf(v)
        case Failing(_, _) => FailNext(v)
        case _ => AddFailed(v);
      assert Enabled(s, a) && !a.StartJob? && !a.Fail?;
    } else {
      var j := SomeJob(s.jobs, |s.vcpus|);
      var a := if s.jobs[j].Walk? then JobNext(j) else AddJob(j);
      assert Enabled(s, a) && !a.StartJob? && !a.Fail?;
    }
  }

  lemma {:induction false} SomeWork(vs: seq<Vcpu>, n: nat) returns (v: nat)
    requires SumWork(vs, n) > 0
    ensures v < |vs| && VcpuWork(vs[v], n) > 0
  {
    if VcpuWork(vs[0], n) > 0 {
      v := 0;
    } else {
      v := SomeWork(vs[1..], n);
      v := v + 1;
    }
  }

  lemma {:induction false} SomeJob(js: seq<Job>, n: nat) returns (j: nat)
    requires SumJobWork(js, n) > 0
    ensures j < |js| && JobWork(js[j], n) > 0
  {
    if JobWork(js[0], n) > 0 {
      j := 0;
    } else {
      j := SomeJob(js[1..], n);
      j := j + 1;
    }
  }

  lemma RunCons(s: State, a: Action, acts: seq<Action>)
    requires Enabled(s, a) && EnabledRun(Apply(s, a), acts)
    ensures EnabledRun(s, [a] + acts) && Run(s, [a] + acts) == Run(Apply(s, a), acts)
  {
    assert ([a] + acts)[1..] == acts;
  }

  /** A vcpu that has not been told goes round: from the run queue into the guest and back, also through a
      sleep, the state is the very same again. */
  lemma UntoldComesRound(s: State, v: nat, spin: bool)
    requires v < |s.vcpus| && s.vcpus[v] == Vcpu(Ready, false, false, Normal)
    ensures Enabled(s, Schedule(v)) && var s1 := Apply(s, Schedule(v));
      Enabled(s1, Enter(v)) && Apply(s1, Enter(v)) == SetVcpu(s, v, Vcpu(Running, false, false, Normal))
    ensures var guest := SetVcpu(s, v, Vcpu(Running, false, false, Normal));
      && EnabledRun(guest, [Exit(v)] + [Put(v)]) && Run(guest, [Exit(v)] + [Put(v)]) == s
      && EnabledRun(guest, [Exit(v)] + ([Pause(v, spin)] + [Wake(v)])) && Run(guest, [Exit(v)] + ([Pause(v, spin)] + [Wake(v)])) == s
  {
    var guest := SetVcpu(s, v, Vcpu(Running, false, false, Normal));
    var out := Apply(guest, Exit(v));
    assert Apply(s, Schedule(v)) == out;
    var asleep := Apply(out, Pause(v, spin));
    assert Apply(out, Put(v)) == s && Apply(asleep, Wake(v)) == s;
    assert EnabledRun(s, []) && Run(s, []) == s;
    LastStep(out, Put(v));
    LastStep(asleep, Wake(v));
    RunCons(guest, Exit(v), [Put(v)]);
    RunCons(out, Pause(v, spin), [Wake(v)]);
    RunCons(guest, Exit(v), [Pause(v, spin)] + [Wake(v)]);
  }

  lemma LastStep(s: State, a: Action)
    requires Enabled(s, a)
    ensures EnabledRun(s, [a]) && Run(s, [a]) == Apply(s, a)
  {
    assert [a][1..] == [];
  }
}

/** Twanvisor's virtual interrupt delivery: `__vemu_inject_external_interrupt` and
    `vemu_set_interrupt_pending` against the injection decision of `__venter`, `veoi` and the window
    exits.

    A step machine of one physical processor with any number of vcpus pinned to it; injectors on all
    other processors appear as steps that may happen at any time.  A section under the scheduler and
    pending locks is one step.  Processors share nothing of this, so one stands for all. */
module InterruptDelivery {

  const NMI := 2
  const NUM_INTLS := 16

  // ---------------------------------------------------------------------------
  // Delivery data of one vcpu
  // ---------------------------------------------------------------------------

  /** visr_pending of a vcpu with its bitmaps as sets, beside the two window-exiting bits of its
      processor-based VM-execution controls. */
  datatype Delivery = Delivery(pending: set<nat>, nmiPending: bool, inService: set<nat>, intl: nat,
                               nmiWindow: bool, intWindow: bool, ctlNmiWindow: bool, ctlIntWindow: bool)

  predicate ValidDelivery(d: Delivery) {
    && (forall x :: x in d.pending ==> x < 256)
    && (forall x :: x in d.inService ==> x < NUM_INTLS)
    && d.intl < NUM_INTLS
  }

  /** bmp256_fls and fls32: the greatest member, -1 for the empty set. */
  function Highest(s: set<nat>): (r: int)
    ensures s == {} ==> r == -1
    ensures s != {} ==> r in s
    ensures forall x :: x in s ==> x <= r
    decreases |s|
  {
    if s == {} then -1
    else
      HasMax(s);
      var m :| m in s && forall x :: x in s ==> x <= m;
      m
  }

  lemma {:induction false} HasMax(s: set<nat>)
    requires s != {}
    ensures exists m :: m in s && forall x :: x in s ==> x <= m
    decreases |s|
  {
    var e :| e in s;
    var t := s - {e};
    if t == {} {
      forall x | x in s ensures x <= e { assert x == e || x in t; }
    } else {
      HasMax(t);
      var m :| m in t && forall x :: x in t ==> x <= m;
      var r := if m < e then e else m;
      assert r in s && forall x :: x in s ==> x <= r by {
        forall x | x in s ensures x <= r { assert x == e || x in t; }
      }
    }
  }

  function Intl(vector: nat): nat { vector / NUM_INTLS }

  /** The vector outranks what is in service and is not masked by the current level. */
  predicate Eligible(d: Delivery, vector: nat) {
    Intl(vector) > Highest(d.inService) && Intl(vector) >= d.intl
  }

  ghost predicate Deliverable(d: Delivery) { exists x :: x in d.pending && Eligible(d, x) }

  /** Testing only the highest pending vector is complete. */
  lemma HighestDecides(d: Delivery)
    ensures Deliverable(d) <==> d.pending != {} && Eligible(d, Highest(d.pending))
  {
    if Deliverable(d) {
      var x :| x in d.pending && Eligible(d, x);
      IntlMonotone(x, Highest(d.pending));
    }
  }

  lemma IntlMonotone(x: nat, y: nat)
    requires x <= y
    ensures Intl(x) <= Intl(y)
  {
  }

  // ---------------------------------------------------------------------------
  // The decision at VM entry
  // ---------------------------------------------------------------------------

  /** What the entry reads of the guest: an event to re-inject, and its blocking state. */
  datatype Guest = GuestState(idtVectoring: bool, nmisBlocked: bool, inNmi: bool, interruptsBlocked: bool)

  datatype Event = Vectored | Nmi | External(vector: nat)

  datatype Choice = None | InjectedException | InjectedNmi | NmiWindow | IntWindow

  /** The outcome of an entry: the new delivery data and the events written for injection, in order. */
  datatype Outcome = Outcome(d: Delivery, events: seq<Event>)

  /** venter.c, from the idt-vectoring test to the update of the window controls. */
  function Decide(d: Delivery, g: Guest): Outcome {
    var pendingVector := Highest(d.pending);
    var events0 := if g.idtVectoring then [Vectored] else [];
    var choice0 := if g.idtVectoring then InjectedException else None;
    // nmi
    var nmiBlocked := g.nmisBlocked || choice0 == InjectedException;
    var injectNmi := d.nmiPending && !nmiBlocked;
    var choice1 := if !d.nmiPending then choice0 else if nmiBlocked then NmiWindow else InjectedNmi;
    var events1 := if injectNmi then events0 + [Nmi] else events0;
    var d1 := if injectNmi then d.(nmiPending := false) else d;
    // external interrupt
    var wants := pendingVector >= 0 && Eligible(d, pendingVector);
    var choice2 :=
      if !wants then choice1
      else if g.inNmi || choice1 == InjectedNmi || choice1 == NmiWindow then NmiWindow
      else if g.interruptsBlocked || choice1 == InjectedException then IntWindow
      else choice1;
    var injectExternal := wants && choice2 == None;
    var events2 := if injectExternal then events1 + [External(pendingVector)] else events1;
    var d2 := if injectExternal
      then d1.(pending := d1.pending - {pendingVector}, inService := d1.inService + {Intl(pendingVector)})
      else d1;
    // window controls, written only when they change
    var newNmi, newInt := choice2 == NmiWindow, choice2 == IntWindow;
    var d3 := if newNmi != d.nmiWindow || newInt != d.intWindow
      then d2.(nmiWindow := newNmi, intWindow := newInt, ctlNmiWindow := newNmi, ctlIntWindow := newInt)
      else d2;
    Outcome(d3, events2)
  }

  predicate ControlsAgree(d: Delivery) { d.ctlNmiWindow == d.nmiWindow && d.ctlIntWindow == d.intWindow }

  lemma InServiceHighest(s: set<nat>, x: nat)
    ensures Highest(s + {x}) >= x && Highest(s + {x}) >= Highest(s)
  {
    assert x in s + {x};
    if s != {} { assert Highest(s) in s + {x}; }
  }

  /** What every entry achieves, whatever the guest's blocking state: at most one event is injected;
      what stays pending and could be delivered has a window exit armed that the hardware controls
      reflect; a vector leaves the pending set only by being injected, and then it was the highest
      and is marked in service; an NMI leaves only by being injected. */
  lemma EntryDecision(d: Delivery, g: Guest)
    requires ValidDelivery(d) && ControlsAgree(d)
    ensures var o := Decide(d, g);
      && ValidDelivery(o.d) && ControlsAgree(o.d)
      && |o.events| <= 1
      && (g.idtVectoring ==> o.events == [Vectored])
      && (o.d.nmiPending ==> o.d.ctlNmiWindow)
      && (Deliverable(o.d) ==> o.d.ctlNmiWindow || o.d.ctlIntWindow)
      && (d.nmiPending <==> o.d.nmiPending || o.events == [Nmi])
      && o.d.intl == d.intl
      && (if |o.events| == 1 && o.events[0].External?
          then var x := o.events[0].vector;
               && x in d.pending && Eligible(d, x) && (forall y :: y in d.pending ==> y <= x)
               && o.d.pending == d.pending - {x} && o.d.inService == d.inService + {Intl(x)}
               && !d.nmiPending && !g.interruptsBlocked && !g.inNmi
          else o.d.pending == d.pending && o.d.inService == d.inService)
  {
    var o := Decide(d, g);
    HighestDecides(d);
    HighestDecides(o.d);
    if |o.events| == 1 && o.events[0].External? {
      var x := o.events[0].vector;
      InServiceHighest(d.inService, Intl(x));
      if o.d.pending != {} {
        IntlMonotone(Highest(o.d.pending), x);
      }
    }
  }

  /** An entry that neither injects nor arms a window has nothing to deliver; nothing is left waiting
      while an injection would have been possible. */
  lemma EntryEager(d: Delivery, g: Guest)
    requires ValidDelivery(d) && ControlsAgree(d)
    ensures var o := Decide(d, g);
      && (d.nmiPending && !g.nmisBlocked && !g.idtVectoring ==> o.events == [Nmi])
      && (Deliverable(d) && !d.nmiPending && !g.inNmi && !g.interruptsBlocked && !g.idtVectoring ==>
            o.events == [External(Highest(d.pending))])
      && (o.events == [] && !o.d.ctlNmiWindow && !o.d.ctlIntWindow ==> !d.nmiPending && !Deliverable(d))
  {
    HighestDecides(d);
  }

  /** Which window exit an entry leaves armed: the NMI window for an NMI that is blocked, and for an external
      interrupt that an NMI, delivered, injected or waiting, keeps back; the interrupt window for one that only
      the guest's blocking of interrupts or a re-injected event keeps back; none when nothing waits. */
  lemma WindowsArmed(d: Delivery, g: Guest)
    requires ControlsAgree(d)
    ensures var w := Decide(d, g).d;
      && (w.ctlNmiWindow <==> (d.nmiPending && (g.nmisBlocked || g.idtVectoring)) ||
                              (Deliverable(d) && (d.nmiPending || g.inNmi)))
      && (w.ctlIntWindow <==> Deliverable(d) && !d.nmiPending && !g.inNmi && (g.interruptsBlocked || g.idtVectoring))
      && w.nmiWindow == w.ctlNmiWindow && w.intWindow == w.ctlIntWindow
      && (!Deliverable(d) && !d.nmiPending ==> !w.ctlNmiWindow && !w.ctlIntWindow)
  {
    HighestDecides(d);
  }

  // ---------------------------------------------------------------------------
  // The processor and its vcpus
  // ---------------------------------------------------------------------------

  /** Interrupts are off from `Entering` to `InGuest`. */
  datatype Cpu =
    | Idle
    | Root(v: nat)        // hypervisor code on behalf of v
    | Entering(v: nat)    // state is running, the pending lock not yet taken
    | InGuest(v: nat)
    | Exited(v: nat)      // VM exit taken, state not yet changed

  datatype Vcpu = Vcpu(running: bool, d: Delivery)

  /** `ipi` is the processor's pending interrupt from vipi_async; `log` records every injected event. */
  datatype State = State(cpu: Cpu, vcpus: seq<Vcpu>, ipi: bool, log: seq<(nat, Event)>)

  datatype Action =
    | Schedule(v: nat)
    | Deschedule
    | EnterRunning
    | Inject(g: Guest)
    | Exit(byIpi: bool)
    | Transition
    | TakeIpi
    | SetPending(v: nat, vector: nat, nmi: bool)      // vemu_set_interrupt_pending of a vcpu not running
    | SendInterrupt(v: nat, vector: nat, nmi: bool)   // __vemu_inject_external_interrupt, from anywhere
    | Eoi
    | WriteIntl(intl: nat)

  predicate Shape(s: State) { !s.cpu.Idle? ==> s.cpu.v < |s.vcpus| }

  predicate Enabled(s: State, a: Action)
    requires Shape(s)
  {
    match a
    case Schedule(v) => s.cpu.Idle? && v < |s.vcpus|
    case Deschedule => s.cpu.Root?
    case EnterRunning => s.cpu.Root?
    case Inject(_) => s.cpu.Entering?
    case Exit(byIpi) => s.cpu.InGuest? && (byIpi ==> s.ipi)
    case Transition => s.cpu.Exited?
    case TakeIpi => (s.cpu.Idle? || s.cpu.Root?) && s.ipi
    case SetPending(v, vector, nmi) => v < |s.vcpus| && !s.vcpus[v].running && vector < 256 && (nmi ==> vector == NMI)
    case SendInterrupt(v, vector, nmi) => v < |s.vcpus| && vector < 256 && (nmi ==> vector == NMI)
    case Eoi => s.cpu.Root?
    case WriteIntl(intl) => s.cpu.Root? && intl < NUM_INTLS
  }

  /** __vemu_set_interrupt_pending */
  function Pend(d: Delivery, vector: nat, nmi: bool): Delivery {
    if nmi then d.(nmiPending := true) else d.(pending := d.pending + {vector})
  }

  /** veoi: the highest level in service ends. */
  function EndOfInterrupt(d: Delivery): Delivery {
    if d.inService == {} then d else d.(inService := d.inService - {Highest(d.inService)})
  }

  /** The test of __vemu_inject_external_interrupt on the data read before the bit is set. */
  predicate NeedsIpi(d: Delivery, vector: nat, nmi: bool) {
    if nmi then !d.nmiPending && !d.nmiWindow else !d.intWindow && Eligible(d, vector)
  }

  function SetData(s: State, v: nat, d: Delivery): State
    requires v < |s.vcpus|
  {
    s.(vcpus := s.vcpus[v := s.vcpus[v].(d := d)])
  }

  function Apply(s: State, a: Action): State
    requires Shape(s) && Enabled(s, a)
  {
    match a
    case Schedule(v) => s.(cpu := Root(v))
    case Deschedule => s.(cpu := Idle)
    case EnterRunning =>
      s.(cpu := Entering(s.cpu.v), vcpus := s.vcpus[s.cpu.v := s.vcpus[s.cpu.v].(running := true)])
    case Inject(g) =>
      var o := Decide(s.vcpus[s.cpu.v].d, g);
      SetData(s, s.cpu.v, o.d)
      .(cpu := InGuest(s.cpu.v), log := s.log + seq(|o.events|, i requires 0 <= i < |o.events| => (s.cpu.v, o.events[i])))
    case Exit(byIpi) => s.(cpu := Exited(s.cpu.v), ipi := s.ipi && !byIpi)
    case Transition =>
      s.(cpu := Root(s.cpu.v), vcpus := s.vcpus[s.cpu.v := s.vcpus[s.cpu.v].(running := false)])
    case TakeIpi => s.(ipi := false)
    case SetPending(v, vector, nmi) => SetData(s, v, Pend(s.vcpus[v].d, vector, nmi))
    case SendInterrupt(v, vector, nmi) =>
      var d := s.vcpus[v].d;
      SetData(s, v, Pend(d, vector, nmi))
      .(ipi := s.ipi || (s.vcpus[v].running && NeedsIpi(d, vector, nmi)))
    case Eoi => SetData(s, s.cpu.v, EndOfInterrupt(s.vcpus[s.cpu.v].d))
    case WriteIntl(intl) => SetData(s, s.cpu.v, s.vcpus[s.cpu.v].d.(intl := intl))
  }

  predicate Initial(s: State) {
    && Shape(s) && !s.ipi && (s.cpu.Idle? || s.cpu.InGuest?)
    && (forall v :: 0 <= v < |s.vcpus| ==> VcpuInitial(s.vcpus[v]))
    && (forall v :: 0 <= v < |s.vcpus| ==> (s.vcpus[v].running <==> s.cpu == InGuest(v)))
  }

  predicate VcpuInitial(x: Vcpu) {
    && ValidDelivery(x.d) && x.d.pending == {} && !x.d.nmiPending
    && !x.d.nmiWindow && !x.d.intWindow && !x.d.ctlNmiWindow && !x.d.ctlIntWindow
  }

  /** Whatever is deliverable while v is in the guest will make it leave the guest. */
  ghost predicate Covered(d: Delivery, ipi: bool) {
    && (d.nmiPending ==> ipi || d.ctlNmiWindow)
    && (Deliverable(d) ==> ipi || d.ctlNmiWindow || d.ctlIntWindow)
  }

  ghost predicate VcpuOk(s: State, v: nat)
    requires v < |s.vcpus|
  {
    var x := s.vcpus[v];
    && ValidDelivery(x.d) && ControlsAgree(x.d)
    && (x.running <==> s.cpu == Entering(v) || s.cpu == InGuest(v) || s.cpu == Exited(v))
    && (s.cpu == InGuest(v) ==> Covered(x.d, s.ipi))
  }

  ghost predicate Inv(s: State) {
    Shape(s) && forall v: nat :: v < |s.vcpus| ==> VcpuOk(s, v)
  }

  lemma InitialInv(s: State)
    requires Initial(s)
    ensures Inv(s)
  {
    forall v: nat | v < |s.vcpus| ensures VcpuOk(s, v) { assert VcpuInitial(s.vcpus[v]); }
  }

  /** The injector's test is exact enough: after it, everything deliverable is covered. */
  lemma SendCovers(d: Delivery, ipi: bool, vector: nat, nmi: bool)
    requires ValidDelivery(d) && ControlsAgree(d) && Covered(d, ipi) && vector < 256
    ensures Covered(Pend(d, vector, nmi), ipi || NeedsIpi(d, vector, nmi))
  {
    var d' := Pend(d, vector, nmi);
    if Deliverable(d') {
      var x :| x in d'.pending && Eligible(d', x);
      assert Eligible(d, x);
      assert x in d.pending || x == vector;
    }
  }

  /** The steps that change the delivery data and not where the processor is. */
  predicate DataStep(a: Action) { a.SetPending? || a.SendInterrupt? || a.Eoi? || a.WriteIntl? }

  lemma StepVcpu(s: State, a: Action, v: nat)
    requires Inv(s) && Enabled(s, a) && v < |s.vcpus|
    ensures |Apply(s, a).vcpus| == |s.vcpus| && VcpuOk(Apply(s, a), v)
  {
    assert VcpuOk(s, v);
    if DataStep(a) {
      VcpuData(s, a, v);
    } else if a.Inject? {
      assert VcpuOk(s, s.cpu.v);
      VcpuInject(s, a.g, v);
    } else {
      if a.Schedule? { assert VcpuOk(s, a.v); }
      VcpuMoves(s, a, v);
    }
  }

  lemma VcpuData(s: State, a: Action, v: nat)
    requires Shape(s) && Enabled(s, a) && v < |s.vcpus| && VcpuOk(s, v) && DataStep(a)
    ensures |Apply(s, a).vcpus| == |s.vcpus| && VcpuOk(Apply(s, a), v)
  {
    if a.SendInterrupt? && a.v == v && s.cpu == InGuest(v) {
      SendCovers(s.vcpus[v].d, s.ipi, a.vector, a.nmi);
    }
  }

  lemma VcpuInject(s: State, g: Guest, v: nat)
    requires Shape(s) && Enabled(s, Inject(g)) && v < |s.vcpus| && VcpuOk(s, v) && VcpuOk(s, s.cpu.v)
    ensures |Apply(s, Inject(g)).vcpus| == |s.vcpus| && VcpuOk(Apply(s, Inject(g)), v)
  {
    EntryDecision(s.vcpus[s.cpu.v].d, g);
  }

  lemma VcpuMoves(s: State, a: Action, v: nat)
    requires Shape(s) && Enabled(s, a) && v < |s.vcpus| && VcpuOk(s, v) && !DataStep(a) && !a.Inject?
    requires a.Schedule? ==> VcpuOk(s, a.v)
    ensures |Apply(s, a).vcpus| == |s.vcpus| && VcpuOk(Apply(s, a), v)
  {
  }

  lemma StepInv(s: State, a: Action)
    requires Inv(s) && Enabled(s, a)
    ensures Inv(Apply(s, a))
  {
    var s' := Apply(s, a);
    forall v: nat | v < |s'.vcpus| ensures VcpuOk(s', v) { StepVcpu(s, a, v); }
  }

  // ---------------------------------------------------------------------------
  // Main results, over every run
  // ---------------------------------------------------------------------------

  ghost predicate EnabledRun(s: State, acts: seq<Action>)
    requires Inv(s)
    decreases |acts|
  {
    acts == [] || (Enabled(s, acts[0]) && (StepInv(s, acts[0]); EnabledRun(Apply(s, acts[0]), acts[1..])))
  }

  ghost function Run(s: State, acts: seq<Action>): (s': State)
    requires Inv(s) && EnabledRun(s, acts)
    ensures Inv(s')
    decreases |acts|
  {
    if acts == [] then s else (StepInv(s, acts[0]); Run(Apply(s, acts[0]), acts[1..]))
  }

  ghost predicate Reachable(s: State) {
    exists s0: State, acts: seq<Action> :: Initial(s0) && Inv(s0) && EnabledRun(s0, acts) && s == Run(s0, acts)
  }

  /** No lost interrupt: in every reachable state a vcpu in guest mode with a pending NMI, or with any
      pending vector that beats its in-service and current levels, has an interrupt in flight or a
      window exit armed in the hardware controls. */
  lemma NoLostInterrupt(s: State, v: nat)
    requires Reachable(s) && v < |s.vcpus| && s.cpu == InGuest(v)
    ensures s.vcpus[v].d.nmiPending ==> s.ipi || s.vcpus[v].d.ctlNmiWindow
    ensures (exists x :: x in s.vcpus[v].d.pending && Eligible(s.vcpus[v].d, x)) ==>
              s.ipi || s.vcpus[v].d.ctlNmiWindow || s.vcpus[v].d.ctlIntWindow
  {
    assert VcpuOk(s, v);
  }

  function CountEvent(log: seq<(nat, Event)>, v: nat, e: Event): nat {
    if log == [] then 0 else CountEvent(log[..|log| - 1], v, e) + (if log[|log| - 1] == (v, e) then 1 else 0)
  }

  /** Exactly-once bookkeeping: a step takes a vector out of a vcpu's pending set if and only if it
      injects that vector into that vcpu, and injects it once. */
  lemma PendingLeavesByInjection(s: State, a: Action, v: nat, x: nat)
    requires Inv(s) && Enabled(s, a) && v < |s.vcpus|
    ensures |Apply(s, a).vcpus| == |s.vcpus|
    ensures var before, after := s.vcpus[v].d.pending, Apply(s, a).vcpus[v].d.pending;
      CountEvent(Apply(s, a).log, v, External(x)) ==
      CountEvent(s.log, v, External(x)) + (if x in before && x !in after then 1 else 0)
  {
    if a.Inject? {
      EntryLogged(s, a.g, v, External(x));
    } else {
      LogUnchanged(s, a);
    }
  }

  /** The same for NMIs: a pending one goes away if and only if one is injected. */
  lemma NmiLeavesByInjection(s: State, a: Action, v: nat)
    requires Inv(s) && Enabled(s, a) && v < |s.vcpus|
    ensures |Apply(s, a).vcpus| == |s.vcpus|
    ensures var before, after := s.vcpus[v].d.nmiPending, Apply(s, a).vcpus[v].d.nmiPending;
      CountEvent(Apply(s, a).log, v, Nmi) == CountEvent(s.log, v, Nmi) + (if before && !after then 1 else 0)
  {
    if a.Inject? {
      EntryLogged(s, a.g, v, Nmi);
    } else {
      LogUnchanged(s, a);
    }
  }

  lemma EntryLogged(s: State, g: Guest, v: nat, e: Event)
    requires Inv(s) && Enabled(s, Inject(g)) && v < |s.vcpus|
    ensures var s' := Apply(s, Inject(g)); var o := Decide(s.vcpus[s.cpu.v].d, g);
      && |o.events| <= 1 && |s'.vcpus| == |s.vcpus|
      && s'.vcpus[v].d == (if v == s.cpu.v then o.d else s.vcpus[v].d)
      && (if |o.events| == 1 && o.events[0].External?
          then var x := o.events[0].vector;
               x in s.vcpus[s.cpu.v].d.pending && o.d.pending == s.vcpus[s.cpu.v].d.pending - {x}
          else o.d.pending == s.vcpus[s.cpu.v].d.pending)
      && (s.vcpus[s.cpu.v].d.nmiPending <==> o.d.nmiPending || o.events == [Nmi])
      && (o.d.nmiPending ==> o.events != [Nmi])
      && CountEvent(s'.log, v, e) == CountEvent(s.log, v, e) + (if v == s.cpu.v && o.events == [e] then 1 else 0)
  {
    assert VcpuOk(s, s.cpu.v);
    EntryDecision(s.vcpus[s.cpu.v].d, g);
    LogOfEntry(s, g);
    var o := Decide(s.vcpus[s.cpu.v].d, g);
    if |o.events| == 1 { CountAppend(s.log, s.cpu.v, o.events[0], v, e); }
  }

  // ---------------------------------------------------------------------------
  // What is sent
  // ---------------------------------------------------------------------------

  /** The interrupt e is waiting for injection. */
  predicate Waits(d: Delivery, e: Event) {
    match e
    case External(x) => x in d.pending
    case Nmi => d.nmiPending
    case Vectored => false
  }

  /** The step makes interrupt e of vcpu v pending. */
  predicate Sends(a: Action, v: nat, e: Event) {
    (a.SendInterrupt? || a.SetPending?) && a.v == v && e == (if a.nmi then Nmi else External(a.vector))
  }

  /** What a sender changes: the interrupt it sends is pending, and all the rest of the delivery data, of the
      other vcpus and of what has been injected is as before. */
  lemma SentIsPending(s: State, a: Action, v: nat, e: Event)
    requires Shape(s) && Enabled(s, a) && (a.SendInterrupt? || a.SetPending?) && v < |s.vcpus| && !e.Vectored?
    ensures var s' := Apply(s, a);
      && |s'.vcpus| == |s.vcpus| && s'.log == s.log && s'.cpu == s.cpu
      && (Waits(s'.vcpus[v].d, e) <==> Waits(s.vcpus[v].d, e) || Sends(a, v, e))
      && s'.vcpus[v].running == s.vcpus[v].running
      && s'.vcpus[v].d.(pending := {}, nmiPending := false) == s.vcpus[v].d.(pending := {}, nmiPending := false)
  {
  }

  /** How many times a run sends e to v. */
  function SentIn(acts: seq<Action>, v: nat, e: Event): nat {
    if acts == [] then 0 else (if Sends(acts[0], v, e) then 1 else 0) + SentIn(acts[1..], v, e)
  }

  /** Injected so far, and one more if another is waiting. */
  function Taken(s: State, v: nat, e: Event): nat
    requires v < |s.vcpus|
  {
    CountEvent(s.log, v, e) + if Waits(s.vcpus[v].d, e) then 1 else 0
  }

  lemma TakenStep(s: State, a: Action, v: nat, e: Event)
    requires Inv(s) && Enabled(s, a) && v < |s.vcpus| && !e.Vectored?
    ensures var s' := Apply(s, a);
      && |s'.vcpus| == |s.vcpus| && CountEvent(s.log, v, e) <= CountEvent(s'.log, v, e)
      && Taken(s', v, e) == Taken(s, v, e) + (if Sends(a, v, e) && !Waits(s.vcpus[v].d, e) then 1 else 0)
      && (Sends(a, v, e) ==> Waits(s'.vcpus[v].d, e))
  {
    if e.Nmi? { NmiLeavesByInjection(s, a, v); } else { PendingLeavesByInjection(s, a, v, e.vector); }
    if a.SendInterrupt? || a.SetPending? {
      SentIsPending(s, a, v, e);
    } else {
      WaitsOnlyBySender(s, a, v, e);
    }
  }

  lemma WaitsOnlyBySender(s: State, a: Action, v: nat, e: Event)
    requires Inv(s) && Enabled(s, a) && v < |s.vcpus| && !a.SendInterrupt? && !a.SetPending?
    ensures |Apply(s, a).vcpus| == |s.vcpus| && (Waits(Apply(s, a).vcpus[v].d, e) ==> Waits(s.vcpus[v].d, e))
  {
    if a.Inject? { EntryLogged(s, a.g, v, e); }
  }

  /** The law of sending, over every run: what was waiting or has been sent since has been injected or still
      waits, and nothing is injected more often than it was sent. */
  lemma {:induction false} SentIsInjected(s: State, acts: seq<Action>, v: nat, e: Event)
    requires Inv(s) && EnabledRun(s, acts) && v < |s.vcpus| && !e.Vectored?
    ensures |Run(s, acts).vcpus| == |s.vcpus|
    ensures CountEvent(s.log, v, e) <= CountEvent(Run(s, acts).log, v, e)
    ensures Taken(s, v, e) <= Taken(Run(s, acts), v, e) <= Taken(s, v, e) + SentIn(acts, v, e)
    ensures Waits(s.vcpus[v].d, e) || SentIn(acts, v, e) > 0 ==>
      Waits(Run(s, acts).vcpus[v].d, e) || CountEvent(Run(s, acts).log, v, e) > CountEvent(s.log, v, e)
    decreases |acts|
  {
    if acts != [] {
      StepInv(s, acts[0]);
      TakenStep(s, acts[0], v, e);
      SentIsInjected(Apply(s, acts[0]), acts[1..], v, e);
    }
  }

  /** The other steps of the machine: a level written is the current one, and nothing but senders, entries,
      ends of interrupt and writes of the level changes the delivery data. */
  lemma DeliveryKept(s: State, a: Action, v: nat)
    requires Shape(s) && Enabled(s, a) && v < |s.vcpus| && !a.SendInterrupt? && !a.SetPending?
    ensures var s' := Apply(s, a);
      && |s'.vcpus| == |s.vcpus|
      && (s'.vcpus[v].d != s.vcpus[v].d ==> (a.Inject? || a.Eoi? || a.WriteIntl?) && s.cpu.v == v)
      && (a.WriteIntl? && s.cpu == Root(v) ==> s'.vcpus[v].d == s.vcpus[v].d.(intl := a.intl))
  {
  }

  lemma CountAppend(log: seq<(nat, Event)>, u: nat, f: Event, v: nat, e: Event)
    ensures CountEvent(log + [(u, f)], v, e) == CountEvent(log, v, e) + (if u == v && f == e then 1 else 0)
  {
    assert (log + [(u, f)])[..|log|] == log;
  }

  lemma LogOfEntry(s: State, g: Guest)
    requires Shape(s) && Enabled(s, Inject(g)) && |Decide(s.vcpus[s.cpu.v].d, g).events| <= 1
    ensures var o := Decide(s.vcpus[s.cpu.v].d, g);
      Apply(s, Inject(g)).log == if o.events == [] then s.log else s.log + [(s.cpu.v, o.events[0])]
  {
  }

  lemma LogUnchanged(s: State, a: Action)
    requires Shape(s) && Enabled(s, a) && !a.Inject?
    ensures Apply(s, a).log == s.log && |Apply(s, a).vcpus| == |s.vcpus|
    ensures forall v :: 0 <= v < |s.vcpus| ==> s.vcpus[v].d.pending <= Apply(s, a).vcpus[v].d.pending
  {
  }

  // ---------------------------------------------------------------------------
  // Injection that a VM exit cuts short
  // ---------------------------------------------------------------------------

  /** When a VM exit interrupts the delivery of an injected vector, vqueue_idt_vectoring_info sets it pending
      again, with its level still in service.  It is not deliverable then, and is again after exactly the
      end of interrupt of its own level, which brings back the levels in service before the injection. */
  lemma RependedWaitsForEoi(d: Delivery, g: Guest, x: nat)
    requires ValidDelivery(d) && ControlsAgree(d) && Decide(d, g).events == [External(x)]
    ensures var r := Pend(Decide(d, g).d, x, false);
      && x in r.pending && !Eligible(r, x)
      && EndOfInterrupt(r).inService == d.inService && Eligible(EndOfInterrupt(r), x)
  {
    EntryDecision(d, g);
    var r := Pend(Decide(d, g).d, x, false);
    assert r.inService == d.inService + {Intl(x)};
    TopOfInService(d.inService, Intl(x));
  }

  lemma TopOfInService(s: set<nat>, top: nat)
    requires top > Highest(s)
    ensures Highest(s + {top}) == top && s + {top} - {top} == s
  {
    assert top in s + {top};
    forall x | x in s + {top} ensures x <= top { }
  }

  /** The step is v's own end of interrupt and ends level l. */
  predicate Ends(s: State, a: Action, v: nat, l: nat)
    requires v < |s.vcpus|
  {
    a.Eoi? && s.cpu == Root(v) && Highest(s.vcpus[v].d.inService) == l
  }

  /** A level leaves service in no other step. */
  lemma LevelLeavesByItsEnd(s: State, a: Action, v: nat, l: nat)
    requires Inv(s) && Enabled(s, a) && v < |s.vcpus| && l in s.vcpus[v].d.inService
    ensures |Apply(s, a).vcpus| == |s.vcpus|
    ensures l !in Apply(s, a).vcpus[v].d.inService <==> Ends(s, a, v, l)
  {
    if a.Inject? {
      assert VcpuOk(s, s.cpu.v);
      EntryDecision(s.vcpus[s.cpu.v].d, a.g);
    }
  }

  /** What the end of its level does for a pending vector: all that is left to hold it back is the vcpu's
      current level. */
  lemma FreedByItsEnd(s: State, a: Action, v: nat, x: nat)
    requires Inv(s) && Enabled(s, a) && v < |s.vcpus| && Intl(x) in s.vcpus[v].d.inService
    requires Ends(s, a, v, Intl(x))
    ensures |Apply(s, a).vcpus| == |s.vcpus| && Apply(s, a).vcpus[v].d.pending == s.vcpus[v].d.pending
    ensures Eligible(Apply(s, a).vcpus[v].d, x) <==> Intl(x) >= s.vcpus[v].d.intl
  {
  }

  /** No step of the run ends level l of v; other levels and other vcpus may end theirs. */
  ghost predicate NoEnd(s: State, acts: seq<Action>, v: nat, l: nat)
    requires Inv(s) && EnabledRun(s, acts) && v < |s.vcpus|
    decreases |acts|
  {
    acts == [] ||
    (StepInv(s, acts[0]); SameVcpus(s, acts[0]);
     !Ends(s, acts[0], v, l) && NoEnd(Apply(s, acts[0]), acts[1..], v, l))
  }

  /** Level l of v is in service in every state of the run. */
  ghost predicate Serving(s: State, acts: seq<Action>, v: nat, l: nat)
    requires Inv(s) && EnabledRun(s, acts) && v < |s.vcpus|
    decreases |acts|
  {
    l in s.vcpus[v].d.inService &&
    (acts == [] || (StepInv(s, acts[0]); SameVcpus(s, acts[0]); Serving(Apply(s, acts[0]), acts[1..], v, l)))
  }

  lemma SameVcpus(s: State, a: Action)
    requires Shape(s) && Enabled(s, a)
    ensures |Apply(s, a).vcpus| == |s.vcpus|
  {
  }

  /** A level stays in service throughout a run if and only if no step of the run ends it, whatever is
      injected, ended at other levels or done to other vcpus; and until then no vector of the level is
      deliverable. */
  lemma {:induction false} StuckUntilEnd(s: State, acts: seq<Action>, v: nat, x: nat)
    requires Inv(s) && EnabledRun(s, acts) && v < |s.vcpus| && Intl(x) in s.vcpus[v].d.inService
    ensures Serving(s, acts, v, Intl(x)) <==> NoEnd(s, acts, v, Intl(x))
    ensures |Run(s, acts).vcpus| == |s.vcpus|
    ensures NoEnd(s, acts, v, Intl(x)) ==>
              Intl(x) in Run(s, acts).vcpus[v].d.inService && !Eligible(Run(s, acts).vcpus[v].d, x)
    decreases |acts|
  {
    if acts != [] {
      StepInv(s, acts[0]);
      LevelLeavesByItsEnd(s, acts[0], v, Intl(x));
      if Ends(s, acts[0], v, Intl(x)) {
        RunVcpus(Apply(s, acts[0]), acts[1..]);
      } else {
        StuckUntilEnd(Apply(s, acts[0]), acts[1..], v, x);
      }
    }
  }

  lemma {:induction false} RunVcpus(s: State, acts: seq<Action>)
    requires Inv(s) && EnabledRun(s, acts)
    ensures |Run(s, acts).vcpus| == |s.vcpus|
    decreases |acts|
  {
    if acts != [] {
      StepInv(s, acts[0]);
      SameVcpus(s, acts[0]);
      RunVcpus(Apply(s, acts[0]), acts[1..]);
    }
  }

  /** The processor's interrupt is taken once, and is sent only for an interrupt to a running vcpu that nothing
      else would make it notice: an NMI that is neither pending already nor waited for by a window exit, or a
      vector that can be delivered and for which no interrupt window is armed. */
  lemma IpiExactly(s: State, a: Action)
    requires Shape(s) && Enabled(s, a)
    ensures Apply(s, a).ipi <==>
      || (s.ipi && !a.TakeIpi? && a != Exit(true))
      || (a.SendInterrupt? && s.vcpus[a.v].running &&
          var d := s.vcpus[a.v].d;
          if a.nmi then !Waits(d, Nmi) && !d.nmiWindow else Eligible(d, a.vector) && !d.intWindow)
  {
  }

  /** An interrupt in flight takes the vcpu out of the guest and to its next entry with nothing lost. */
  lemma ForcedExit(s: State, v: nat)
    requires Inv(s) && s.cpu == InGuest(v) && s.ipi
    ensures Enabled(s, Exit(true)) && var s1 := Apply(s, Exit(true));
      Shape(s1) && Enabled(s1, Transition) && var s2 := Apply(s1, Transition);
      Shape(s2) && Enabled(s2, EnterRunning) && Apply(s2, EnterRunning) == s.(cpu := Entering(v), ipi := false)
  {
    assert VcpuOk(s, v);
    var s1 := Apply(s, Exit(true));
    var s2 := Apply(s1, Transition);
    assert s2.vcpus[v := s2.vcpus[v].(running := true)] == s.vcpus;
  }

  /** And that entry, if nothing in the guest blocks it, injects the highest vector that is pending. */
  lemma ForcedEntryInjects(s: State, v: nat, g: Guest)
    requires Inv(s) && s.cpu == InGuest(v) && v < |s.vcpus| && s.ipi && Deliverable(s.vcpus[v].d) && !s.vcpus[v].d.nmiPending
    requires !g.idtVectoring && !g.inNmi && !g.interruptsBlocked
    ensures var s3, x := s.(cpu := Entering(v), ipi := false), Highest(s.vcpus[v].d.pending);
      && Inv(s3) && Enabled(s3, Inject(g)) && x >= 0
      && var s4 := Apply(s3, Inject(g));
      && s4.cpu == InGuest(v) && |s4.vcpus| == |s.vcpus| && x !in s4.vcpus[v].d.pending
      && CountEvent(s4.log, v, External(x)) == CountEvent(s.log, v, External(x)) + 1
  {
    ForcedExit(s, v);
    ForcedKeepsInv(s, v);
    var s3 := s.(cpu := Entering(v), ipi := false);
    assert VcpuOk(s, v);
    EntryEager(s.vcpus[v].d, g);
    HighestDecides(s.vcpus[v].d);
    EntryLogged(s3, g, v, External(Highest(s.vcpus[v].d.pending)));
  }

  lemma ForcedKeepsInv(s: State, v: nat)
    requires Inv(s) && s.cpu == InGuest(v)
    ensures Inv(s.(cpu := Entering(v), ipi := false))
  {
    var s3 := s.(cpu := Entering(v), ipi := false);
    forall u: nat | u < |s3.vcpus| ensures VcpuOk(s3, u) { assert VcpuOk(s, u); }
  }

  /** A vcpu with nothing to deliver goes into the guest without an event and out again to the very same state. */
  lemma QuietRound(s: State, v: nat, g: Guest)
    requires Inv(s) && Enabled(s, Schedule(v)) && s.vcpus[v].d.pending == {} && !s.vcpus[v].d.nmiPending && !g.idtVectoring
    requires !s.vcpus[v].d.nmiWindow && !s.vcpus[v].d.intWindow
    ensures var s1 := Apply(s, Schedule(v));
      && s1.cpu == Root(v) && Shape(s1) && Enabled(s1, EnterRunning) && var s2 := Apply(s1, EnterRunning);
      && Shape(s2) && Enabled(s2, Inject(g)) && var s3 := Apply(s2, Inject(g));
      && s3 == s.(cpu := InGuest(v), vcpus := s.vcpus[v := s.vcpus[v].(running := true)])
      && Shape(s3) && Enabled(s3, Exit(false)) && var s4 := Apply(s3, Exit(false));
      && Shape(s4) && Enabled(s4, Transition) && var s5 := Apply(s4, Transition);
      && Shape(s5) && Enabled(s5, Deschedule) && Apply(s5, Deschedule) == s
  {
    assert VcpuOk(s, v);
    var s2 := Apply(Apply(s, Schedule(v)), EnterRunning);
    QuietEntry(s.vcpus[v].d, g);
    assert Apply(s2, Inject(g)).log == s.log && Apply(s2, Inject(g)).vcpus == s2.vcpus;
    assert s2.vcpus[v := s2.vcpus[v].(running := false)] == s.vcpus;
  }

  lemma QuietEntry(d: Delivery, g: Guest)
    requires d.pending == {} && !d.nmiPending && !g.idtVectoring && !d.nmiWindow && !d.intWindow
    ensures Decide(d, g) == Outcome(d, [])
  {
  }
}

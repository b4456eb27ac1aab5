/** The kernel's cross-processor calls: __ipi_run_func posts a function in a mailbox of the target, which
    ipi_handler scans on every interrupt.

    A step machine over any number of processors.  Each has a sender, which runs with preemption off,
    and an interrupt handler, which may run in the middle of it; each access to a mailbox field is a
    step.  Interrupts merge while they are pending, and may come without a cause.

    Beside the kernel's own state the machine records, for each mailbox, the calls posted to it and the
    calls that have been run from it. */
module IpiMailbox {

  datatype Call = Call(func: nat, arg: nat, wait: bool)

  /** struct ipi_data of a target and a sender, with the history of the mailbox. */
  datatype Box = Box(locked: bool, func: nat, arg: nat, wait: bool, posted: seq<Call>, ran: seq<Call>)

  /** Where __ipi_run_func is. */
  datatype Sender =
    | Idle
    | WaitFree(target: nat, call: Call)
    | PutFunc(target: nat, call: Call)
    | PutArg(target: nat, call: Call)
    | PutWait(target: nat, call: Call)
    | Assert(target: nat, call: Call)
    | Kick(target: nat, call: Call)
    | WaitDone(target: nat, call: Call)

  /** Where ipi_handler is, and the mailbox it looks at. */
  datatype Handler =
    | Off
    | Scan(i: nat)
    | GetFunc(i: nat)
    | GetArg(i: nat, func: nat)
    | GetWait(i: nat, func: nat, arg: nat)
    | RunThenAck(i: nat, func: nat, arg: nat)
    | AckLast(i: nat)
    | AckThenRun(i: nat, func: nat, arg: nat)
    | RunLast(i: nat, func: nat, arg: nat)

  datatype Pair = Pair(target: nat, sender: nat)

  /** `irq[t]` is the pending interrupt of processor t. */
  datatype State = State(boxes: map<Pair, Box>, senders: seq<Sender>, handlers: seq<Handler>, irq: seq<bool>)

  datatype Action =
    | Begin(s: nat, target: nat, call: Call)
    | Send(s: nat)
    | TakeIrq(t: nat)
    | Handle(t: nat)
    | Spurious(t: nat)

  predicate Shape(st: State) {
    && |st.handlers| == |st.irq| == |st.senders|
    && (forall t: nat, s: nat | t < |st.senders| && s < |st.senders| :: Pair(t, s) in st.boxes)
    && (forall s: nat | s < |st.senders| && !st.senders[s].Idle? :: st.senders[s].target < |st.senders| && st.senders[s].target != s)
    && (forall t: nat | t < |st.senders| && !st.handlers[t].Off? :: st.handlers[t].i < |st.senders| || st.handlers[t] == Scan(|st.senders|))
  }

  // ---------------------------------------------------------------------------
  // Steps
  // ---------------------------------------------------------------------------

  /** Whether the sender can take its next step on the box of its target: it spins while the box is
      locked. */
  predicate CanSend(x: Sender, b: Box) {
    match x
    case Idle => false
    case WaitFree(_, _) => !b.locked
    case WaitDone(_, _) => !b.locked
    case _ => true
  }

  function SendBox(x: Sender, b: Box): Box {
    match x
    case PutFunc(_, c) => Box(b.locked, c.func, b.arg, b.wait, b.posted, b.ran)
    case PutArg(_, c) => Box(b.locked, b.func, c.arg, b.wait, b.posted, b.ran)
    case PutWait(_, c) => Box(b.locked, b.func, b.arg, c.wait, b.posted, b.ran)
    case Assert(_, c) => Box(true, b.func, b.arg, b.wait, b.posted + [c], b.ran)
    case _ => b
  }

  function SendNext(x: Sender): Sender {
    match x
    case Idle => Idle
    case WaitFree(t, c) => PutFunc(t, c)
    case PutFunc(t, c) => PutArg(t, c)
    case PutArg(t, c) => PutWait(t, c)
    case PutWait(t, c) => Assert(t, c)
    case Assert(t, c) => Kick(t, c)
    case Kick(t, c) => if c.wait then WaitDone(t, c) else Idle
    case WaitDone(_, _) => Idle
  }

  /** The handler's step at a mailbox other than its own. */
  function HandleNext(h: Handler, b: Box): Handler {
    match h
    case Off => Off
    case Scan(i) => if b.locked then GetFunc(i) else Scan(i + 1)
    case GetFunc(i) => GetArg(i, b.func)
    case GetArg(i, f) => GetWait(i, f, b.arg)
    case GetWait(i, f, a) => if b.wait then RunThenAck(i, f, a) else AckThenRun(i, f, a)
    case RunThenAck(i, _, _) => AckLast(i)
    case AckLast(i) => Scan(i + 1)
    case AckThenRun(i, f, a) => RunLast(i, f, a)
    case RunLast(i, _, _) => Scan(i + 1)
  }

  function HandleBox(h: Handler, b: Box): Box {
    match h
    case RunThenAck(_, f, a) => Box(b.locked, b.func, b.arg, b.wait, b.posted, b.ran + [Call(f, a, true)])
    case AckLast(_) => Box(false, b.func, b.arg, b.wait, b.posted, b.ran)
    case AckThenRun(_, _, _) => Box(false, b.func, b.arg, b.wait, b.posted, b.ran)
    case RunLast(_, f, a) => Box(b.locked, b.func, b.arg, b.wait, b.posted, b.ran + [Call(f, a, false)])
    case _ => b
  }

  predicate Enabled(st: State, a: Action)
    requires Shape(st)
  {
    match a
    case Begin(s, t, _) => s < |st.senders| && t < |st.senders| && t != s && st.senders[s].Idle?
    case Send(s) => s < |st.senders| && !st.senders[s].Idle? && CanSend(st.senders[s], st.boxes[Pair(st.senders[s].target, s)])
    case TakeIrq(t) => t < |st.senders| && st.irq[t] && st.handlers[t].Off?
    case Handle(t) => t < |st.senders| && !st.handlers[t].Off?
    case Spurious(t) => t < |st.senders|
  }

  function Apply(st: State, a: Action): State
    requires Shape(st) && Enabled(st, a)
  {
    match a
    case Begin(s, t, c) => st.(senders := st.senders[s := WaitFree(t, c)])
    case Send(s) =>
      var x := st.senders[s];
      var p := Pair(x.target, s);
      State(st.boxes[p := SendBox(x, st.boxes[p])], st.senders[s := SendNext(x)], st.handlers,
            if x.Kick? then st.irq[x.target := true] else st.irq)
    case TakeIrq(t) => st.(handlers := st.handlers[t := Scan(0)], irq := st.irq[t := false])
    case Handle(t) =>
      var h := st.handlers[t];
      if h.Scan? && h.i >= |st.senders| then st.(handlers := st.handlers[t := Off])
      else if h.i == t then st.(handlers := st.handlers[t := Scan(t + 1)])
      else
        var p := Pair(t, h.i);
        st.(boxes := st.boxes[p := HandleBox(h, st.boxes[p])], handlers := st.handlers[t := HandleNext(h, st.boxes[p])])
    case Spurious(t) => st.(irq := st.irq[t := true])
  }

  // ---------------------------------------------------------------------------
  // The invariant of one mailbox
  // ---------------------------------------------------------------------------

  /** The sender is between finding the box free and locking it. */
  predicate Filling(x: Sender, t: nat) {
    (x.PutFunc? || x.PutArg? || x.PutWait? || x.Assert?) && x.target == t
  }

  predicate Posted(x: Sender, t: nat) { (x.Kick? || x.WaitDone?) && x.target == t }

  /** The handler has found box s locked and not yet unlocked it. */
  predicate Serving(h: Handler, s: nat) {
    (h.GetFunc? || h.GetArg? || h.GetWait? || h.RunThenAck? || h.AckLast? || h.AckThenRun?) && h.i == s
  }

  /** The handler will still look at box s in this scan. */
  predicate WillSee(h: Handler, s: nat) {
    Serving(h, s) || (h.Scan? && h.i <= s) || (!h.Off? && h.i < s)
  }

  /** Calls the handler has taken over but not yet run. */
  function InHandler(h: Handler, s: nat): seq<Call> {
    if h.RunLast? && h.i == s then [Call(h.func, h.arg, false)] else []
  }

  /** Calls in the box that have not been run. */
  function InBox(b: Box, h: Handler, s: nat): seq<Call> {
    if b.locked && h != AckLast(s) then [Call(b.func, b.arg, b.wait)] else []
  }

  /** Every posted call has been run, is being run or waits in the box, in this order. */
  predicate Accounted(b: Box, h: Handler, s: nat) {
    b.posted == b.ran + InHandler(h, s) + InBox(b, h, s)
  }

  predicate FillOk(b: Box, x: Sender, t: nat) {
    Filling(x, t) ==>
      && !b.locked
      && (x.PutFunc? || b.func == x.call.func)
      && (x.PutFunc? || x.PutArg? || b.arg == x.call.arg)
      && (x.Assert? ==> b.wait == x.call.wait)
  }

  predicate ServeOk(b: Box, h: Handler, s: nat) {
    Serving(h, s) ==>
      && b.locked
      && (h.GetArg? || h.GetWait? || h.RunThenAck? || h.AckThenRun? ==> h.func == b.func)
      && (h.GetWait? || h.RunThenAck? || h.AckThenRun? ==> h.arg == b.arg)
      && (h.RunThenAck? || h.AckLast? ==> b.wait)
      && (h.AckThenRun? ==> !b.wait)
  }

  /** A sender that has posted its call posted it last, and if it waits the box stays locked while an earlier
      call is still to run. */
  predicate WaitOk(b: Box, x: Sender, h: Handler, t: nat, s: nat) {
    Posted(x, t) ==>
      && b.posted != [] && b.posted[|b.posted| - 1] == x.call && (x.WaitDone? ==> x.call.wait)
      && (x.call.wait && h.RunLast? && h.i == s ==> b.locked)
  }

  /** A locked box is going to be looked at. */
  predicate Noticed(b: Box, x: Sender, h: Handler, irq: bool, t: nat, s: nat) {
    b.locked ==> irq || (x.Kick? && x.target == t) || WillSee(h, s)
  }

  predicate BoxOk(b: Box, x: Sender, h: Handler, irq: bool, t: nat, s: nat) {
    Accounted(b, h, s) && FillOk(b, x, t) && ServeOk(b, h, s) && WaitOk(b, x, h, t, s) && Noticed(b, x, h, irq, t, s)
  }

  predicate PairOk(st: State, t: nat, s: nat)
    requires Shape(st) && t < |st.senders| && s < |st.senders|
  {
    BoxOk(st.boxes[Pair(t, s)], st.senders[s], st.handlers[t], st.irq[t], t, s)
  }

  predicate Inv(st: State) {
    && Shape(st)
    && forall t: nat, s: nat {:trigger PairOk(st, t, s)} | t < |st.senders| && s < |st.senders| && t != s :: PairOk(st, t, s)
  }

  // ---------------------------------------------------------------------------
  // Steps keep the invariant
  // ---------------------------------------------------------------------------

  /** A step of the box's own sender. */
  lemma SenderStep(b: Box, x: Sender, h: Handler, irq: bool, t: nat, s: nat)
    requires BoxOk(b, x, h, irq, t, s) && !x.Idle? && x.target == t && CanSend(x, b)
    ensures BoxOk(SendBox(x, b), SendNext(x), h, irq || x.Kick?, t, s)
  {
  }

  /** A step of the box's sender on another box. */
  lemma SenderElsewhere(b: Box, x: Sender, h: Handler, irq: bool, t: nat, s: nat)
    requires BoxOk(b, x, h, irq, t, s) && !x.Idle? && x.target != t
    ensures BoxOk(b, SendNext(x), h, irq, t, s)
  {
  }

  /** A step of the handler at the box. */
  lemma HandlerStep(b: Box, x: Sender, h: Handler, irq: bool, t: nat, s: nat)
    requires BoxOk(b, x, h, irq, t, s) && !h.Off? && h.i == s
    ensures BoxOk(HandleBox(h, b), x, HandleNext(h, b), irq, t, s)
  {
  }

  /** A step of the handler at another box. */
  lemma HandlerElsewhere(b: Box, x: Sender, h: Handler, irq: bool, t: nat, s: nat, o: Box)
    requires BoxOk(b, x, h, irq, t, s) && !h.Off? && h.i != s
    ensures BoxOk(b, x, HandleNext(h, o), irq, t, s)
    ensures BoxOk(b, x, Scan(h.i + 1), irq, t, s)
    ensures h.i > s ==> BoxOk(b, x, Off, irq, t, s)
  {
  }

  lemma StepShape(st: State, a: Action)
    requires Shape(st) && Enabled(st, a)
    ensures Shape(Apply(st, a)) && |Apply(st, a).senders| == |st.senders|
  {
  }

  lemma StepPair(st: State, a: Action, t: nat, s: nat)
    requires Inv(st) && Enabled(st, a) && t < |st.senders| && s < |st.senders| && t != s
    ensures Shape(Apply(st, a)) && PairOk(Apply(st, a), t, s)
  {
    StepShape(st, a);
    assert PairOk(st, t, s);
    match a
    case Send(o) => PairSend(st, o, t, s);
    case Handle(o) => PairHandle(st, o, t, s);
    case _ =>
  }

  lemma PairSend(st: State, o: nat, t: nat, s: nat)
    requires Inv(st) && Enabled(st, Send(o)) && t < |st.senders| && s < |st.senders| && t != s
    ensures Shape(Apply(st, Send(o))) && PairOk(Apply(st, Send(o)), t, s)
  {
    StepShape(st, Send(o));
    assert PairOk(st, t, s);
    if o == s {
      var b, x, h := st.boxes[Pair(t, s)], st.senders[s], st.handlers[t];
      if x.target == t { SenderStep(b, x, h, st.irq[t], t, s); } else { SenderElsewhere(b, x, h, st.irq[t], t, s); }
    }
  }

  lemma PairHandle(st: State, o: nat, t: nat, s: nat)
    requires Inv(st) && Enabled(st, Handle(o)) && t < |st.senders| && s < |st.senders| && t != s
    ensures Shape(Apply(st, Handle(o))) && PairOk(Apply(st, Handle(o)), t, s)
  {
    StepShape(st, Handle(o));
    assert PairOk(st, t, s);
    if o == t { PairHandleOwn(st, t, s); }
  }

  lemma PairHandleOwn(st: State, t: nat, s: nat)
    requires Shape(st) && Enabled(st, Handle(t)) && s < |st.senders| && t != s && PairOk(st, t, s)
    requires Shape(Apply(st, Handle(t))) && |Apply(st, Handle(t)).senders| == |st.senders|
    ensures PairOk(Apply(st, Handle(t)), t, s)
  {
    var b, x, h := st.boxes[Pair(t, s)], st.senders[s], st.handlers[t];
    if h.i == s {
      HandlerStep(b, x, h, st.irq[t], t, s);
    } else {
      HandlerElsewhere(b, x, h, st.irq[t], t, s, if h.i < |st.senders| then st.boxes[Pair(t, h.i)] else b);
    }
  }

  lemma StepInv(st: State, a: Action)
    requires Inv(st) && Enabled(st, a)
    ensures Inv(Apply(st, a))
  {
    StepShape(st, a);
    var st' := Apply(st, a);
    forall t: nat, s: nat | t < |st'.senders| && s < |st'.senders| && t != s ensures PairOk(st', t, s) {
      StepPair(st, a, t, s);
    }
  }

  // ---------------------------------------------------------------------------
  // Main results, over every run
  // ---------------------------------------------------------------------------

  predicate Initial(st: State) {
    && Shape(st)
    && (forall p | p in st.boxes :: !st.boxes[p].locked && st.boxes[p].posted == [] && st.boxes[p].ran == [])
    && (forall s: nat | s < |st.senders| :: st.senders[s].Idle? && st.handlers[s].Off?)
  }

  lemma InitialInv(st: State)
    requires Initial(st)
    ensures Inv(st)
  {
    forall t: nat, s: nat | t < |st.senders| && s < |st.senders| && t != s ensures PairOk(st, t, s) { }
  }

  ghost predicate EnabledRun(st: State, acts: seq<Action>)
    requires Inv(st)
    decreases |acts|
  {
    acts == [] || (Enabled(st, acts[0]) && (StepInv(st, acts[0]); EnabledRun(Apply(st, acts[0]), acts[1..])))
  }

  ghost function Run(st: State, acts: seq<Action>): (st': State)
    requires Inv(st) && EnabledRun(st, acts)
    ensures Inv(st')
    decreases |acts|
  {
    if acts == [] then st else (StepInv(st, acts[0]); Run(Apply(st, acts[0]), acts[1..]))
  }

  ghost predicate Reachable(st: State) {
    exists st0: State, acts: seq<Action> :: Initial(st0) && Inv(st0) && EnabledRun(st0, acts) && st == Run(st0, acts)
  }

  /** At most once, in order, and with its own function and argument: what has been run from a mailbox
      is a prefix of what has been posted to it, and at most two calls are on the way. */
  lemma AtMostOnce(st: State, t: nat, s: nat)
    requires Reachable(st) && t < |st.senders| && s < |st.senders| && t != s
    ensures Pair(t, s) in st.boxes
    ensures st.boxes[Pair(t, s)].ran <= st.boxes[Pair(t, s)].posted
    ensures |st.boxes[Pair(t, s)].posted| <= |st.boxes[Pair(t, s)].ran| + 2
  {
    assert PairOk(st, t, s);
  }

  /** A posted call that has not been run is in the handler's hands, or in its locked box, which the handler
      will reach in this scan or in the one that an interrupt starts, sent already or about to be sent.
      The target can always take its next step towards it, except while the interrupt is still to be sent,
      and then the sender can. */
  lemma NeverLost(st: State, t: nat, s: nat)
    requires Reachable(st) && t < |st.senders| && s < |st.senders| && t != s
    ensures Shape(st)
    ensures var b, x, h := st.boxes[Pair(t, s)], st.senders[s], st.handlers[t];
      b.ran != b.posted ==>
        && (InHandler(h, s) != [] || (b.locked && (WillSee(h, s) || st.irq[t] || (x.Kick? && x.target == t))))
        && (Enabled(st, Handle(t)) || Enabled(st, TakeIrq(t)) || (x.Kick? && x.target == t && Enabled(st, Send(s))))
  {
    assert PairOk(st, t, s);
  }

  // ---------------------------------------------------------------------------
  // How long a call waits
  // ---------------------------------------------------------------------------

  /** How far the handler is in its scan: six steps at most for each mailbox. */
  function Progress(h: Handler): nat {
    match h
    case Off => 0
    case Scan(i) => 6 * i
    case GetFunc(i) => 6 * i + 1
    case GetArg(i, _) => 6 * i + 2
    case GetWait(i, _, _) => 6 * i + 3
    case RunThenAck(i, _, _) => 6 * i + 4
    case AckThenRun(i, _, _) => 6 * i + 4
    case AckLast(i) => 6 * i + 5
    case RunLast(i, _, _) => 6 * i + 5
  }

  /** A bound on the target's own steps until it runs a call from box s, with n processors: the rest of this
      scan up to the box, or the rest of this scan and the next one up to the box. */
  function Rank(h: Handler, n: nat, s: nat): int {
    if h.RunLast? && h.i == s then 1
    else if WillSee(h, s) then 6 * s + 6 - Progress(h)
    else (if h.Off? then 0 else 6 * n + 2 - Progress(h)) + 6 * s + 7
  }

  predicate OwnStep(a: Action, t: nat) { a == Handle(t) || a == TakeIrq(t) }

  lemma RankBounds(st: State, t: nat, s: nat)
    requires Shape(st) && t < |st.senders| && s < |st.senders|
    ensures 1 <= Rank(st.handlers[t], |st.senders|, s) <= Bound(|st.senders|)
  {
  }

  /** Every step of the target lowers the bound or runs a call from the box; no other step raises it. */
  lemma RankStep(st: State, a: Action, t: nat, s: nat)
    requires Inv(st) && Enabled(st, a) && t < |st.senders| && s < |st.senders| && t != s
    requires st.boxes[Pair(t, s)].ran != st.boxes[Pair(t, s)].posted
    ensures var st' := Apply(st, a);
      && Shape(st') && |st'.senders| == |st.senders|
      && var b, b', r, r' := st.boxes[Pair(t, s)], st'.boxes[Pair(t, s)],
                             Rank(st.handlers[t], |st.senders|, s), Rank(st'.handlers[t], |st.senders|, s);
      if OwnStep(a, t) then |b'.ran| > |b.ran| || (b'.ran == b.ran && b'.posted == b.posted && r' < r)
      else b'.ran == b.ran && b.posted <= b'.posted && r' == r
  {
    StepShape(st, a);
    assert PairOk(st, t, s);
    if a == Handle(t) { HandleRank(st, t, s); }
  }

  lemma HandleRank(st: State, t: nat, s: nat)
    requires Shape(st) && Enabled(st, Handle(t)) && s < |st.senders| && t != s && PairOk(st, t, s)
    requires st.boxes[Pair(t, s)].ran != st.boxes[Pair(t, s)].posted
    ensures var st' := Apply(st, Handle(t));
      && |st'.senders| == |st.senders| && Pair(t, s) in st'.boxes && |st'.handlers| == |st.handlers|
      && var b, b' := st.boxes[Pair(t, s)], st'.boxes[Pair(t, s)];
      || |b'.ran| > |b.ran|
      || (b'.ran == b.ran && b'.posted == b.posted &&
          Rank(st'.handlers[t], |st.senders|, s) < Rank(st.handlers[t], |st.senders|, s))
  {
  }

  function OwnSteps(acts: seq<Action>, t: nat): nat {
    if acts == [] then 0 else (if OwnStep(acts[0], t) then 1 else 0) + OwnSteps(acts[1..], t)
  }

  function Bound(n: nat): nat { 12 * n + 3 }

  /** A bound on the target's own steps until it has run the k-th call posted to the box: one rank if it is
      the next to run, and a whole bound more for the call behind it. */
  function RankOf(st: State, t: nat, s: nat, k: nat): int
    requires Shape(st) && t < |st.senders| && s < |st.senders|
  {
    var ran := |st.boxes[Pair(t, s)].ran|;
    if k < ran then 0 else Rank(st.handlers[t], |st.senders|, s) + if k == ran then 0 else Bound(|st.senders|)
  }

  /** At least once: no run lets the target take as many steps as the bound for a posted call, which is
      linear in the number of processors, without running that call. */
  lemma {:induction false} RunsWithin(st: State, acts: seq<Action>, t: nat, s: nat, k: nat)
    requires Inv(st) && EnabledRun(st, acts) && t < |st.senders| && s < |st.senders| && t != s
    requires k < |st.boxes[Pair(t, s)].posted| && OwnSteps(acts, t) >= RankOf(st, t, s, k)
    ensures Pair(t, s) in Run(st, acts).boxes && k < |Run(st, acts).boxes[Pair(t, s)].ran|
    decreases |acts|
  {
    assert PairOk(st, t, s);
    if k < |st.boxes[Pair(t, s)].ran| {
      HistoryGrows(st, t, s, acts);
    } else {
      RankBounds(st, t, s);
      var st' := Apply(st, acts[0]);
      StepInv(st, acts[0]);
      RankStep(st, acts[0], t, s);
      RankBounds(st', t, s);
      assert PairOk(st', t, s);
      HistoryGrows(st, t, s, acts[..1]);
      RunsWithin(st', acts[1..], t, s, k);
    }
  }

  /** Exactly once, in time: in every run in which the target takes twice the bound of steps, every call
      posted before it has been run, as the k-th call if it was posted as the k-th. */
  lemma EveryCallRuns(st: State, acts: seq<Action>, t: nat, s: nat, k: nat)
    requires Reachable(st) && EnabledRun(st, acts) && t < |st.senders| && s < |st.senders| && t != s
    requires Pair(t, s) in st.boxes && k < |st.boxes[Pair(t, s)].posted| && OwnSteps(acts, t) >= 2 * Bound(|st.senders|)
    ensures Pair(t, s) in Run(st, acts).boxes
    ensures var ran := Run(st, acts).boxes[Pair(t, s)].ran; k < |ran| && ran[k] == st.boxes[Pair(t, s)].posted[k]
  {
    RankBounds(st, t, s);
    RunsWithin(st, acts, t, s, k);
    HistoryGrows(st, t, s, acts);
    assert PairOk(Run(st, acts), t, s);
  }

  /** A mailbox is written only while it is unlocked, so never before its call has been picked up, and
      never while the handler reads it. */
  lemma NeverOverwritten(st: State, t: nat, s: nat)
    requires Reachable(st) && t < |st.senders| && s < |st.senders| && t != s && Filling(st.senders[s], t)
    ensures Pair(t, s) in st.boxes && |st.handlers| == |st.senders|
    ensures !st.boxes[Pair(t, s)].locked && !Serving(st.handlers[t], s)
  {
    assert PairOk(st, t, s);
  }

  /** A waiting call returns only after its function has completed, and so have all the calls that its
      processor posted to the target before. */
  lemma WaitMeansDone(st: State, s: nat)
    requires Reachable(st) && s < |st.senders| && st.senders[s].WaitDone?
    ensures Shape(st)
    ensures Enabled(st, Send(s)) ==>
      var b := st.boxes[Pair(st.senders[s].target, s)];
      b.ran == b.posted && b.ran != [] && b.ran[|b.ran| - 1] == st.senders[s].call
  {
    assert PairOk(st, st.senders[s].target, s);
  }

  /** Nothing posted or run is ever taken back: the k-th call posted to a mailbox is the k-th run from it
      at every later time. */
  lemma {:induction false} HistoryGrows(st: State, t: nat, s: nat, acts: seq<Action>)
    requires Inv(st) && EnabledRun(st, acts) && t < |st.senders| && s < |st.senders| && t != s
    ensures Pair(t, s) in st.boxes && |Run(st, acts).senders| == |st.senders| && Pair(t, s) in Run(st, acts).boxes
    ensures st.boxes[Pair(t, s)].posted <= Run(st, acts).boxes[Pair(t, s)].posted
    ensures st.boxes[Pair(t, s)].ran <= Run(st, acts).boxes[Pair(t, s)].ran
    decreases |acts|
  {
    if acts != [] {
      StepInv(st, acts[0]);
      StepShape(st, acts[0]);
      HistoryGrows(Apply(st, acts[0]), t, s, acts[1..]);
    }
  }

  // ---------------------------------------------------------------------------
  // What a sender is promised
  // ---------------------------------------------------------------------------

  /** A call is returned from only when it may be: one that waits when its function has completed, and all
      posted before it; one that does not as soon as its interrupt has been sent. */
  lemma ReturnMeansDone(st: State, s: nat)
    requires Inv(st) && Enabled(st, Send(s)) && Shape(Apply(st, Send(s))) && |Apply(st, Send(s)).senders| == |st.senders|
    requires Apply(st, Send(s)).senders[s].Idle?
    ensures var x, st' := st.senders[s], Apply(st, Send(s)); var b := st'.boxes[Pair(x.target, s)];
      && b.posted != [] && b.posted[|b.posted| - 1] == x.call
      && (if x.call.wait then b.ran == b.posted else x.Kick? && st'.irq[x.target])
  {
    assert PairOk(st, st.senders[s].target, s);
  }

  /** Steps of its own until the sender returns. */
  function Stage(x: Sender): nat {
    match x
    case Idle => 0
    case WaitDone(_, _) => 1
    case Kick(_, _) => 2
    case Assert(_, _) => 3
    case PutWait(_, _) => 4
    case PutArg(_, _) => 5
    case PutFunc(_, _) => 6
    case WaitFree(_, _) => 7
  }

  predicate Waiting(x: Sender) { x.WaitFree? || x.WaitDone? }

  /** A bound on the target's own steps until it unlocks box s. */
  function UnlockRank(h: Handler, n: nat, s: nat): int {
    if WillSee(h, s) then 6 * s + 6 - Progress(h)
    else (if h.Off? then 0 else 6 * n + 2 - Progress(h)) + 6 * s + 7
  }

  lemma UnlockBounds(st: State, t: nat, s: nat)
    requires Shape(st) && t < |st.senders| && s < |st.senders|
    ensures 1 <= UnlockRank(st.handlers[t], |st.senders|, s) <= Bound(|st.senders|)
  {
  }

  /** Steps that sender s still needs for its call, its own and, while it spins on a locked box, the target's. */
  function Work(st: State, s: nat): int
    requires Shape(st) && s < |st.senders|
  {
    var x, n := st.senders[s], |st.senders|;
    if x.Idle? then 0
    else
      var spin := if Waiting(x) && st.boxes[Pair(x.target, s)].locked then UnlockRank(st.handlers[x.target], n, s) else 0;
      Stage(x) + spin + if x.WaitDone? then 0 else Bound(n)
  }

  predicate Useful(st: State, a: Action, s: nat)
    requires Shape(st) && s < |st.senders| && !st.senders[s].Idle?
  {
    var x := st.senders[s];
    a == Send(s) || (Waiting(x) && st.boxes[Pair(x.target, s)].locked && OwnStep(a, x.target))
  }

  /** The target's own step unlocks a locked box or brings it nearer to that. */
  lemma UnlockStep(st: State, a: Action, t: nat, s: nat)
    requires Shape(st) && Enabled(st, a) && OwnStep(a, t) && s < |st.senders| && t != s && st.boxes[Pair(t, s)].locked
    ensures var st' := Apply(st, a);
      && t < |st.senders| == |st'.senders| == |st'.handlers| && Pair(t, s) in st'.boxes && st'.senders == st.senders
      && (st'.boxes[Pair(t, s)].locked ==>
            UnlockRank(st'.handlers[t], |st.senders|, s) < UnlockRank(st.handlers[t], |st.senders|, s))
  {
  }

  /** Nobody else's step matters to a locked box, and to an unlocked one only its sender's. */
  lemma LockKept(st: State, a: Action, t: nat, s: nat)
    requires Inv(st) && Enabled(st, a) && t < |st.senders| && s < |st.senders| && t != s
    requires a != Send(s) && a != Handle(t) && a != TakeIrq(t)
    ensures var st' := Apply(st, a);
      && |st'.senders| == |st.senders| == |st'.handlers| && Pair(t, s) in st'.boxes
      && st'.boxes[Pair(t, s)] == st.boxes[Pair(t, s)] && st'.handlers[t] == st.handlers[t]
  {
  }

  lemma SenderKept(st: State, a: Action, s: nat)
    requires Shape(st) && Enabled(st, a) && s < |st.senders| && !st.senders[s].Idle? && a != Send(s)
    ensures |Apply(st, a).senders| == |st.senders| && Apply(st, a).senders[s] == st.senders[s]
  {
  }

  lemma NoNewLock(st: State, t: nat, s: nat)
    requires Shape(st) && Enabled(st, Handle(t)) && s < |st.senders| && t != s
    ensures Pair(t, s) in Apply(st, Handle(t)).boxes
    ensures Apply(st, Handle(t)).boxes[Pair(t, s)].locked ==> st.boxes[Pair(t, s)].locked
  {
  }

  /** A useful step leaves less to be done, and no step adds to it. */
  lemma WorkStep(st: State, a: Action, s: nat)
    requires Inv(st) && Enabled(st, a) && s < |st.senders| && !st.senders[s].Idle?
    ensures var st' := Apply(st, a);
      && Shape(st') && |st'.senders| == |st.senders|
      && Work(st', s) <= Work(st, s) && (Useful(st, a, s) ==> Work(st', s) < Work(st, s))
  {
    StepShape(st, a);
    var x := st.senders[s];
    var t := x.target;
    if a == Send(s) {
      WorkSend(st, s);
    } else {
      SenderKept(st, a, s);
      if a == Handle(t) || a == TakeIrq(t) {
        if st.boxes[Pair(t, s)].locked { UnlockStep(st, a, t, s); UnlockBounds(st, t, s); }
        if a == Handle(t) { NoNewLock(st, t, s); }
      } else {
        LockKept(st, a, t, s);
      }
    }
  }

  lemma WorkSend(st: State, s: nat)
    requires Inv(st) && Enabled(st, Send(s)) && Shape(Apply(st, Send(s))) && |Apply(st, Send(s)).senders| == |st.senders|
    ensures Work(Apply(st, Send(s)), s) < Work(st, s)
  {
    var st' := Apply(st, Send(s));
    UnlockBounds(st', st.senders[s].target, s);
    assert st'.handlers == st.handlers;
  }

  /** Sender s is on its way with call c to processor t, which had posted0 posted to its box when it began; the
      call is posted once the box has been locked. */
  ghost predicate Asked(st: State, s: nat, t: nat, c: Call, posted0: seq<Call>)
    requires Shape(st) && s < |st.senders|
  {
    var x := st.senders[s];
    && !x.Idle? && x.target == t && x.call == c
    && st.boxes[Pair(t, s)].posted == if Stage(x) >= 3 then posted0 else posted0 + [c]
  }

  lemma AskedStep(st: State, a: Action, s: nat, t: nat, c: Call, posted0: seq<Call>)
    requires Inv(st) && Enabled(st, a) && s < |st.senders| && Asked(st, s, t, c, posted0)
    ensures var st' := Apply(st, a);
      && Shape(st') && |st'.senders| == |st.senders|
      && (if !st'.senders[s].Idle? then Asked(st', s, t, c, posted0)
          else st'.boxes[Pair(t, s)].posted == posted0 + [c] && (c.wait ==> st'.boxes[Pair(t, s)].ran == posted0 + [c]))
  {
    StepShape(st, a);
    if a == Send(s) {
      if Apply(st, a).senders[s].Idle? { ReturnMeansDone(st, s); }
    } else {
      SenderKept(st, a, s);
      PostedKept(st, a, t, s);
    }
  }

  /** Only its sender posts to a box. */
  lemma PostedKept(st: State, a: Action, t: nat, s: nat)
    requires Shape(st) && Enabled(st, a) && a != Send(s) && t < |st.senders| && s < |st.senders|
    ensures Pair(t, s) in Apply(st, a).boxes && Apply(st, a).boxes[Pair(t, s)].posted == st.boxes[Pair(t, s)].posted
  {
  }

  /** How many steps of a run were useful to sender s until it returned. */
  ghost function UsefulSteps(st: State, acts: seq<Action>, s: nat): nat
    requires Inv(st) && EnabledRun(st, acts) && s < |st.senders|
    decreases |acts|
  {
    if acts == [] || st.senders[s].Idle? then 0
    else
      StepInv(st, acts[0]);
      StepShape(st, acts[0]);
      (if Useful(st, acts[0], s) then 1 else 0) + UsefulSteps(Apply(st, acts[0]), acts[1..], s)
  }

  /** Every call returns, and keeps its promise: no run takes as many useful steps as there is work left, which
      is linear in the number of processors, without the call having been posted as the next to its box, and,
      if it waits, having run. */
  lemma {:induction false} CallReturns(st: State, acts: seq<Action>, s: nat, t: nat, c: Call, posted0: seq<Call>)
    requires Inv(st) && EnabledRun(st, acts) && s < |st.senders| && Asked(st, s, t, c, posted0)
    ensures UsefulSteps(st, acts, s) <= Work(st, s) <= 2 * Bound(|st.senders|) + 7
    ensures Pair(t, s) in Run(st, acts).boxes
    ensures UsefulSteps(st, acts, s) == Work(st, s) ==>
      var b := Run(st, acts).boxes[Pair(t, s)]; posted0 + [c] <= b.posted && (c.wait ==> posted0 + [c] <= b.ran)
    decreases |acts|
  {
    UnlockBounds(st, t, s);
    if acts != [] {
      var st' := Apply(st, acts[0]);
      StepInv(st, acts[0]);
      WorkStep(st, acts[0], s);
      AskedStep(st, acts[0], s, t, c, posted0);
      if st'.senders[s].Idle? {
        HistoryGrows(st', t, s, acts[1..]);
      } else {
        CallReturns(st', acts[1..], s, t, c, posted0);
      }
    }
  }

  lemma BeginAsks(st: State, s: nat, t: nat, c: Call)
    requires Shape(st) && Enabled(st, Begin(s, t, c))
    ensures var st' := Apply(st, Begin(s, t, c));
      Shape(st') && |st'.senders| == |st.senders| && Asked(st', s, t, c, st.boxes[Pair(t, s)].posted) && Work(st', s) > 0
  {
    UnlockBounds(Apply(st, Begin(s, t, c)), t, s);
  }

  /** From its beginning on: the call posted is the one asked for, to the target asked for. */
  lemma BegunReturns(st: State, s: nat, t: nat, c: Call, acts: seq<Action>)
    requires Inv(st) && Enabled(st, Begin(s, t, c)) && Inv(Apply(st, Begin(s, t, c))) && EnabledRun(Apply(st, Begin(s, t, c)), acts)
    requires |Apply(st, Begin(s, t, c)).senders| == |st.senders|
    requires UsefulSteps(Apply(st, Begin(s, t, c)), acts, s) >= 2 * Bound(|st.senders|) + 7
    ensures Pair(t, s) in Run(Apply(st, Begin(s, t, c)), acts).boxes
    ensures var b := Run(Apply(st, Begin(s, t, c)), acts).boxes[Pair(t, s)]; var posted0 := st.boxes[Pair(t, s)].posted;
      posted0 + [c] <= b.posted && (c.wait ==> posted0 + [c] <= b.ran)
  {
    BeginAsks(st, s, t, c);
    CallReturns(Apply(st, Begin(s, t, c)), acts, s, t, c, st.boxes[Pair(t, s)].posted);
  }

  /** And no sender is ever stuck: it can step, or spins on a locked box whose target can. */
  lemma SenderNeverStuck(st: State, s: nat)
    requires Reachable(st) && Shape(st) && s < |st.senders| && !st.senders[s].Idle?
    ensures exists a :: Enabled(st, a) && Useful(st, a, s)
  {
    var x := st.senders[s];
    assert PairOk(st, x.target, s);
    if Enabled(st, Send(s)) {
      assert Useful(st, Send(s), s);
    } else {
      var a := if st.handlers[x.target].Off? then TakeIrq(x.target) else Handle(x.target);
      assert Enabled(st, a) && Useful(st, a, s);
    }
  }

  /** An interrupt is pending from its sending, or from a spurious cause, until it is taken, once. */
  lemma IrqExactly(st: State, a: Action, t: nat)
    requires Shape(st) && Enabled(st, a) && t < |st.senders|
    ensures t < |Apply(st, a).irq|
    ensures Apply(st, a).irq[t] <==>
      (st.irq[t] && a != TakeIrq(t)) || a == Spurious(t) || (a.Send? && st.senders[a.s].Kick? && st.senders[a.s].target == t)
  {
  }
}

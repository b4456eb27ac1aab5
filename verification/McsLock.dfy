/** The MCS queue lock of src/subsys/sync/mcslock.c, plain and paravirtual, together with the
    hypervisor's pause and kick (src/subsys/twanvisor/vsched/vsched.c,
    src/subsys/twanvisor/vemulate/vemulate_utils.c).

    A step machine over any number of threads.  Preemption is off from the exchange to the end of
    the unlock, so a thread stands for its virtual processor.  Each thread owns one queue node that
    lives on its stack from `Begin` until its unlock returns.  Every atomic access is one step. */
module McsLock {
  import opened Seqs

  type Tid = nat

  datatype Flag = Locked | Unlocked | Paused

  datatype Node = Node(next: Option<Tid>, flag: Flag, pid: Tid)

  datatype Option<T> = None | Some(value: T)

  /** vcpu_pv_spin_state_t */
  datatype Spin = SpinNone | SpinPaused | SpinKicked

  datatype Pc =
    | Out                        // not in the lock's code, node dead
    | Begun                      // node initialised, tail not yet exchanged
    | ReadPrev(prev: Tid)        // paravirtual: about to read prev's processor_id
    | LinkPrev(prev: Tid)        // about to store prev->next
    | Wait                       // spinning on its own flag
    | PauseCall                  // flag set to Paused, about to call the hypervisor
    | Blocked                    // descheduled in the hypervisor
    | Holding                    // in the critical section
    | CasTail                    // unlock: saw no successor
    | SpinNext                   // unlock: the tail moved on, waiting for the successor's link
    | Handoff(next: Tid)         // unlock: about to pass the lock
    | ReadNext(next: Tid)        // paravirtual: successor paused, about to read its processor_id
    | SetNext(next: Tid, pid: Tid)
    | KickCall(pid: Tid)         // lock passed, about to kick the successor's processor

  /** Three observers beside the lock's own state: `queue` holds the threads that have exchanged the
      tail and not yet passed the lock on, oldest first; `order` lists every exchange so far;
      `acquired` lists the threads in the order in which they entered the critical section. */
  datatype State = State(pv: bool, tail: Option<Tid>, nodes: seq<Node>, pcs: seq<Pc>, spins: seq<Spin>,
                         queue: seq<Tid>, order: seq<Tid>, acquired: seq<Tid>)

  datatype Action =
    | Begin(t: Tid)
    | Exchange(t: Tid)
    | ReadPrevPid(t: Tid)
    | Link(t: Tid)
    | Poll(t: Tid)
    | TryPause(t: Tid)
    | Pause(t: Tid)
    | Release(t: Tid)
    | CasTailNull(t: Tid)
    | PollNext(t: Tid)
    | Pass(t: Tid)
    | ReadNextPid(t: Tid)
    | StoreUnlocked(t: Tid)
    | Kick(t: Tid)
    | StrayKick(t: Tid)          // a kick of processor t that has nothing to do with this lock

  function Init(pv: bool, n: nat): State {
    State(pv, None, seq(n, _ => Node(None, Locked, 0)), seq(n, _ => Out), seq(n, _ => SpinNone), [], [], [])
  }

  predicate Shape(s: State) {
    && |s.nodes| == |s.pcs| == |s.spins|
    && (s.tail.Some? ==> s.tail.value < |s.pcs|)
    && (forall t :: 0 <= t < |s.pcs| ==> PcInRange(s.pcs[t], |s.pcs|))
    && (forall t :: 0 <= t < |s.pcs| ==> NodeInRange(s.nodes[t], |s.pcs|))
  }

  predicate NodeInRange(node: Node, n: nat) {
    node.pid < n && (node.next.Some? ==> node.next.value < n)
  }

  predicate PcInRange(pc: Pc, n: nat) {
    match pc
    case ReadPrev(prev) => prev < n
    case LinkPrev(prev) => prev < n
    case Handoff(next) => next < n
    case ReadNext(next) => next < n
    case SetNext(next, pid) => next < n && pid < n
    case KickCall(pid) => pid < n
    case _ => true
  }

  function Tail<T>(q: seq<T>): seq<T> { if q == [] then [] else q[1..] }

  predicate Enabled(s: State, a: Action)
    requires Shape(s)
  {
    a.t < |s.pcs| &&
    match a
    case Begin(t) => s.pcs[t].Out?
    case Exchange(t) => s.pcs[t].Begun?
    case ReadPrevPid(t) => s.pcs[t].ReadPrev?
    case Link(t) => s.pcs[t].LinkPrev?
    case Poll(t) => s.pcs[t].Wait?
    case TryPause(t) => s.pv && s.pcs[t].Wait?
    case Pause(t) => s.pcs[t].PauseCall? && s.spins[t] != SpinPaused
    case Release(t) => s.pcs[t].Holding?
    case CasTailNull(t) => s.pcs[t].CasTail?
    case PollNext(t) => s.pcs[t].SpinNext?
    case Pass(t) => s.pcs[t].Handoff?
    case ReadNextPid(t) => s.pcs[t].ReadNext?
    case StoreUnlocked(t) => s.pcs[t].SetNext?
    case Kick(t) => s.pcs[t].KickCall?
    case StrayKick(t) => s.pv
  }

  /** __vemu_pv_spin_kick: wake a paused processor, or leave the kick for its next pause. */
  function KickProcessor(s: State, p: Tid): State
    requires Shape(s) && p < |s.pcs|
  {
    if s.spins[p] == SpinPaused then
      s.(spins := s.spins[p := SpinNone], pcs := s.pcs[p := Wait])
    else
      s.(spins := s.spins[p := SpinKicked])
  }

  function Apply(s: State, a: Action): State
    requires Shape(s) && Enabled(s, a)
  {
    match a
    case Begin(t) =>
      s.(nodes := s.nodes[t := Node(None, Locked, t)], pcs := s.pcs[t := Begun])
    case Exchange(t) =>
      var s1 := s.(tail := Some(t), queue := s.queue + [t], order := s.order + [t]);
      match s.tail {
        case None => s1.(pcs := s.pcs[t := Holding], acquired := s.acquired + [t])
        case Some(prev) =>
          s1.(pcs := s.pcs[t := if s.pv then ReadPrev(prev) else LinkPrev(prev)])
      }
    case ReadPrevPid(t) =>
      s.(pcs := s.pcs[t := LinkPrev(s.pcs[t].prev)])
    case Link(t) =>
      var prev := s.pcs[t].prev;
      s.(nodes := s.nodes[prev := s.nodes[prev].(next := Some(t))], pcs := s.pcs[t := Wait])
    case Poll(t) =>
      if s.nodes[t].flag == Unlocked then s.(pcs := s.pcs[t := Holding], acquired := s.acquired + [t]) else s
    case TryPause(t) =>
      if s.nodes[t].flag == Locked
      then s.(nodes := s.nodes[t := s.nodes[t].(flag := Paused)], pcs := s.pcs[t := PauseCall]) else s
    case Pause(t) =>
      if s.spins[t] == SpinKicked
      then s.(spins := s.spins[t := SpinNone], pcs := s.pcs[t := Wait])
      else s.(spins := s.spins[t := SpinPaused], pcs := s.pcs[t := Blocked])
    case Release(t) =>
      match s.nodes[t].next {
        case None => s.(pcs := s.pcs[t := CasTail])
        case Some(next) => s.(pcs := s.pcs[t := Handoff(next)])
      }
    case CasTailNull(t) =>
      if s.tail == Some(t)
      then s.(tail := None, pcs := s.pcs[t := Out], queue := Tail(s.queue))
      else s.(pcs := s.pcs[t := SpinNext])
    case PollNext(t) =>
      match s.nodes[t].next {
        case None => s
        case Some(next) => s.(pcs := s.pcs[t := Handoff(next)])
      }
    case Pass(t) =>
      var next := s.pcs[t].next;
      if s.pv && s.nodes[next].flag != Locked then s.(pcs := s.pcs[t := ReadNext(next)])
      else Publish(s, t, next, Out)
    case ReadNextPid(t) =>
      var next := s.pcs[t].next;
      s.(pcs := s.pcs[t := SetNext(next, s.nodes[next].pid)])
    case StoreUnlocked(t) =>
      Publish(s, t, s.pcs[t].next, KickCall(s.pcs[t].pid))
    case Kick(t) =>
      KickProcessor(s.(pcs := s.pcs[t := Out]), s.pcs[t].pid)
    case StrayKick(t) =>
      KickProcessor(s, t)
  }

  /** next->state = MCS_UNLOCKED: from here on the lock is next's. */
  function Publish(s: State, t: Tid, next: Tid, pc: Pc): State
    requires Shape(s) && t < |s.pcs| && next < |s.pcs|
  {
    s.(nodes := s.nodes[next := s.nodes[next].(flag := Unlocked)], pcs := s.pcs[t := pc],
       queue := Tail(s.queue))
  }

  // ---------------------------------------------------------------------------
  // The invariant, stated against the queue of exchanges
  // ---------------------------------------------------------------------------

  predicate Waiting(pc: Pc) { pc.ReadPrev? || pc.LinkPrev? || pc.Wait? || pc.PauseCall? || pc.Blocked? }
  predicate Owning(pc: Pc) {
    pc.Holding? || pc.CasTail? || pc.SpinNext? || pc.Handoff? || pc.ReadNext? || pc.SetNext?
  }
  predicate Passing(pc: Pc) { pc.Handoff? || pc.ReadNext? || pc.SetNext? }
  predicate Unlinked(pc: Pc) { pc.ReadPrev? || pc.LinkPrev? }
  predicate InQueue(pc: Pc) { Waiting(pc) || Owning(pc) }

  /** What holds of a thread on its own. */
  predicate ThreadOk(pv: bool, t: Tid, pc: Pc, node: Node, spin: Spin) {
    && (spin == SpinPaused <==> pc.Blocked?)
    && (!pc.Out? ==> node.pid == t)
    && (pc.Begun? ==> node == Node(None, Locked, t))
    && (!pv ==> node.flag != Paused && !pc.ReadPrev? && !pc.PauseCall? && !pc.Blocked?)
  }

  /** A thread behind `prev` in the queue: a waiter, linked from prev once it has stored the link. */
  predicate BehindOk(me: Tid, pc: Pc, node: Node, prev: Tid, prevNode: Node) {
    && Waiting(pc)
    && (if Unlinked(pc) then pc.prev == prev && prevNode.next == None && node.flag == Locked
        else prevNode.next == Some(me))
    && node.flag != Unlocked
    && (pc.PauseCall? || pc.Blocked? ==> node.flag == Paused)
  }

  /** The head of the queue: the owner, or a waiter that was given the lock and has not noticed. */
  predicate HeadOk(pc: Pc, node: Node) {
    InQueue(pc) && !Unlinked(pc) && (Waiting(pc) ==> node.flag == Unlocked)
  }

  /** The owner on its way to pass the lock to the second in the queue. */
  predicate PassOk(pc: Pc, node: Node, second: Tid, secondNode: Node) {
    && (Passing(pc) ==> pc.next == second && node.next == Some(second))
    && (pc.ReadNext? || pc.SetNext? ==> secondNode.flag == Paused)
    && (pc.SetNext? ==> pc.pid == second)
  }

  predicate Thread(s: State, t: Tid)
    requires Shape(s) && t < |s.pcs|
  {
    ThreadOk(s.pv, t, s.pcs[t], s.nodes[t], s.spins[t])
  }

  ghost predicate ThreadsInv(s: State)
    requires Shape(s)
  {
    forall t: Tid :: t < |s.pcs| ==> Thread(s, t)
  }

  predicate Member(s: State, t: Tid)
    requires t < |s.pcs|
  {
    InQueue(s.pcs[t]) <==> t in s.queue
  }

  ghost predicate MembersInv(s: State) {
    && NoDup(s.queue)
    && (forall i :: 0 <= i < |s.queue| ==> s.queue[i] < |s.pcs|)
    && (forall t: Tid :: t < |s.pcs| ==> Member(s, t))
    && s.tail == (if s.queue == [] then None else Some(s.queue[|s.queue| - 1]))
  }

  predicate Behind(s: State, i: nat)
    requires Shape(s) && 0 < i < |s.queue| && s.queue[i] < |s.pcs| && s.queue[i - 1] < |s.pcs|
  {
    var me, prev := s.queue[i], s.queue[i - 1];
    BehindOk(me, s.pcs[me], s.nodes[me], prev, s.nodes[prev])
  }

  predicate Front(s: State)
    requires Shape(s) && s.queue != [] && (forall i :: 0 <= i < |s.queue| ==> s.queue[i] < |s.pcs|)
  {
    var q := s.queue;
    var h := q[0];
    && HeadOk(s.pcs[h], s.nodes[h])
    && (|q| == 1 ==> !Passing(s.pcs[h]) && !s.pcs[h].SpinNext?)
    && (|q| >= 2 ==> PassOk(s.pcs[h], s.nodes[h], q[1], s.nodes[q[1]]))
    && s.nodes[q[|q| - 1]].next == None
  }

  ghost predicate LinksInv(s: State)
    requires Shape(s) && MembersInv(s)
  {
    && (forall i: nat :: 0 < i < |s.queue| ==> Behind(s, i))
    && (s.queue != [] ==> Front(s))
  }

  /** A kick for processor p is recorded or on its way. */
  ghost predicate KickDue(s: State, p: Tid)
    requires Shape(s) && p < |s.pcs|
  {
    s.spins[p] == SpinKicked || exists u :: 0 <= u < |s.pcs| && s.pcs[u] == KickCall(p)
  }

  /** No lost wake-up: a thread that was given the lock while pausing has a kick due. */
  ghost predicate WakeInv(s: State)
    requires Shape(s) && MembersInv(s)
  {
    s.queue != [] && (s.pcs[s.queue[0]].Blocked? || s.pcs[s.queue[0]].PauseCall?) ==> KickDue(s, s.queue[0])
  }

  ghost predicate FifoInv(s: State)
    requires Shape(s) && MembersInv(s)
  {
    s.order == s.acquired + (if s.queue != [] && Owning(s.pcs[s.queue[0]]) then s.queue[1..] else s.queue)
  }

  ghost predicate Inv(s: State) {
    Shape(s) && ThreadsInv(s) && MembersInv(s) && LinksInv(s) && WakeInv(s) && FifoInv(s)
  }

  lemma InitInv(pv: bool, n: nat)
    ensures Inv(Init(pv, n))
  {
  }

  // ---------------------------------------------------------------------------
  // Where a thread stands in the queue
  // ---------------------------------------------------------------------------

  lemma BehindWaits(s: State)
    requires Shape(s) && MembersInv(s) && LinksInv(s)
    ensures forall i :: 0 < i < |s.queue| ==> Waiting(s.pcs[s.queue[i]])
  {
    forall i | 0 < i < |s.queue| ensures Waiting(s.pcs[s.queue[i]]) { assert Behind(s, i); }
  }

  /** A thread past its acquisition and before the hand-over is the head of the queue. */
  lemma OwnerIsHead(s: State, t: Tid)
    requires Shape(s) && MembersInv(s) && LinksInv(s) && t < |s.pcs| && Owning(s.pcs[t])
    ensures s.queue != [] && s.queue[0] == t
  {
    assert Member(s, t);
    BehindWaits(s);
  }

  lemma WaiterPos(s: State, t: Tid) returns (i: nat)
    requires Shape(s) && MembersInv(s) && LinksInv(s) && t < |s.pcs| && Waiting(s.pcs[t])
    ensures i < |s.queue| && s.queue[i] == t
    ensures i > 0 ==> Behind(s, i)
    ensures Unlinked(s.pcs[t]) ==> i > 0 && s.pcs[t].prev == s.queue[i - 1]
  {
    assert Member(s, t);
    i :| 0 <= i < |s.queue| && s.queue[i] == t;
    if i > 0 { assert Behind(s, i); }
  }

  // ---------------------------------------------------------------------------
  // Every step keeps the invariant
  // ---------------------------------------------------------------------------

  predicate LockSide(a: Action) {
    a.Begin? || a.Exchange? || a.ReadPrevPid? || a.Link? || a.Poll? || a.TryPause? || a.Pause?
  }

  lemma StepShape(s: State, a: Action)
    requires Shape(s) && Enabled(s, a)
    ensures Shape(Apply(s, a)) && |Apply(s, a).pcs| == |s.pcs| && Apply(s, a).pv == s.pv
  {
    if LockSide(a) {
      ShapeLock(s, a);
    } else if a.Kick? || a.StrayKick? {
      ShapeKick(s, a);
    } else {
      ShapeUnlock(s, a);
    }
  }

  lemma ShapeLock(s: State, a: Action)
    requires Shape(s) && Enabled(s, a) && LockSide(a)
    ensures Shape(Apply(s, a)) && |Apply(s, a).pcs| == |s.pcs| && Apply(s, a).pv == s.pv
  {
  }

  lemma ShapeKick(s: State, a: Action)
    requires Shape(s) && Enabled(s, a) && (a.Kick? || a.StrayKick?)
    ensures Shape(Apply(s, a)) && |Apply(s, a).pcs| == |s.pcs| && Apply(s, a).pv == s.pv
  {
  }

  lemma ShapeUnlock(s: State, a: Action)
    requires Shape(s) && Enabled(s, a) && !LockSide(a) && !a.Kick? && !a.StrayKick?
    ensures Shape(Apply(s, a)) && |Apply(s, a).pcs| == |s.pcs| && Apply(s, a).pv == s.pv
  {
    var s' := Apply(s, a);
    assert s'.pcs == s.pcs[a.t := s'.pcs[a.t]] && PcInRange(s'.pcs[a.t], |s.pcs|);
    if a.Pass? || a.StoreUnlocked? {
      var u := s.pcs[a.t].next;
      assert s'.nodes == s.nodes[u := s'.nodes[u]] && NodeInRange(s'.nodes[u], |s.pcs|);
    } else {
      assert s'.nodes == s.nodes;
    }
  }

  /** The other thread whose node a step reads or writes. */
  function Touched(s: State, a: Action): Option<Tid>
    requires Shape(s) && Enabled(s, a)
  {
    match a
    case ReadPrevPid(t) => Some(s.pcs[t].prev)
    case Link(t) => Some(s.pcs[t].prev)
    case Pass(t) => Some(s.pcs[t].next)
    case ReadNextPid(t) => Some(s.pcs[t].next)
    case StoreUnlocked(t) => Some(s.pcs[t].next)
    case _ => None
  }

  lemma TouchedInQueue(s: State, a: Action)
    requires Shape(s) && MembersInv(s) && LinksInv(s) && Enabled(s, a) && Touched(s, a).Some?
    ensures Touched(s, a).value in s.queue && InQueue(s.pcs[Touched(s, a).value])
    ensures Touched(s, a).value != a.t
  {
    var u := Touched(s, a).value;
    if Unlinked(s.pcs[a.t]) {
      var i := WaiterPos(s, a.t);
      assert u == s.queue[i - 1];
    } else {
      OwnerIsHead(s, a.t);
      assert u == s.queue[1];
    }
    assert Member(s, u);
  }

  lemma StepThreads(s: State, a: Action)
    requires Shape(s) && ThreadsInv(s) && Enabled(s, a) && Shape(Apply(s, a))
    requires Touched(s, a).Some? ==> InQueue(s.pcs[Touched(s, a).value])
    ensures ThreadsInv(Apply(s, a))
  {
    forall t: Tid | t < |s.pcs| ensures Thread(Apply(s, a), t) {
      assert Thread(s, t);
      if t == a.t {
        StepActor(s, a);
      } else {
        StepBystander(s, a, t);
      }
    }
  }

  lemma StepActor(s: State, a: Action)
    requires Shape(s) && Enabled(s, a) && Shape(Apply(s, a)) && Thread(s, a.t)
    requires Touched(s, a) != Some(a.t) || InQueue(s.pcs[a.t])
    ensures Thread(Apply(s, a), a.t)
  {
    if LockSide(a) { ActorLock(s, a); } else { ActorUnlock(s, a); }
  }

  lemma ActorLock(s: State, a: Action)
    requires Shape(s) && Enabled(s, a) && Shape(Apply(s, a)) && Thread(s, a.t) && LockSide(a)
    requires Touched(s, a) != Some(a.t) || InQueue(s.pcs[a.t])
    ensures Thread(Apply(s, a), a.t)
  {
  }

  lemma ActorUnlock(s: State, a: Action)
    requires Shape(s) && Enabled(s, a) && Shape(Apply(s, a)) && Thread(s, a.t) && !LockSide(a)
    requires Touched(s, a) != Some(a.t) || InQueue(s.pcs[a.t])
    ensures Thread(Apply(s, a), a.t)
  {
  }

  lemma StepBystander(s: State, a: Action, t: Tid)
    requires Shape(s) && Enabled(s, a) && Shape(Apply(s, a)) && t < |s.pcs| && t != a.t && Thread(s, t)
    requires Touched(s, a) == Some(t) ==> InQueue(s.pcs[t])
    ensures Thread(Apply(s, a), t)
  {
    if !a.Kick? { BystanderNode(s, a, t); }
  }

  /** Only a kick reaches another thread's state, and only its link and its flag are written. */
  lemma BystanderNode(s: State, a: Action, t: Tid)
    requires Shape(s) && Enabled(s, a) && Shape(Apply(s, a)) && t < |s.pcs| && t != a.t && !a.Kick?
    ensures var s' := Apply(s, a);
      && s'.pv == s.pv && s'.pcs[t] == s.pcs[t] && s'.spins[t] == s.spins[t] && s'.nodes[t].pid == s.nodes[t].pid
      && (Touched(s, a) != Some(t) ==> s'.nodes[t] == s.nodes[t])
      && (s'.nodes[t].flag == s.nodes[t].flag || s'.nodes[t].flag == Unlocked)
  {
  }

  /** The step that passes the lock on, or gives it up for want of a successor. */
  predicate Leaves(s: State, a: Action)
    requires Shape(s) && Enabled(s, a)
  {
    || (a.CasTailNull? && s.tail == Some(a.t))
    || (a.Pass? && !(s.pv && s.nodes[s.pcs[a.t].next].flag != Locked))
    || a.StoreUnlocked?
  }

  lemma StepMembers(s: State, a: Action)
    requires Shape(s) && MembersInv(s) && LinksInv(s) && ThreadsInv(s) && Enabled(s, a)
    ensures MembersInv(Apply(s, a))
  {
    if a.Exchange? {
      MembersJoin(s, a.t);
    } else if Leaves(s, a) {
      OwnerIsHead(s, a.t);
      MembersLeave(s, a);
    } else {
      MembersSame(s, a);
    }
  }

  lemma MembersSame(s: State, a: Action)
    requires Shape(s) && MembersInv(s) && ThreadsInv(s) && Enabled(s, a) && !a.Exchange? && !Leaves(s, a)
    ensures MembersInv(Apply(s, a))
  {
    var s' := Apply(s, a);
    SameClass(s, a);
    forall t: Tid | t < |s'.pcs| ensures Member(s', t) { assert Member(s, t); }
  }

  lemma SameClass(s: State, a: Action)
    requires Shape(s) && ThreadsInv(s) && Enabled(s, a) && !a.Exchange? && !Leaves(s, a)
    ensures var s' := Apply(s, a);
      && s'.queue == s.queue && s'.tail == s.tail && |s'.pcs| == |s.pcs|
      && (forall t :: 0 <= t < |s.pcs| ==> InQueue(s'.pcs[t]) == InQueue(s.pcs[t]))
  {
    if a.Kick? { assert Thread(s, s.pcs[a.t].pid); }
    assert Thread(s, a.t);
  }

  lemma MembersJoin(s: State, t: Tid)
    requires Shape(s) && MembersInv(s) && Enabled(s, Exchange(t))
    ensures MembersInv(Apply(s, Exchange(t)))
  {
    var s' := Apply(s, Exchange(t));
    assert Member(s, t);
    forall u: Tid | u < |s'.pcs| ensures Member(s', u) { assert Member(s, u); }
  }

  lemma MembersLeave(s: State, a: Action)
    requires Shape(s) && MembersInv(s) && LinksInv(s) && Enabled(s, a) && Leaves(s, a)
    requires s.queue != [] && s.queue[0] == a.t
    ensures MembersInv(Apply(s, a))
  {
    var s' := Apply(s, a);
    assert s.queue == [a.t] + s'.queue;
    assert a.t !in s'.queue;
    forall u: Tid | u < |s'.pcs| ensures Member(s', u) { assert Member(s, u); }
    assert a.CasTailNull? <==> |s.queue| == 1;
  }

  lemma StepLinks(s: State, a: Action)
    requires Inv(s) && Enabled(s, a) && Shape(Apply(s, a)) && MembersInv(Apply(s, a))
    ensures LinksInv(Apply(s, a))
  {
    if a.Exchange? {
      LinksJoin(s, a.t);
    } else if Leaves(s, a) {
      OwnerIsHead(s, a.t);
      LinksLeave(s, a);
    } else {
      LinksStay(s, a);
    }
  }

  lemma LinksStay(s: State, a: Action)
    requires Inv(s) && Enabled(s, a) && Shape(Apply(s, a)) && MembersInv(Apply(s, a))
    requires !a.Exchange? && !Leaves(s, a)
    ensures LinksInv(Apply(s, a))
  {
    if a.Link? {
      LinksLink(s, a.t);
    } else if a.Kick? {
      LinksKicker(s, a.t);
    } else if a.StrayKick? {
      assert Thread(s, a.t);
      LinksKick(s, a.t);
    } else if a.Begin? {
      assert Member(s, a.t);
      LinksUnqueued(s, Apply(s, a), a.t);
    } else if Waiting(s.pcs[a.t]) {
      LinksWaiter(s, a);
    } else {
      LinksOwner(s, a);
    }
  }

  lemma LinksJoin(s: State, t: Tid)
    requires Inv(s) && Enabled(s, Exchange(t)) && Shape(Apply(s, Exchange(t))) && MembersInv(Apply(s, Exchange(t)))
    ensures LinksInv(Apply(s, Exchange(t)))
  {
    var s' := Apply(s, Exchange(t));
    assert Thread(s, t) && Member(s, t);
    forall i: nat | 0 < i < |s'.queue| ensures Behind(s', i) {
      if i < |s.queue| { assert Behind(s, i); }
    }
  }

  lemma LinksLeave(s: State, a: Action)
    requires Inv(s) && Enabled(s, a) && Leaves(s, a) && Shape(Apply(s, a)) && MembersInv(Apply(s, a))
    requires s.queue != [] && s.queue[0] == a.t
    ensures LinksInv(Apply(s, a))
  {
    var s' := Apply(s, a);
    if |s.queue| >= 2 {
      assert Behind(s, 1);
    }
    forall i: nat | 0 < i < |s'.queue| ensures Behind(s', i) {
      assert Behind(s, i + 1);
    }
  }

  lemma LinksLink(s: State, t: Tid)
    requires Inv(s) && Enabled(s, Link(t)) && Shape(Apply(s, Link(t))) && MembersInv(Apply(s, Link(t)))
    ensures LinksInv(Apply(s, Link(t)))
  {
    var s' := Apply(s, Link(t));
    var k := WaiterPos(s, t);
    forall i: nat | 0 < i < |s'.queue| ensures Behind(s', i) {
      assert Behind(s, i);
    }
  }

  /** Nothing about the queue depends on a thread outside it. */
  lemma LinksUnqueued(s: State, s': State, t: Tid)
    requires Shape(s) && MembersInv(s) && LinksInv(s) && t < |s.pcs| && t !in s.queue
    requires Shape(s') && MembersInv(s') && s'.queue == s.queue && |s'.pcs| == |s.pcs|
    requires forall u :: 0 <= u < |s.pcs| && u != t ==> s'.pcs[u] == s.pcs[u] && s'.nodes[u] == s.nodes[u]
    ensures LinksInv(s')
  {
    forall i: nat | 0 < i < |s'.queue| ensures Behind(s', i) {
      assert Behind(s, i);
    }
  }

  lemma LinksKick(s: State, p: Tid)
    requires Shape(s) && MembersInv(s) && LinksInv(s) && p < |s.pcs|
    requires s.spins[p] == SpinPaused ==> s.pcs[p].Blocked?
    requires Shape(KickProcessor(s, p)) && MembersInv(KickProcessor(s, p))
    ensures LinksInv(KickProcessor(s, p))
  {
    var s' := KickProcessor(s, p);
    forall i: nat | 0 < i < |s'.queue| ensures Behind(s', i) {
      assert Behind(s, i);
    }
  }

  lemma KickerOut(s: State, t: Tid)
    requires Shape(s) && MembersInv(s) && t < |s.pcs| && s.pcs[t].KickCall?
    ensures Shape(s.(pcs := s.pcs[t := Out])) && MembersInv(s.(pcs := s.pcs[t := Out]))
  {
    var s1 := s.(pcs := s.pcs[t := Out]);
    forall u: Tid | u < |s1.pcs| ensures Member(s1, u) { assert Member(s, u); }
  }

  lemma LinksKicker(s: State, t: Tid)
    requires Shape(s) && ThreadsInv(s) && MembersInv(s) && LinksInv(s) && Enabled(s, Kick(t))
    requires Shape(Apply(s, Kick(t))) && MembersInv(Apply(s, Kick(t)))
    ensures LinksInv(Apply(s, Kick(t)))
  {
    var s1 := s.(pcs := s.pcs[t := Out]);
    assert Member(s, t) && Thread(s, s.pcs[t].pid) && Thread(s, t);
    KickerOut(s, t);
    LinksUnqueued(s, s1, t);
    LinksKick(s1, s.pcs[t].pid);
  }

  lemma LinksWaiter(s: State, a: Action)
    requires Shape(s) && ThreadsInv(s) && MembersInv(s) && LinksInv(s)
    requires Enabled(s, a) && Shape(Apply(s, a)) && MembersInv(Apply(s, a))
    requires Waiting(s.pcs[a.t]) && !a.Link? && !a.StrayKick?
    ensures LinksInv(Apply(s, a))
  {
    var k := WaiterPos(s, a.t);
    assert Thread(s, a.t);
    WaiterStep(s, a);
    WaiterMoves(s, Apply(s, a), k);
  }

  /** What a waiter's own step does, wherever it stands. */
  lemma WaiterStep(s: State, a: Action)
    requires Shape(s) && Enabled(s, a) && Shape(Apply(s, a)) && Thread(s, a.t)
    requires Waiting(s.pcs[a.t]) && !a.Link? && !a.StrayKick?
    ensures var s', t := Apply(s, a), a.t;
      && s'.queue == s.queue && |s'.pcs| == |s.pcs|
      && (forall u :: 0 <= u < |s.pcs| && u != t ==> s'.pcs[u] == s.pcs[u] && s'.nodes[u] == s.nodes[u])
      && s'.nodes[t].next == s.nodes[t].next && !Passing(s'.pcs[t]) && !s'.pcs[t].SpinNext?
      && (s.nodes[t].flag == Paused ==> s'.nodes[t].flag == Paused)
      && (HeadOk(s.pcs[t], s.nodes[t]) ==> HeadOk(s'.pcs[t], s'.nodes[t]))
      && (forall v, prev :: 0 <= v < |s.pcs| && BehindOk(t, s.pcs[t], s.nodes[t], prev, s.nodes[v]) && v != t ==>
            BehindOk(t, s'.pcs[t], s'.nodes[t], prev, s'.nodes[v]))
  {
  }

  /** A waiter that moves on without touching its link. */
  lemma WaiterMoves(s: State, s': State, k: nat)
    requires Shape(s) && MembersInv(s) && LinksInv(s) && Shape(s') && MembersInv(s')
    requires s'.queue == s.queue && |s'.pcs| == |s.pcs| && k < |s.queue|
    requires forall u :: 0 <= u < |s.pcs| && u != s.queue[k] ==> s'.pcs[u] == s.pcs[u] && s'.nodes[u] == s.nodes[u]
    requires s'.nodes[s.queue[k]].next == s.nodes[s.queue[k]].next
    requires s.pcs[s.queue[k]] == s'.pcs[s.queue[k]] || !Passing(s'.pcs[s.queue[k]])
    requires k > 0 ==> Behind(s', k)
    requires k == 0 ==> HeadOk(s'.pcs[s.queue[0]], s'.nodes[s.queue[0]]) && !s'.pcs[s.queue[0]].SpinNext?
    requires k == 1 ==> (s.nodes[s.queue[1]].flag == Paused ==> s'.nodes[s.queue[1]].flag == Paused)
    ensures LinksInv(s')
  {
    forall i: nat | 0 < i < |s'.queue| ensures Behind(s', i) {
      OthersBehind(s, s', k, i);
    }
    assert s.queue[0] == s.queue[k] <==> k == 0;
    assert |s.queue| >= 2 ==> (s.queue[1] == s.queue[k] <==> k == 1);
  }

  lemma OthersBehind(s: State, s': State, k: nat, i: nat)
    requires Shape(s) && MembersInv(s) && LinksInv(s) && Shape(s')
    requires s'.queue == s.queue && |s'.pcs| == |s.pcs| && k < |s.queue| && 0 < i < |s.queue|
    requires forall u :: 0 <= u < |s.pcs| && u != s.queue[k] ==> s'.pcs[u] == s.pcs[u] && s'.nodes[u] == s.nodes[u]
    requires s'.nodes[s.queue[k]].next == s.nodes[s.queue[k]].next
    requires k > 0 ==> Behind(s', k)
    ensures Behind(s', i)
  {
    assert Behind(s, i);
    assert s.queue[i] == s.queue[k] <==> i == k;
  }

  lemma LinksOwner(s: State, a: Action)
    requires Shape(s) && ThreadsInv(s) && MembersInv(s) && LinksInv(s)
    requires Enabled(s, a) && Shape(Apply(s, a)) && MembersInv(Apply(s, a))
    requires !Leaves(s, a) && Owning(s.pcs[a.t]) && !a.StrayKick?
    ensures LinksInv(Apply(s, a))
  {
    OwnerIsHead(s, a.t);
    if |s.queue| > 1 {
      assert Behind(s, 1) && Thread(s, s.queue[1]);
    }
    OwnerMoves(s, Apply(s, a));
  }

  /** An owner that moves on without passing the lock changes nothing but where it stands. */
  lemma OwnerMoves(s: State, s': State)
    requires Shape(s) && MembersInv(s) && LinksInv(s) && Shape(s') && MembersInv(s')
    requires s.queue != [] && s'.queue == s.queue && s'.nodes == s.nodes
    requires |s'.pcs| == |s.pcs| && s'.pcs == s.pcs[s.queue[0] := s'.pcs[s.queue[0]]]
    requires Owning(s'.pcs[s.queue[0]])
    requires |s.queue| == 1 ==> !Passing(s'.pcs[s.queue[0]]) && !s'.pcs[s.queue[0]].SpinNext?
    requires |s.queue| > 1 ==> PassOk(s'.pcs[s.queue[0]], s.nodes[s.queue[0]], s.queue[1], s.nodes[s.queue[1]])
    ensures LinksInv(s')
  {
    forall i: nat | 0 < i < |s'.queue| ensures Behind(s', i) {
      assert Behind(s, i);
    }
  }

  lemma StepWake(s: State, a: Action)
    requires Inv(s) && Enabled(s, a) && Shape(Apply(s, a)) && MembersInv(Apply(s, a))
    ensures WakeInv(Apply(s, a))
  {
    var s' := Apply(s, a);
    assert Thread(s, a.t);
    if Leaves(s, a) {
      OwnerIsHead(s, a.t);
      if |s.queue| >= 2 { assert Behind(s, 1) && Thread(s, s.queue[1]); }
      if a.StoreUnlocked? { assert s'.pcs[a.t] == KickCall(s'.queue[0]); }
    } else if s'.queue != [] && (s'.pcs[s'.queue[0]].Blocked? || s'.pcs[s'.queue[0]].PauseCall?) {
      WakeStays(s, a);
    }
  }

  /** A kick that is due stays due until the thread it is for has taken it. */
  lemma WakeStays(s: State, a: Action)
    requires Inv(s) && Enabled(s, a) && Shape(Apply(s, a)) && MembersInv(Apply(s, a)) && !Leaves(s, a)
    requires Apply(s, a).queue != []
    requires var s' := Apply(s, a); s'.pcs[s'.queue[0]].Blocked? || s'.pcs[s'.queue[0]].PauseCall?
    ensures KickDue(Apply(s, a), Apply(s, a).queue[0])
  {
    var h := Apply(s, a).queue[0];
    assert s.queue == [] ==> a.Exchange? && h == a.t;
    assert s.queue != [] && s.queue[0] == h;
    assert Thread(s, h);
    HeadStaysPaused(s, a, h);
    KickDueStays(s, a, h);
  }

  lemma HeadStaysPaused(s: State, a: Action, h: Tid)
    requires Shape(s) && Enabled(s, a) && Shape(Apply(s, a)) && h < |s.pcs|
    requires s.pcs[h].Wait? ==> s.nodes[h].flag == Unlocked
    requires Apply(s, a).pcs[h].Blocked? || Apply(s, a).pcs[h].PauseCall?
    ensures s.pcs[h].Blocked? || s.pcs[h].PauseCall?
  {
  }

  lemma KickDueStays(s: State, a: Action, h: Tid)
    requires Shape(s) && ThreadsInv(s) && Enabled(s, a) && Shape(Apply(s, a)) && h < |s.pcs| && KickDue(s, h)
    requires s.pcs[h].Blocked? || s.pcs[h].PauseCall?
    requires Apply(s, a).pcs[h].Blocked? || Apply(s, a).pcs[h].PauseCall?
    ensures KickDue(Apply(s, a), h)
  {
    var s' := Apply(s, a);
    assert Thread(s, h);
    if s.spins[h] != SpinKicked {
      var u :| 0 <= u < |s.pcs| && s.pcs[u] == KickCall(h);
      assert Thread(s, u);
      assert s'.spins[h] == SpinKicked || s'.pcs[u] == KickCall(h);
    }
  }

  lemma StepFifo(s: State, a: Action)
    requires Inv(s) && Enabled(s, a) && Shape(Apply(s, a)) && MembersInv(Apply(s, a))
    ensures FifoInv(Apply(s, a))
  {
    if a.Exchange? {
      FifoJoin(s, a.t);
    } else if Owning(s.pcs[a.t]) && !a.StrayKick? {
      FifoOwner(s, a);
    } else if a.Poll? {
      FifoPoll(s, a.t);
    } else {
      FifoOther(s, a);
    }
  }

  lemma FifoJoin(s: State, t: Tid)
    requires Inv(s) && Enabled(s, Exchange(t)) && Shape(Apply(s, Exchange(t))) && MembersInv(Apply(s, Exchange(t)))
    ensures FifoInv(Apply(s, Exchange(t)))
  {
    assert Member(s, t);
    if s.queue != [] {
      assert (s.queue + [t])[1..] == s.queue[1..] + [t];
    } else {
      assert ([] + [t])[1..] == [];
    }
  }

  lemma FifoOwner(s: State, a: Action)
    requires Inv(s) && Enabled(s, a) && Shape(Apply(s, a)) && MembersInv(Apply(s, a))
    requires Owning(s.pcs[a.t]) && !a.StrayKick?
    ensures FifoInv(Apply(s, a))
  {
    OwnerIsHead(s, a.t);
    if |s.queue| >= 2 { assert Behind(s, 1); }
  }

  lemma FifoPoll(s: State, t: Tid)
    requires Inv(s) && Enabled(s, Poll(t)) && Shape(Apply(s, Poll(t))) && MembersInv(Apply(s, Poll(t)))
    ensures FifoInv(Apply(s, Poll(t)))
  {
    var i := WaiterPos(s, t);
    if s.nodes[t].flag == Unlocked {
      assert i == 0;
      assert s.queue == [t] + s.queue[1..];
    }
  }

  lemma FifoOther(s: State, a: Action)
    requires Inv(s) && Enabled(s, a) && Shape(Apply(s, a)) && MembersInv(Apply(s, a))
    requires !a.Exchange? && !a.Poll? && (!Owning(s.pcs[a.t]) || a.StrayKick?)
    ensures FifoInv(Apply(s, a))
  {
    if s.queue != [] {
      assert Thread(s, s.queue[0]);
      OwningStays(s, a, s.queue[0]);
    }
  }

  lemma OwningStays(s: State, a: Action, h: Tid)
    requires Shape(s) && Enabled(s, a) && h < |s.pcs| && Thread(s, h)
    requires !a.Exchange? && !a.Poll? && (!Owning(s.pcs[a.t]) || a.StrayKick?)
    ensures var s' := Apply(s, a);
      && s'.queue == s.queue && s'.acquired == s.acquired && s'.order == s.order && |s'.pcs| == |s.pcs|
      && (Owning(s'.pcs[h]) <==> Owning(s.pcs[h]))
  {
  }

  lemma StepInv(s: State, a: Action)
    requires Inv(s) && Enabled(s, a)
    ensures Inv(Apply(s, a))
  {
    StepShape(s, a);
    StepMembers(s, a);
    if Touched(s, a).Some? { TouchedInQueue(s, a); }
    StepThreads(s, a);
    StepLinks(s, a);
    StepWake(s, a);
    StepFifo(s, a);
  }

  // ---------------------------------------------------------------------------
  // Main results, over every run of any number of threads
  // ---------------------------------------------------------------------------

  ghost predicate EnabledRun(s: State, acts: seq<Action>)
    requires Inv(s)
    decreases |acts|
  {
    acts == [] || (Enabled(s, acts[0]) && (StepInv(s, acts[0]); EnabledRun(Apply(s, acts[0]), acts[1..])))
  }

  ghost function Run(s: State, acts: seq<Action>): (s': State)
    requires Inv(s) && EnabledRun(s, acts)
    ensures Inv(s')
    decreases |acts|
  {
    if acts == [] then s else (StepInv(s, acts[0]); Run(Apply(s, acts[0]), acts[1..]))
  }

  ghost predicate Reachable(s: State) {
    exists pv: bool, n: nat, acts: seq<Action> ::
      Inv(Init(pv, n)) && EnabledRun(Init(pv, n), acts) && s == Run(Init(pv, n), acts)
  }

  /** At most one thread is between acquiring the lock and handing it over. */
  lemma MutualExclusion(s: State, t: Tid, u: Tid)
    requires Reachable(s) && t < |s.pcs| && u < |s.pcs|
    requires Owning(s.pcs[t]) && Owning(s.pcs[u])
    ensures t == u
  {
    OwnerIsHead(s, t);
    OwnerIsHead(s, u);
  }

  /** The critical section is entered in the order in which the tail was exchanged. */
  lemma Fifo(s: State)
    requires Reachable(s)
    ensures s.acquired <= s.order
  {
    assert FifoInv(s);
  }

  /** No step reads or writes the node of a thread whose unlock has returned: the node is that of the
      direct neighbour in the queue, which is still waiting for this very step or still owns the lock. */
  lemma NodeLifetime(s: State, a: Action)
    requires Reachable(s) && Shape(s) && Enabled(s, a) && Touched(s, a).Some?
    ensures var u := Touched(s, a).value;
      && InQueue(s.pcs[u])
      && exists i :: 0 < i < |s.queue| && {s.queue[i - 1], s.queue[i]} == {a.t, u}
  {
    TouchedInQueue(s, a);
    var u := Touched(s, a).value;
    if Unlinked(s.pcs[a.t]) {
      var i := WaiterPos(s, a.t);
      assert {s.queue[i - 1], s.queue[i]} == {a.t, u};
    } else {
      OwnerIsHead(s, a.t);
      assert {s.queue[1 - 1], s.queue[1]} == {a.t, u};
    }
  }

  predicate Moves(s: State, a: Action) {
    Shape(s) && Enabled(s, a) && Apply(s, a) != s && !a.Begin? && !a.Exchange? && !a.StrayKick? && !a.TryPause?
  }

  /** The unlocker that waits for its successor's link waits for a thread that can store it. */
  lemma SuccessorCanLink(s: State, t: Tid)
    requires Reachable(s) && t < |s.pcs| && s.pcs[t].SpinNext?
    ensures |s.queue| >= 2 && s.queue[0] == t && s.queue[1] < |s.pcs|
    ensures s.nodes[t].next == Some(s.queue[1]) || s.pcs[s.queue[1]].ReadPrev? || s.pcs[s.queue[1]].LinkPrev?
  {
    OwnerIsHead(s, t);
    assert Behind(s, 1);
  }

  /** No lost wake-up and no deadlock: while anyone queues for the lock, some thread has a step that
      is neither a failed poll nor a new arrival; in particular the new owner cannot sleep in the
      hypervisor without a kick on its way. */
  lemma Progress(s: State)
    requires Reachable(s) && s.queue != []
    ensures exists a :: Moves(s, a)
  {
    var h := s.queue[0];
    assert Thread(s, h);
    if s.pcs[h].Blocked? {
      KickMoves(s, h);
    } else if s.pcs[h].SpinNext? {
      SuccessorMoves(s, h);
    } else {
      assert Moves(s, HeadStep(s, h));
    }
  }

  lemma KickMoves(s: State, h: Tid)
    requires Shape(s) && h < |s.pcs| && s.pcs[h].Blocked? && s.spins[h] == SpinPaused && KickDue(s, h)
    ensures exists a :: Moves(s, a)
  {
    var u :| 0 <= u < |s.pcs| && s.pcs[u] == KickCall(h);
    assert Apply(s, Kick(u)).pcs[u] != s.pcs[u];
    assert Moves(s, Kick(u));
  }

  lemma SuccessorMoves(s: State, h: Tid)
    requires Reachable(s) && h < |s.pcs| && s.pcs[h].SpinNext?
    ensures exists a :: Moves(s, a)
  {
    SuccessorCanLink(s, h);
    var n := s.queue[1];
    var a := if s.pcs[n].ReadPrev? then ReadPrevPid(n) else if s.pcs[n].LinkPrev? then Link(n) else PollNext(h);
    assert Apply(s, a).pcs[a.t] != s.pcs[a.t];
    assert Moves(s, a);
  }

  /** The step of a head of the queue that neither sleeps nor waits for a link. */
  function HeadStep(s: State, h: Tid): (a: Action)
    requires Shape(s) && h < |s.pcs| && Thread(s, h) && HeadOk(s.pcs[h], s.nodes[h])
    requires !s.pcs[h].Blocked? && !s.pcs[h].SpinNext?
    ensures a.t == h && Enabled(s, a) && Apply(s, a).pcs[h] != s.pcs[h]
  {
    match s.pcs[h]
    case Wait => Poll(h)
    case PauseCall => Pause(h)
    case Holding => Release(h)
    case CasTail => CasTailNull(h)
    case Handoff(_) => Pass(h)
    case ReadNext(_) => ReadNextPid(h)
    case SetNext(_, _) => StoreUnlocked(h)
  }

  // ---------------------------------------------------------------------------
  // Sleeping, waking and handing over
  // ---------------------------------------------------------------------------

  /** A waiter that gives up spinning goes to sleep in the hypervisor, unless a kick has come for it before,
      which the attempt uses up. */
  lemma PauseSleeps(s: State, t: Tid)
    requires Reachable(s) && t < |s.pcs| && s.pv && s.pcs[t].Wait? && s.nodes[t].flag == Locked
    ensures Enabled(s, TryPause(t)) && var s1 := Apply(s, TryPause(t));
      && Shape(s1) && s1.nodes[t].flag == Paused && Enabled(s1, Pause(t))
      && var s2 := Apply(s1, Pause(t));
      && |s2.spins| == |s2.pcs| == |s.pcs|
      && (if s.spins[t] == SpinKicked then s2.pcs[t].Wait? && s2.spins[t] == SpinNone
          else s2.pcs[t].Blocked? && s2.spins[t] == SpinPaused)
  {
    assert Thread(s, t);
    StepShape(s, TryPause(t));
  }

  /** Asleep, it takes no step of its own and wakes by the first kick of its processor and by nothing else. */
  lemma SleepsUntilKicked(s: State, a: Action, t: Tid)
    requires Reachable(s) && Enabled(s, a) && t < |s.pcs| && s.pcs[t].Blocked?
    ensures |Apply(s, a).pcs| == |s.pcs|
    ensures a.t == t ==> a.StrayKick?
    ensures if a == StrayKick(t) || (a.Kick? && s.pcs[a.t].pid == t) then Apply(s, a).pcs[t].Wait?
            else Apply(s, a).pcs[t].Blocked?
  {
    assert Thread(s, t);
    if !a.Kick? && !a.StrayKick? { OthersLeftAlone(s, a, t); }
  }

  lemma OthersLeftAlone(s: State, a: Action, t: Tid)
    requires Shape(s) && Enabled(s, a) && t < |s.pcs| && a.t != t && !a.Kick? && !a.StrayKick?
    ensures |Apply(s, a).pcs| == |s.pcs| && Apply(s, a).pcs[t] == s.pcs[t]
  {
  }

  /** A kick of a processor that does not sleep is kept, as one, for its next attempt to. */
  lemma KickKept(s: State, a: Action, p: Tid)
    requires Reachable(s) && Enabled(s, a) && p < |s.pcs|
    ensures |Apply(s, a).spins| == |s.pcs|
    ensures Apply(s, a).spins[p] == SpinKicked <==>
      || (s.spins[p] == SpinKicked && a != Pause(p))
      || ((a == StrayKick(p) || (a.Kick? && s.pcs[a.t].pid == p)) && s.spins[p] != SpinPaused)
  {
    if a.Kick? || a.StrayKick? {
      SpinAfterKick(s, a, p);
    } else if a.Pause? {
      SpinAfterPause(s, a.t, p);
    } else {
      SpinsLeftAlone(s, a);
    }
  }

  lemma SpinAfterKick(s: State, a: Action, p: Tid)
    requires Shape(s) && Enabled(s, a) && p < |s.pcs| && (a.Kick? || a.StrayKick?)
    ensures var q := if a.Kick? then s.pcs[a.t].pid else a.t;
      && q < |s.pcs| == |s.spins| == |Apply(s, a).spins|
      && Apply(s, a).spins[p] ==
           if p != q then s.spins[p] else if s.spins[p] == SpinPaused then SpinNone else SpinKicked
  {
  }

  lemma SpinAfterPause(s: State, t: Tid, p: Tid)
    requires Shape(s) && Enabled(s, Pause(t)) && p < |s.pcs|
    ensures |Apply(s, Pause(t)).spins| == |s.pcs| == |s.spins|
    ensures Apply(s, Pause(t)).spins[p] ==
            if p != t then s.spins[p] else if s.spins[t] == SpinKicked then SpinNone else SpinPaused
  {
  }

  lemma SpinsLeftAlone(s: State, a: Action)
    requires Shape(s) && Enabled(s, a) && !a.Kick? && !a.StrayKick? && !a.Pause?
    ensures Apply(s, a).spins == s.spins
  {
  }

  /** Own steps until an owner's unlock has returned. */
  function UnlockWork(pc: Pc): nat {
    match pc
    case Holding => 7
    case CasTail => 6
    case SpinNext => 5
    case Handoff(_) => 4
    case ReadNext(_) => 3
    case SetNext(_, _) => 2
    case KickCall(_) => 1
    case _ => 0
  }

  /** An unlock returns: each own step brings it nearer, except a look for the link of a successor that has not
      stored it yet, and nobody else's step sets it back.  A successor that is linked gets the lock without a
      look at the tail. */
  lemma UnlockAdvances(s: State, a: Action, t: Tid)
    requires Reachable(s) && Enabled(s, a) && t < |s.pcs| && UnlockWork(s.pcs[t]) > 0
    ensures |Apply(s, a).pcs| == |s.pcs|
    ensures if a.t != t || a.StrayKick? || (a.PollNext? && s.nodes[t].next == None) then Apply(s, a).pcs[t] == s.pcs[t]
            else UnlockWork(Apply(s, a).pcs[t]) < UnlockWork(s.pcs[t])
    ensures a == Release(t) && s.nodes[t].next.Some? ==> |s.queue| >= 2 && Apply(s, a).pcs[t] == Handoff(s.queue[1])
  {
    StepShape(s, a);
    assert Thread(s, t);
    if a.t != t || a.StrayKick? {
      UnlockerLeftAlone(s, a, t);
    } else {
      if a == Release(t) { ReleaseFindsSuccessor(s, t); }
      UnlockStep(s, a);
    }
  }

  lemma UnlockStep(s: State, a: Action)
    requires Shape(s) && Enabled(s, a) && UnlockWork(s.pcs[a.t]) > 0 && !a.StrayKick? && Thread(s, a.t)
    ensures |Apply(s, a).pcs| == |s.pcs|
    ensures if a.PollNext? && s.nodes[a.t].next == None then Apply(s, a).pcs[a.t] == s.pcs[a.t]
            else UnlockWork(Apply(s, a).pcs[a.t]) < UnlockWork(s.pcs[a.t])
    ensures a.Release? && s.nodes[a.t].next.Some? ==> Apply(s, a).pcs[a.t] == Handoff(s.nodes[a.t].next.value)
  {
  }

  lemma UnlockerLeftAlone(s: State, a: Action, t: Tid)
    requires Shape(s) && Enabled(s, a) && t < |s.pcs| && UnlockWork(s.pcs[t]) > 0 && Thread(s, t)
    requires a.t != t || a.StrayKick?
    ensures |Apply(s, a).pcs| == |s.pcs| && Apply(s, a).pcs[t] == s.pcs[t]
  {
  }

  lemma ReleaseFindsSuccessor(s: State, t: Tid)
    requires Reachable(s) && Enabled(s, Release(t))
    ensures s.nodes[t].next.Some? ==> |s.queue| >= 2 && s.nodes[t].next == Some(s.queue[1])
  {
    OwnerIsHead(s, t);
    if |s.queue| >= 2 { assert Behind(s, 1); }
  }

  /** Without contention a thread is in with two steps and out with two, and leaves the lock as it was. */
  lemma AloneInAndOut(s: State, t: Tid)
    requires Reachable(s) && t < |s.pcs| && s.pcs[t].Out? && s.queue == []
    ensures Enabled(s, Begin(t)) && var s1 := Apply(s, Begin(t));
      Shape(s1) && Enabled(s1, Exchange(t)) && var s2 := Apply(s1, Exchange(t));
      && s2.pcs == s.pcs[t := Holding] && s2.queue == [t]
      && Shape(s2) && Enabled(s2, Release(t)) && var s3 := Apply(s2, Release(t));
      && Shape(s3) && Enabled(s3, CasTailNull(t)) && var s4 := Apply(s3, CasTailNull(t));
      && s4.pcs == s.pcs && s4.queue == [] && s4.tail == None && s4.spins == s.spins
      && s4.acquired == s.acquired + [t] && s4.order == s.order + [t]
  {
    assert Thread(s, t);
    var s1 := Apply(s, Begin(t));
    StepShape(s, Begin(t));
    var s2 := Apply(s1, Exchange(t));
    StepShape(s1, Exchange(t));
    assert s2.queue == [t] && s2.pcs == s.pcs[t := Holding] && s2.nodes[t].next == None;
    StepShape(s2, Release(t));
    assert Apply(Apply(s2, Release(t)), CasTailNull(t)).pcs == s.pcs;
  }
}

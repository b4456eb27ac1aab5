/** Twanvisor's virtual timers: any number of one-shot and periodic timers of a vcpu multiplexed onto
    the single VMX-preemption timer (varm_timern, vdisarm_timern and vexit_vmx_preempt).

    The hardware timer holds what is left of the front timer, so the front node's stored delta is
    stale; the chain stores the distances of the others.  The hardware counts down only in guest mode,
    which is the Countdown step.  What every operation is proved to be is an update of independent
    countdowns, one per armed timer. */
module VirtualTimers {
  import opened DeltaChain

  const U32: nat := 0x1_0000_0000
  const NMI: nat := 2

  datatype VTimer = VTimer(vector: nat, periodic: bool, armed: bool, nmi: bool, ticks: nat)

  datatype Status = Success | Invalid | Already

  // ---------------------------------------------------------------------------
  // Countdowns
  // ---------------------------------------------------------------------------

  /** The independent countdowns behind a list of due times. */
  function Countdowns(v: seq<Timer>): map<nat, nat> {
    if v == [] then map[] else Countdowns(v[1..])[v[0].id := v[0].due]
  }

  function Decrement(m: map<nat, nat>): map<nat, nat> {
    map id | id in m :: if m[id] == 0 then 0 else m[id] - 1
  }

  ghost function Increment(m: map<nat, nat>): map<nat, nat> {
    map id | id in m :: m[id] + 1
  }

  lemma {:induction false} CountdownKeys(v: seq<Timer>, id: nat)
    ensures id in Countdowns(v) <==> HasId(v, id)
  {
    if v != [] {
      CountdownKeys(v[1..], id);
      if HasId(v[1..], id) {
        var i :| 0 <= i < |v[1..]| && v[1..][i].id == id;
        assert v[i + 1].id == id;
      }
    }
  }

  lemma {:induction false} CountdownAt(v: seq<Timer>, i: nat)
    requires Unique(v) && i < |v|
    ensures v[i].id in Countdowns(v) && Countdowns(v)[v[i].id] == v[i].due
  {
    if i > 0 {
      assert v[1..][i - 1] == v[i];
      CountdownAt(v[1..], i - 1);
    }
  }

  lemma {:induction false} CountdownInsert(v: seq<Timer>, t: Timer)
    requires !HasId(v, t.id)
    ensures Countdowns(InsertDue(v, t)) == Countdowns(v)[t.id := t.due]
  {
    var w := InsertDue(v, t);
    if v == [] || t.due < v[0].due {
      assert w[1..] == v;
    } else {
      assert w[1..] == InsertDue(v[1..], t);
      assert v[0].id != t.id;
      forall i | 0 <= i < |v[1..]| ensures v[1..][i].id != t.id { assert v[1..][i] == v[i + 1]; }
      CountdownInsert(v[1..], t);
    }
  }

  lemma {:induction false} CountdownWithout(v: seq<Timer>, id: nat)
    requires Unique(v)
    ensures Countdowns(WithoutId(v, id)) == Countdowns(v) - {id}
  {
    if v != [] {
      if v[0].id == id {
        assert !HasId(v[1..], id) by {
          forall i | 0 <= i < |v[1..]| ensures v[1..][i].id != id { assert v[1..][i] == v[i + 1]; }
        }
        CountdownKeys(v[1..], id);
      } else {
        assert WithoutId(v, id)[1..] == WithoutId(v[1..], id);
        CountdownWithout(v[1..], id);
      }
    }
  }

  lemma {:induction false} CountdownLater(v: seq<Timer>)
    ensures Countdowns(Later(v)) == Decrement(Countdowns(v))
  {
    if v != [] {
      assert Later(v)[1..] == Later(v[1..]);
      CountdownLater(v[1..]);
    }
  }

  // ---------------------------------------------------------------------------
  // Due times of a running chain
  // ---------------------------------------------------------------------------

  /** Due times with the front timer's remainder in the hardware. */
  function Live(nodes: seq<Node>, hw: nat): seq<Timer> {
    if nodes == [] then [] else View(nodes[0 := Node(nodes[0].id, hw)], 0)
  }

  lemma LiveFront(nodes: seq<Node>)
    requires nodes != []
    ensures Live(nodes, nodes[0].delta) == View(nodes, 0)
  {
    assert nodes[0 := Node(nodes[0].id, nodes[0].delta)] == nodes;
  }

  lemma LiveSplit(nodes: seq<Node>, hw: nat)
    requires nodes != []
    ensures Live(nodes, hw) == [Timer(nodes[0].id, hw)] + View(nodes[1..], hw)
  {
    assert nodes[0 := Node(nodes[0].id, hw)][1..] == nodes[1..];
  }

  lemma RemoveIgnoresFront(nodes: seq<Node>, hw: nat, i: nat)
    requires 0 < i < |nodes|
    ensures |RemoveChain(nodes, i)| > 0
    ensures Live(RemoveChain(nodes, i), hw) == View(RemoveChain(nodes[0 := Node(nodes[0].id, hw)], i), 0)
  {
    var fixed := nodes[0 := Node(nodes[0].id, hw)];
    assert fixed[1..] == nodes[1..];
    assert RemoveChain(nodes, i) == [nodes[0]] + RemoveChain(nodes[1..], i - 1);
    assert RemoveChain(fixed, i) == [fixed[0]] + RemoveChain(nodes[1..], i - 1);
    assert RemoveChain(nodes, i)[0 := Node(nodes[0].id, hw)] == RemoveChain(fixed, i);
  }

  lemma LiveShape(nodes: seq<Node>, hw: nat)
    ensures |Live(nodes, hw)| == |nodes|
    ensures forall i :: 0 <= i < |nodes| ==> Live(nodes, hw)[i].id == nodes[i].id
    ensures Sorted(Live(nodes, hw))
    ensures nodes != [] ==> Live(nodes, hw)[0].due == hw
  {
    if nodes != [] {
      var fixed := nodes[0 := Node(nodes[0].id, hw)];
      ViewShape(fixed, 0);
      ViewSorted(fixed, 0);
    }
  }

  // ---------------------------------------------------------------------------
  // The table of timers
  // ---------------------------------------------------------------------------

  /** A queued timer is one of the table, and what it has left and what has passed of it make up the
      ticks it was armed with. */
  ghost predicate InTable(t: Timer, timers: seq<VTimer>, elapsed: map<nat, nat>) {
    t.id < |timers| && t.id in elapsed && t.due + elapsed[t.id] == timers[t.id].ticks < U32
  }

  ghost predicate Entry(v: seq<Timer>, timers: seq<VTimer>, elapsed: map<nat, nat>, i: nat)
    requires i < |v|
  {
    InTable(v[i], timers, elapsed)
  }

  ghost predicate ArmedAt(v: seq<Timer>, timers: seq<VTimer>, id: nat)
    requires id < |timers|
  {
    timers[id].armed <==> HasId(v, id)
  }

  /** The queued timers are exactly the armed ones of the table. */
  ghost predicate Table(v: seq<Timer>, timers: seq<VTimer>, elapsed: map<nat, nat>) {
    && Tidy(v)
    && (forall i: nat {:trigger Entry(v, timers, elapsed, i)} | i < |v| :: Entry(v, timers, elapsed, i))
    && (forall id: nat {:trigger ArmedAt(v, timers, id)} | id < |timers| :: ArmedAt(v, timers, id))
  }

  lemma TableInsert(v: seq<Timer>, timers: seq<VTimer>, elapsed: map<nat, nat>, n: nat, x: VTimer)
    requires Table(v, timers, elapsed) && n < |timers| && !timers[n].armed && x.armed && x.ticks < U32
    ensures Table(InsertDue(v, Timer(n, x.ticks)), timers[n := x], elapsed[n := 0])
    ensures Countdowns(InsertDue(v, Timer(n, x.ticks))) == Countdowns(v)[n := x.ticks]
  {
    var t := Timer(n, x.ticks);
    var w, timers', elapsed' := InsertDue(v, t), timers[n := x], elapsed[n := 0];
    TidyIsOrdered(v);
    assert ArmedAt(v, timers, n);
    InsertSorted(v, t);
    InsertUnique(v, t);
    TidyIsOrdered(w);
    CountdownInsert(v, t);
    var k := InsertSplits(v, t);
    forall i: nat | i < |w| ensures Entry(w, timers', elapsed', i) {
      if i != k {
        var j := if i < k then i else i - 1;
        assert w[i] == v[j] && Entry(v, timers, elapsed, j) && v[j].id != n;
      }
    }
    forall id: nat | id < |timers'| ensures ArmedAt(w, timers', id) {
      assert ArmedAt(v, timers, id);
      CountdownKeys(w, id);
      CountdownKeys(v, id);
    }
  }

  lemma WithoutTidy(v: seq<Timer>, n: nat)
    requires Tidy(v)
    ensures Tidy(WithoutId(v, n)) && Countdowns(WithoutId(v, n)) == Countdowns(v) - {n}
  {
    TidyIsOrdered(v);
    WithoutSorted(v, n);
    WithoutUnique(v, n);
    TidyIsOrdered(WithoutId(v, n));
    CountdownWithout(v, n);
  }

  lemma TableWithout(v: seq<Timer>, timers: seq<VTimer>, elapsed: map<nat, nat>, n: nat)
    requires Table(v, timers, elapsed) && n < |timers|
    ensures Table(WithoutId(v, n), timers[n := timers[n].(armed := false)], elapsed)
    ensures Countdowns(WithoutId(v, n)) == Countdowns(v) - {n}
  {
    var w, timers' := WithoutId(v, n), timers[n := timers[n].(armed := false)];
    WithoutTidy(v, n);
    var k := WithoutSplits(v, n);
    forall i: nat | i < |w| ensures Entry(w, timers', elapsed, i) {
      assert Entry(v, timers, elapsed, if i < k then i else i + 1);
    }
    forall id: nat | id < |timers'| ensures ArmedAt(w, timers', id) {
      assert ArmedAt(v, timers, id);
      CountdownKeys(w, id);
      CountdownKeys(v, id);
    }
  }

  lemma TableLater(v: seq<Timer>, timers: seq<VTimer>, elapsed: map<nat, nat>)
    requires v != [] && v[0].due > 0 && Table(v, timers, elapsed)
    ensures Table(Later(v), timers, Increment(elapsed))
  {
    var w, elapsed' := Later(v), Increment(elapsed);
    TidyIsOrdered(v);
    LaterAt(v);
    LaterSorted(v);
    LaterUnique(v);
    TidyIsOrdered(w);
    forall i: nat | i < |w| ensures Entry(w, timers, elapsed', i) {
      assert Entry(v, timers, elapsed, i) && (i == 0 || v[0].due <= v[i].due);
    }
    forall id: nat | id < |timers| ensures ArmedAt(w, timers, id) {
      assert ArmedAt(v, timers, id);
      CountdownLater(v);
      CountdownKeys(v, id);
      CountdownKeys(w, id);
    }
  }

  ghost predicate StampAt(v: seq<Timer>, stamps: map<nat, nat>, count: nat, i: nat)
    requires i < |v|
  {
    v[i].id in stamps && stamps[v[i].id] < count
  }

  ghost predicate Earlier(v: seq<Timer>, stamps: map<nat, nat>, i: nat, j: nat)
    requires i < |v| && j < |v|
  {
    v[i].due == v[j].due && v[i].id in stamps && v[j].id in stamps ==> stamps[v[i].id] < stamps[v[j].id]
  }

  /** Timers with as much left stand in the order in which they were armed or started over; the stamps
      count these. */
  ghost predicate Stamped(v: seq<Timer>, stamps: map<nat, nat>, count: nat) {
    && (forall i: nat {:trigger StampAt(v, stamps, count, i)} | i < |v| :: StampAt(v, stamps, count, i))
    && (forall i: nat, j: nat {:trigger Earlier(v, stamps, i, j)} | i < j < |v| :: Earlier(v, stamps, i, j))
  }

  lemma StampInsert(v: seq<Timer>, stamps: map<nat, nat>, count: nat, t: Timer)
    requires Tidy(v) && Stamped(v, stamps, count) && !HasId(v, t.id)
    ensures Stamped(InsertDue(v, t), stamps[t.id := count], count + 1)
  {
    TidyIsOrdered(v);
    var k := InsertSplits(v, t);
    StampSplice(v, InsertDue(v, t), stamps, count, t, k);
  }

  lemma StampSplice(v: seq<Timer>, w: seq<Timer>, stamps: map<nat, nat>, count: nat, t: Timer, k: nat)
    requires Stamped(v, stamps, count) && !HasId(v, t.id) && k <= |v| && w == v[..k] + [t] + v[k..]
    requires forall i :: k <= i < |v| ==> v[i].due > t.due
    ensures Stamped(w, stamps[t.id := count], count + 1)
  {
    var stamps', count' := stamps[t.id := count], count + 1;
    forall i: nat | i < |w| ensures StampAt(w, stamps', count', i) {
      if i != k { assert StampAt(v, stamps, count, if i < k then i else i - 1); }
    }
    forall i: nat, j: nat | i < j < |w| ensures Earlier(w, stamps', i, j) {
      if i == k {
        assert w[j] == v[j - 1];
      } else if j == k {
        assert w[i] == v[i] && StampAt(v, stamps, count, i);
      } else {
        var i', j' := if i < k then i else i - 1, if j < k then j else j - 1;
        assert w[i] == v[i'] && w[j] == v[j'] && v[i'].id != t.id && v[j'].id != t.id;
        assert Earlier(v, stamps, i', j');
      }
    }
  }

  lemma StampWithout(v: seq<Timer>, stamps: map<nat, nat>, count: nat, n: nat)
    requires Stamped(v, stamps, count)
    ensures Stamped(WithoutId(v, n), stamps, count)
  {
    var w := WithoutId(v, n);
    var k := WithoutSplits(v, n);
    forall i: nat | i < |w| ensures StampAt(w, stamps, count, i) {
      assert StampAt(v, stamps, count, if i < k then i else i + 1);
    }
    forall i: nat, j: nat | i < j < |w| ensures Earlier(w, stamps, i, j) {
      assert Earlier(v, stamps, if i < k then i else i + 1, if j < k then j else j + 1);
    }
  }

  lemma StampLater(v: seq<Timer>, stamps: map<nat, nat>, count: nat)
    requires Stamped(v, stamps, count) && Tidy(v) && v != [] && v[0].due > 0
    ensures Stamped(Later(v), stamps, count)
  {
    TidyIsOrdered(v);
    LaterAt(v);
    var w := Later(v);
    forall i: nat | i < |w| ensures StampAt(w, stamps, count, i) { assert StampAt(v, stamps, count, i); }
    forall i: nat, j: nat | i < j < |w| ensures Earlier(w, stamps, i, j) {
      assert Earlier(v, stamps, i, j) && (i == 0 || v[0].due <= v[i].due) && v[0].due <= v[j].due;
    }
  }

  /** Of the timers with nothing left, the front one has the least stamp. */
  lemma FrontArmedFirst(v: seq<Timer>, stamps: map<nat, nat>, count: nat)
    requires Stamped(v, stamps, count) && Tidy(v) && v != [] && v[0].due == 0
    ensures ArmedFirst(Countdowns(v), stamps, v[0].id)
  {
    TidyIsOrdered(v);
    forall u | u in Countdowns(v) && Countdowns(v)[u] == 0 && u != v[0].id
      ensures v[0].id in stamps && u in stamps && stamps[v[0].id] < stamps[u]
    {
      CountdownKeys(v, u);
      var i: nat :| i < |v| && v[i].id == u;
      CountdownAt(v, i);
      assert StampAt(v, stamps, count, 0) && StampAt(v, stamps, count, i) && Earlier(v, stamps, 0, i);
    }
  }

  /** Of the timers with nothing left, id was armed or started over first. */
  ghost predicate ArmedFirst(remaining: map<nat, nat>, stamps: map<nat, nat>, id: nat) {
    forall u | u in remaining && remaining[u] == 0 && u != id :: id in stamps && u in stamps && stamps[id] < stamps[u]
  }

  /** After the front timer has expired and left the chain, the table describes the chain with it back in
      place if it is periodic, and without it if it is not. */
  lemma Expired(nodes: seq<Node>, due: seq<Timer>, timers: seq<VTimer>, elapsed: map<nat, nat>, stamps: map<nat, nat>,
                count: nat, id: nat)
    requires id < |timers| && timers[id].armed && timers[id].ticks < U32 && WithoutId(due, id) == View(nodes, 0)
    requires Table(due, timers, elapsed) && Stamped(due, stamps, count)
    ensures var rest, off := View(nodes, 0), timers[id := timers[id].(armed := false)];
      && Table(rest, off, elapsed) && Stamped(rest, stamps, count) && Countdowns(rest) == Countdowns(due) - {id}
    ensures var w := InsertDue(View(nodes, 0), Timer(id, timers[id].ticks));
      && Table(w, timers, elapsed[id := 0]) && Stamped(w, stamps[id := count], count + 1)
      && Countdowns(w) == Countdowns(due)[id := timers[id].ticks]
  {
    var rest, off := View(nodes, 0), timers[id := timers[id].(armed := false)];
    TableWithout(due, timers, elapsed, id);
    StampWithout(due, stamps, count, id);
    assert off[id := timers[id]] == timers && !off[id].armed && ArmedAt(rest, off, id);
    TableInsert(rest, off, elapsed, id, timers[id]);
    StampInsert(rest, stamps, count, Timer(id, timers[id].ticks));
    assert (Countdowns(due) - {id})[id := timers[id].ticks] == Countdowns(due)[id := timers[id].ticks];
  }

  lemma FrontFacts(due: seq<Timer>, timers: seq<VTimer>, elapsed: map<nat, nat>, stamps: map<nat, nat>, count: nat)
    requires Table(due, timers, elapsed) && Stamped(due, stamps, count) && due != [] && due[0].due == 0
    ensures var id := due[0].id;
      && id < |timers| && timers[id].armed && timers[id].ticks < U32
      && id in elapsed && elapsed[id] == timers[id].ticks
      && id in Countdowns(due) && Countdowns(due)[id] == 0 && WithoutId(due, id) == due[1..]
      && ArmedFirst(Countdowns(due), stamps, id)
  {
    assert Entry(due, timers, elapsed, 0) && HasId(due, due[0].id) && ArmedAt(due, timers, due[0].id);
    TidyIsOrdered(due);
    CountdownAt(due, 0);
    FrontArmedFirst(due, stamps, count);
  }

  class VcpuTimers {
    const chain: Chain
    var timers: seq<VTimer>
    var hw: nat          // VMCS_GUEST_VMX_PREEMPTION_TIMER_VALUE
    var active: bool     // activate_vmx_preemption_timer
    ghost var elapsed: map<nat, nat>   // guest ticks since a timer was armed or last expired
    ghost var stamps: map<nat, nat>    // when each timer was armed or last started over
    ghost var count: nat

    ghost function Due(): seq<Timer>
      reads this, chain
    {
      Live(chain.nodes, hw)
    }

    /** What is left of every armed timer. */
    ghost function Remaining(): map<nat, nat>
      reads this, chain
    {
      Countdowns(Due())
    }

    ghost predicate Valid()
      reads this, chain
    {
      Table(Due(), timers, elapsed) && Stamped(Due(), stamps, count) && (active <==> chain.nodes != []) && hw < U32
    }

    constructor (num: nat)
      ensures Valid() && |timers| == num && Remaining() == map[]
      ensures forall i :: 0 <= i < num ==> !timers[i].armed
    {
      chain := new Chain();
      timers := seq(num, _ => VTimer(0, false, false, false, 0));
      hw, active := 0, false;
      elapsed, stamps, count := map[], map[], 0;
    }

    /** One tick of guest mode: every armed timer comes one tick nearer. */
    method Countdown()
      requires Valid() && active && hw > 0
      modifies this`hw, this`elapsed
      ensures Valid() && Remaining() == Decrement(old(Remaining()))
      ensures elapsed == Increment(old(elapsed))
    {
      ghost var fixed := chain.nodes[0 := Node(chain.nodes[0].id, hw)];
      LiveShape(chain.nodes, hw);
      FrontLater(fixed);
      CountdownLater(Due());
      TableLater(Due(), timers, elapsed);
      StampLater(Due(), stamps, count);
      assert fixed[0 := Node(chain.nodes[0].id, hw - 1)] == chain.nodes[0 := Node(chain.nodes[0].id, hw - 1)];
      hw := hw - 1;
      elapsed := Increment(elapsed);
    }

    /** The preemption timer is at zero exactly when some armed timer has nothing left: no expiry is
        missed and none comes early. */
    lemma ExpiryIsExact()
      requires Valid()
      ensures active && hw == 0 <==> exists id :: id in Remaining() && Remaining()[id] == 0
    {
      LiveShape(chain.nodes, hw);
      TidyIsOrdered(Due());
      if active && hw == 0 {
        CountdownAt(Due(), 0);
        var id := Due()[0].id;
        assert id in Remaining() && Remaining()[id] == 0;
      }
      if id :| id in Remaining() && Remaining()[id] == 0 {
        CountdownKeys(Due(), id);
        var i :| 0 <= i < |Due()| && Due()[i].id == id;
        CountdownAt(Due(), i);
        assert i == 0 || Due()[0].due <= Due()[i].due;
        assert Due()[0].due == hw;
      }
    }

    /** varm_timern */
    method Arm(vector: nat, n: nat, ticks: nat, periodic: bool, nmi: bool) returns (r: Status)
      requires Valid() && ticks < U32
      modifies this, chain
      ensures Valid() && |timers| == |old(timers)|
      ensures r == if n >= |old(timers)| || (nmi && vector != NMI) then Invalid
                   else if old(timers)[n].armed then Already else Success
      ensures r != Success ==> timers == old(timers) && Remaining() == old(Remaining()) && elapsed == old(elapsed)
      ensures r == Success ==>
        && timers == old(timers)[n := VTimer(vector, periodic, true, nmi, ticks)]
        && Remaining() == old(Remaining())[n := ticks] && elapsed == old(elapsed)[n := 0]
    {
      if n >= |timers| || (nmi && vector != NMI) { return Invalid; }
      if timers[n].armed { return Already; }
      var x := VTimer(vector, periodic, true, nmi, ticks);
      assert ArmedAt(Due(), timers, n);
      TableInsert(Due(), timers, elapsed, n, x);
      StampInsert(Due(), stamps, count, Timer(n, ticks));
      Start(n, ticks);
      timers := timers[n := x];
      elapsed := elapsed[n := 0];
      stamps, count := stamps[n := count], count + 1;
      r := Success;
    }

    /** The part of varm_timern that writes the hardware timer and the chain. */
    method Start(n: nat, ticks: nat)
      requires hw < U32 && ticks < U32 && (active <==> chain.nodes != [])
      modifies this`hw, this`active, chain
      ensures Due() == InsertDue(old(Due()), Timer(n, ticks)) && (active <==> chain.nodes != []) && hw < U32
    {
      ghost var due := Due();
      LiveShape(chain.nodes, hw);
      if chain.nodes == [] {
        hw := ticks;
        active := true;
      } else {
        var rem := hw;
        if ticks < rem { hw := ticks; }
        chain.nodes := chain.nodes[0 := Node(chain.nodes[0].id, rem)];
      }
      assert chain.Due() == due;
      chain.Insert(n, ticks);
      LiveFront(chain.nodes);
    }

    /** vdisarm_timern */
    method Disarm(n: nat) returns (r: Status)
      requires Valid()
      modifies this, chain
      ensures Valid() && |timers| == |old(timers)| && elapsed == old(elapsed)
      ensures r == if n < |old(timers)| && old(timers)[n].armed then Success else Invalid
      ensures r != Success ==> timers == old(timers) && Remaining() == old(Remaining())
      ensures r == Success ==>
        && timers == old(timers)[n := old(timers)[n].(armed := false)]
        && Remaining() == old(Remaining()) - {n}
    {
      if n >= |timers| { return Invalid; }
      if !timers[n].armed { return Invalid; }
      LiveShape(chain.nodes, hw);
      TidyIsOrdered(Due());
      assert ArmedAt(Due(), timers, n);
      NodesDistinct(chain.nodes, hw);
      HasNode(chain.nodes, hw, n);
      TableWithout(Due(), timers, elapsed, n);
      StampWithout(Due(), stamps, count, n);
      DueBelow(Due(), timers, elapsed);
      Unlink(Position(chain.nodes, n));
      timers := timers[n := timers[n].(armed := false)];
      r := Success;
    }

    /** The part of vdisarm_timern that takes node i out and moves what is left of it into the hardware
        timer or into the next delta. */
    method Unlink(i: nat)
      requires i < |chain.nodes| && Distinct(chain.nodes) && (active <==> chain.nodes != [])
      requires Sorted(Due()) && forall k :: 0 <= k < |Due()| ==> Due()[k].due < U32
      modifies this`hw, this`active, chain
      ensures Due() == WithoutId(old(Due()), old(chain.nodes)[i].id)
      ensures active <==> chain.nodes != []
      ensures hw < U32
    {
      ghost var nodes, was := chain.nodes, hw;
      LiveShape(nodes, hw);
      ghost var fixed := nodes[0 := Node(nodes[0].id, hw)];
      RemoveKeepsDue(fixed, i, 0);
      if i == 0 {
        if |chain.nodes| == 1 {
          active := false;
        } else {
          var rem := hw;
          LiveSplit(nodes, hw);
          assert View(nodes[1..], hw)[0] == Due()[1];
          hw := rem + chain.nodes[1].delta;
          chain.nodes := chain.nodes[0 := Node(chain.nodes[0].id, rem)];
        }
        chain.Dequeue(0);
        if chain.nodes != [] { LiveFront(chain.nodes); }
      } else {
        RemoveIgnoresFront(nodes, hw, i);
        chain.Dequeue(i);
      }
    }

    /** vexit_vmx_preempt: the front timer has expired; a periodic timer starts over, a one-shot timer
        is disarmed, and its interrupt is returned to be set pending. */
    method Preempt() returns (id: nat, vector: nat, nmi: bool)
      requires Valid() && active && hw == 0
      modifies this, chain
      ensures Valid() && |timers| == |old(timers)|
      ensures id in old(Remaining()) && old(Remaining())[id] == 0
      ensures id < |old(timers)| && vector == old(timers)[id].vector && nmi == old(timers)[id].nmi
      ensures timers == old(timers)[id := old(timers)[id].(armed := old(timers)[id].periodic)]
      ensures Remaining() == if old(timers)[id].periodic then old(Remaining())[id := old(timers)[id].ticks]
                             else old(Remaining()) - {id}
      // among the timers with nothing left, the one that was armed or started over first
      ensures ArmedFirst(old(Remaining()), old(stamps), id)
      // it expires exactly as many guest ticks after it was armed, or last expired, as it was armed with
      ensures id in old(elapsed) && old(elapsed)[id] == old(timers)[id].ticks
      ensures elapsed == if old(timers)[id].periodic then old(elapsed)[id := 0] else old(elapsed)
    {
      ghost var due := Due();
      id := PopDue();
      FrontFacts(due, timers, elapsed, stamps, count);
      Expired(chain.nodes, due, timers, elapsed, stamps, count, id);
      vector, nmi := timers[id].vector, timers[id].nmi;
      Expire(id, due[1..], InsertDue(due[1..], Timer(id, timers[id].ticks)));
      Reload();
    }

    /** The timer whose remainder the hardware holds leaves the chain. */
    method PopDue() returns (id: nat)
      requires chain.nodes != [] && hw == 0
      modifies chain
      ensures old(Due()) != [] && old(Due())[0] == Timer(id, 0) && chain.Due() == old(Due())[1..]
    {
      LiveShape(chain.nodes, hw);
      LiveSplit(chain.nodes, 0);
      var node := chain.PopFront();
      id := node.id;
    }

    /** A periodic timer is inserted again, a one-shot timer is marked as not armed. */
    method Expire(id: nat, ghost rest: seq<Timer>, ghost again: seq<Timer>)
      requires id < |timers| && timers[id].armed && chain.Due() == rest && again == InsertDue(rest, Timer(id, timers[id].ticks))
      requires Table(rest, timers[id := timers[id].(armed := false)], elapsed) && Stamped(rest, stamps, count)
      requires Table(again, timers, elapsed[id := 0]) && Stamped(again, stamps[id := count], count + 1)
      modifies this`timers, this`elapsed, this`stamps, this`count, chain
      ensures timers == old(timers)[id := old(timers)[id].(armed := old(timers)[id].periodic)]
      ensures elapsed == if old(timers)[id].periodic then old(elapsed)[id := 0] else old(elapsed)
      ensures chain.Due() == if old(timers)[id].periodic then again else rest
      ensures Table(chain.Due(), timers, elapsed) && Stamped(chain.Due(), stamps, count)
    {
      if timers[id].periodic {
        stamps, count := stamps[id := count], count + 1;
        elapsed := elapsed[id := 0];
        chain.Insert(id, timers[id].ticks);
      } else {
        timers := timers[id := timers[id].(armed := false)];
      }
    }

    /** The end of vexit_vmx_preempt: the new front timer goes into the hardware. */
    method Reload()
      requires Table(chain.Due(), timers, elapsed) && hw == 0
      modifies this`hw, this`active
      ensures Due() == chain.Due() && (active <==> chain.nodes != []) && hw < U32
    {
      if chain.nodes != [] {
        ViewShape(chain.nodes, 0);
        DueBelow(chain.Due(), timers, elapsed);
        hw := chain.nodes[0].delta;
        active := true;
        LiveFront(chain.nodes);
      } else {
        active := false;
      }
    }
  }

  lemma DueBelow(v: seq<Timer>, timers: seq<VTimer>, elapsed: map<nat, nat>)
    requires Table(v, timers, elapsed)
    ensures forall i :: 0 <= i < |v| ==> v[i].due < U32
  {
    forall i: nat | i < |v| ensures v[i].due < U32 { assert Entry(v, timers, elapsed, i); }
  }

  lemma NodesDistinct(nodes: seq<Node>, hw: nat)
    requires Unique(Live(nodes, hw))
    ensures Distinct(nodes)
  {
    LiveShape(nodes, hw);
  }

  lemma HasNode(nodes: seq<Node>, hw: nat, id: nat)
    requires HasId(Live(nodes, hw), id)
    ensures exists k :: 0 <= k < |nodes| && nodes[k].id == id
  {
    LiveShape(nodes, hw);
    var i :| 0 <= i < |Live(nodes, hw)| && Live(nodes, hw)[i].id == id;
    assert nodes[i].id == id;
  }
}

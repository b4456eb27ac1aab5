/** The delta chain of include/lib/dsa/delta_chain.h: a list of timers, each storing its distance to
    the one before it.  The view of a chain lists every timer with its own due time. */
module DeltaChain {

  datatype Node = Node(id: nat, delta: nat)
  datatype Timer = Timer(id: nat, due: nat)

  // ---------------------------------------------------------------------------
  // Due times
  // ---------------------------------------------------------------------------

  function View(chain: seq<Node>, from: nat): seq<Timer> {
    if chain == [] then []
    else [Timer(chain[0].id, from + chain[0].delta)] + View(chain[1..], from + chain[0].delta)
  }

  lemma {:induction false} ViewShape(chain: seq<Node>, from: nat)
    ensures |View(chain, from)| == |chain|
    ensures forall i :: 0 <= i < |chain| ==> View(chain, from)[i].id == chain[i].id
    ensures forall i :: 0 <= i < |chain| ==> View(chain, from)[i].due >= from
  {
    if chain != [] { ViewShape(chain[1..], from + chain[0].delta); }
  }

  predicate Sorted(v: seq<Timer>) { forall i, j :: 0 <= i < j < |v| ==> v[i].due <= v[j].due }

  lemma {:induction false} ViewSorted(chain: seq<Node>, from: nat)
    ensures Sorted(View(chain, from))
  {
    if chain != [] {
      ViewSorted(chain[1..], from + chain[0].delta);
      ViewShape(chain[1..], from + chain[0].delta);
    }
  }

  /** Behind every timer that is due no later: ties keep the order of insertion. */
  function InsertDue(v: seq<Timer>, t: Timer): seq<Timer> {
    if v == [] || t.due < v[0].due then [t] + v else [v[0]] + InsertDue(v[1..], t)
  }

  /** The timers but the one of that name. */
  function WithoutId(v: seq<Timer>, id: nat): seq<Timer> {
    if v == [] then [] else if v[0].id == id then v[1..] else [v[0]] + WithoutId(v[1..], id)
  }

  // ---------------------------------------------------------------------------
  // Insertion and removal on chains
  // ---------------------------------------------------------------------------

  function InsertChain(chain: seq<Node>, id: nat, ticks: nat): seq<Node> {
    if chain == [] then [Node(id, ticks)]
    else if ticks < chain[0].delta then
      [Node(id, ticks), Node(chain[0].id, chain[0].delta - ticks)] + chain[1..]
    else [chain[0]] + InsertChain(chain[1..], id, ticks - chain[0].delta)
  }

  /** The first i nodes, and the insertion into the others. */
  ghost function Rebuilt(chain: seq<Node>, i: nat, id: nat, r: nat): seq<Node>
    requires i <= |chain|
  {
    chain[..i] + InsertChain(chain[i..], id, r)
  }

  lemma InsertWalks(chain: seq<Node>, i: nat, id: nat, r: nat)
    requires i < |chain| && r >= chain[i].delta
    ensures Rebuilt(chain, i, id, r) == Rebuilt(chain, i + 1, id, r - chain[i].delta)
  {
    assert chain[i..][1..] == chain[i + 1..];
    assert chain[..i + 1] == chain[..i] + [chain[i]];
  }

  lemma InsertStops(chain: seq<Node>, i: nat, id: nat, r: nat)
    requires i <= |chain| && (i < |chain| ==> r < chain[i].delta)
    ensures var now := if i < |chain| then chain[i := Node(chain[i].id, chain[i].delta - r)] else chain;
      now[..i] + [Node(id, r)] + now[i..] == chain[..i] + InsertChain(chain[i..], id, r)
  {
    if i < |chain| {
      var now := chain[i := Node(chain[i].id, chain[i].delta - r)];
      assert now[i..] == [now[i]] + chain[i + 1..];
      assert chain[i..][1..] == chain[i + 1..];
    }
  }

  /** Inserting into the deltas is inserting into the due times. */
  lemma {:induction false} InsertKeepsDue(chain: seq<Node>, id: nat, ticks: nat, from: nat)
    ensures View(InsertChain(chain, id, ticks), from) == InsertDue(View(chain, from), Timer(id, from + ticks))
  {
    var now := InsertChain(chain, id, ticks);
    if chain == [] {
      assert now[1..] == [];
    } else if ticks < chain[0].delta {
      assert now[1..][1..] == chain[1..];
    } else {
      assert now[1..] == InsertChain(chain[1..], id, ticks - chain[0].delta);
      assert View(chain, from)[1..] == View(chain[1..], from + chain[0].delta);
      InsertKeepsDue(chain[1..], id, ticks - chain[0].delta, from + chain[0].delta);
    }
  }

  /** Node i leaves; its delta goes to the node behind it. */
  function RemoveChain(chain: seq<Node>, i: nat): seq<Node>
    requires i < |chain|
  {
    if i > 0 then [chain[0]] + RemoveChain(chain[1..], i - 1)
    else if |chain| == 1 then []
    else [Node(chain[1].id, chain[1].delta + chain[0].delta)] + chain[2..]
  }

  predicate Distinct(chain: seq<Node>) { forall i, j :: 0 <= i < j < |chain| ==> chain[i].id != chain[j].id }

  lemma {:induction false} RemoveKeepsDue(chain: seq<Node>, i: nat, from: nat)
    requires i < |chain| && Distinct(chain)
    ensures View(RemoveChain(chain, i), from) == WithoutId(View(chain, from), chain[i].id)
  {
    assert View(chain, from)[1..] == View(chain[1..], from + chain[0].delta);
    if i > 0 {
      assert RemoveChain(chain, i)[1..] == RemoveChain(chain[1..], i - 1);
      RemoveKeepsDue(chain[1..], i - 1, from + chain[0].delta);
    } else if |chain| > 1 {
      assert RemoveChain(chain, i)[1..] == chain[2..] && chain[1..][1..] == chain[2..];
    }
  }

  /** The nodes in front that are due leave, in order. */
  function AdvanceChain(chain: seq<Node>): (seq<Node>, seq<nat>) {
    if chain == [] || chain[0].delta != 0 then (chain, [])
    else
      var (rest, fired) := AdvanceChain(chain[1..]);
      (rest, [chain[0].id] + fired)
  }

  /** A tick takes one from the front delta, unless that is zero already. */
  function TickChain(chain: seq<Node>): (seq<Node>, seq<nat>) {
    if chain == [] then ([], [])
    else if chain[0].delta == 0 then AdvanceChain(chain)
    else AdvanceChain(chain[0 := Node(chain[0].id, chain[0].delta - 1)])
  }

  // ---------------------------------------------------------------------------
  // The chain
  // ---------------------------------------------------------------------------

  class Chain {
    var nodes: seq<Node>

    ghost function Due(): seq<Timer>
      reads this
    {
      View(nodes, 0)
    }

    constructor ()
      ensures nodes == []
    {
      nodes := [];
    }

    /** delta_chain_insert: the new timer is due after `ticks`, every other due time is untouched. */
    method Insert(id: nat, ticks: nat)
      modifies this
      ensures nodes == InsertChain(old(nodes), id, ticks)
      ensures Due() == InsertDue(old(Due()), Timer(id, ticks))
    {
      ghost var was := nodes;
      var i, remaining := Walk(id, ticks);
      InsertStops(was, i, id, remaining);
      InsertKeepsDue(was, id, ticks, 0);
      if i < |nodes| {
        nodes := nodes[i := Node(nodes[i].id, nodes[i].delta - remaining)];
      }
      nodes := nodes[..i] + [Node(id, remaining)] + nodes[i..];
    }

    /** The loop of delta_chain_insert: where the new node belongs and what is left of its ticks there. */
    method Walk(id: nat, ticks: nat) returns (i: nat, remaining: nat)
      ensures i <= |nodes| && (i < |nodes| ==> remaining < nodes[i].delta)
      ensures InsertChain(nodes, id, ticks) == nodes[..i] + InsertChain(nodes[i..], id, remaining)
    {
      i, remaining := 0, ticks;
      ghost var chain := nodes;
      ghost var goal := InsertChain(chain, id, ticks);
      assert chain[..0] + InsertChain(chain[0..], id, ticks) == goal by { assert chain[0..] == chain; }
      while i < |nodes| && remaining >= nodes[i].delta
        invariant 0 <= i <= |chain| && goal == Rebuilt(chain, i, id, remaining)
      {
        InsertWalks(chain, i, id, remaining);
        remaining := remaining - nodes[i].delta;
        i := i + 1;
      }
    }

    /** delta_chain_dequeue_no_callback: every other due time is untouched. */
    method Dequeue(i: nat)
      requires i < |nodes| && Distinct(nodes)
      modifies this
      ensures nodes == RemoveChain(old(nodes), i)
      ensures Due() == WithoutId(old(Due()), old(nodes)[i].id)
    {
      RemoveKeepsDue(nodes, i, 0);
      RemoveIsSlices(nodes, i);
      if i + 1 < |nodes| {
        nodes := nodes[i + 1 := Node(nodes[i + 1].id, nodes[i + 1].delta + nodes[i].delta)];
      }
      nodes := nodes[..i] + nodes[i + 1..];
    }

    /** delta_chain_popfront_noupdate */
    method PopFront() returns (node: Node)
      requires nodes != []
      modifies this
      ensures node == old(nodes)[0] && nodes == old(nodes)[1..]
    {
      node := nodes[0];
      nodes := nodes[1..];
    }

    /** delta_chain_advance: pop the timers that are due, in order. */
    method Advance() returns (fired: seq<nat>)
      modifies this
      ensures (nodes, fired) == AdvanceChain(old(nodes))
      ensures fired == Ids(DuePrefix(old(Due()), 0)) && Due() == DueSuffix(old(Due()), 0)
    {
      AdvanceIsDue(nodes);
      fired := [];
      while nodes != [] && nodes[0].delta == 0
        invariant AdvanceChain(old(nodes)).0 == AdvanceChain(nodes).0
        invariant AdvanceChain(old(nodes)).1 == fired + AdvanceChain(nodes).1
        decreases |nodes|
      {
        fired := fired + [nodes[0].id];
        nodes := nodes[1..];
      }
      assert AdvanceChain(nodes) == (nodes, []) && fired + [] == fired;
    }

    /** delta_chain_tick.  One unit of time passes for every timer exactly when the front timer is not
        already due; a front timer inserted with zero ticks makes this tick count for nobody else. */
    method Tick() returns (fired: seq<nat>)
      modifies this
      ensures (nodes, fired) == TickChain(old(nodes))
      ensures old(nodes) == [] ==> fired == [] && nodes == []
      ensures old(nodes) != [] ==>
        var v := if old(nodes)[0].delta == 0 then old(Due()) else Later(old(Due()));
        fired == Ids(DuePrefix(v, 0)) && Due() == DueSuffix(v, 0)
    {
      if nodes == [] { return []; }
      if nodes[0].delta == 0 {
        fired := Advance();
      } else {
        FrontLater(nodes);
        nodes := nodes[0 := Node(nodes[0].id, nodes[0].delta - 1)];
        AdvanceIsDue(nodes);
        if nodes[0].delta == 0 {
          fired := Advance();
        } else {
          fired := [];
        }
      }
    }
  }

  lemma {:induction false} AdvanceIsDue(chain: seq<Node>)
    ensures AdvanceChain(chain).1 == Ids(DuePrefix(View(chain, 0), 0))
    ensures View(AdvanceChain(chain).0, 0) == DueSuffix(View(chain, 0), 0)
  {
    if chain != [] && chain[0].delta == 0 {
      assert View(chain, 0)[1..] == View(chain[1..], 0);
      AdvanceIsDue(chain[1..]);
    }
  }

  lemma FrontLater(chain: seq<Node>)
    requires chain != [] && chain[0].delta > 0
    ensures View(chain[0 := Node(chain[0].id, chain[0].delta - 1)], 0) == Later(View(chain, 0))
  {
    var next := chain[0 := Node(chain[0].id, chain[0].delta - 1)];
    assert next[1..] == chain[1..] && View(chain, 0)[1..] == View(chain[1..], chain[0].delta);
    LaterView(chain[1..], chain[0].delta);
    assert View(next, 0) == [Timer(chain[0].id, chain[0].delta - 1)] + Later(View(chain[1..], chain[0].delta));
  }

  lemma {:induction false} RemoveIsSlices(chain: seq<Node>, i: nat)
    requires i < |chain|
    ensures RemoveChain(chain, i) == chain[..i] +
      (if i + 1 < |chain| then [Node(chain[i + 1].id, chain[i + 1].delta + chain[i].delta)] + chain[i + 2..] else [])
  {
    if i > 0 {
      RemoveIsSlices(chain[1..], i - 1);
      assert chain[..i] == [chain[0]] + chain[1..][..i - 1];
      if i + 1 < |chain| { assert chain[1..][i + 1..] == chain[i + 2..]; }
    }
  }

  // ---------------------------------------------------------------------------
  // Passing of time on views
  // ---------------------------------------------------------------------------

  function Ids(v: seq<Timer>): seq<nat> { if v == [] then [] else [v[0].id] + Ids(v[1..]) }

  /** The leading timers due at `now`, and the rest. */
  function DuePrefix(v: seq<Timer>, now: nat): seq<Timer> {
    if v == [] || v[0].due > now then [] else [v[0]] + DuePrefix(v[1..], now)
  }

  function DueSuffix(v: seq<Timer>, now: nat): seq<Timer> {
    if v == [] || v[0].due > now then v else DueSuffix(v[1..], now)
  }

  /** All due times one unit nearer. */
  function Later(v: seq<Timer>): seq<Timer> {
    if v == [] then [] else [Timer(v[0].id, if v[0].due == 0 then 0 else v[0].due - 1)] + Later(v[1..])
  }

  lemma {:induction false} LaterView(chain: seq<Node>, from: nat)
    requires from > 0
    ensures View(chain, from - 1) == Later(View(chain, from))
  {
    if chain != [] {
      assert View(chain, from)[1..] == View(chain[1..], from + chain[0].delta);
      LaterView(chain[1..], from + chain[0].delta);
    }
  }

  // ---------------------------------------------------------------------------
  // Whole runs
  // ---------------------------------------------------------------------------

  datatype Op = Insert(id: nat, ticks: nat) | Dequeue(id: nat) | Tick

  /** One operation on a view, as the methods above specify it: what is left and what fires. */
  function Step(v: seq<Timer>, op: Op): (seq<Timer>, seq<nat>) {
    match op
    case Insert(id, ticks) => (InsertDue(v, Timer(id, ticks)), [])
    case Dequeue(id) => (WithoutId(v, id), [])
    case Tick =>
      if v == [] then ([], [])
      else
        var v1 := if v[0].due == 0 then v else Later(v);
        (DueSuffix(v1, 0), Ids(DuePrefix(v1, 0)))
  }

  function Run(v: seq<Timer>, ops: seq<Op>): seq<Timer>
    decreases |ops|
  {
    if ops == [] then v else Run(Step(v, ops[0]).0, ops[1..])
  }

  /** What fires on each tick of the run. */
  function Fires(v: seq<Timer>, ops: seq<Op>): seq<seq<nat>>
    decreases |ops|
  {
    if ops == [] then []
    else (if ops[0].Tick? then [Step(v, ops[0]).1] else []) + Fires(Step(v, ops[0]).0, ops[1..])
  }

  function Ticks(ops: seq<Op>): nat {
    if ops == [] then 0 else (if ops[0].Tick? then 1 else 0) + Ticks(ops[1..])
  }

  /** The run inserts or removes timer id. */
  predicate Mentions(ops: seq<Op>, id: nat) {
    ops != [] && ((!ops[0].Tick? && ops[0].id == id) || Mentions(ops[1..], id))
  }

  predicate HasId(v: seq<Timer>, id: nat) { exists i :: 0 <= i < |v| && v[i].id == id }

  /** A timer is inserted only while it is not queued, and with at least one tick. */
  predicate Legal(v: seq<Timer>, op: Op) { op.Insert? ==> op.ticks > 0 && !HasId(v, op.id) }

  predicate LegalRun(v: seq<Timer>, ops: seq<Op>)
    decreases |ops|
  {
    ops == [] || (Legal(v, ops[0]) && LegalRun(Step(v, ops[0]).0, ops[1..]))
  }

  predicate Unique(v: seq<Timer>) { forall i, j :: 0 <= i < j < |v| ==> v[i].id != v[j].id }

  /** What every legal operation keeps: due times in order, in the future, one per timer. */
  predicate Future(v: seq<Timer>) {
    Sorted(v) && Unique(v) && forall i :: 0 <= i < |v| ==> v[i].due > 0
  }

  /** Due times in order and one per timer, from the front to the back. */
  predicate Tidy(v: seq<Timer>) {
    v == [] || (Tidy(v[1..]) && !HasId(v[1..], v[0].id) && (|v| > 1 ==> v[0].due <= v[1].due))
  }

  /** The same as Future, from the front to the back. */
  predicate Good(v: seq<Timer>) { Tidy(v) && (v != [] ==> v[0].due > 0) }

  lemma GoodIsFuture(v: seq<Timer>)
    ensures Good(v) <==> Future(v)
  {
    TidyIsOrdered(v);
    if Good(v) {
      forall i | 0 <= i < |v| ensures v[i].due > 0 { assert i == 0 || v[0].due <= v[i].due; }
    }
  }

  lemma {:induction false} InsertSplits(v: seq<Timer>, t: Timer) returns (k: nat)
    requires Sorted(v)
    ensures k <= |v| && InsertDue(v, t) == v[..k] + [t] + v[k..]
    ensures forall i :: 0 <= i < k ==> v[i].due <= t.due
    ensures forall i :: k <= i < |v| ==> v[i].due > t.due
  {
    if v == [] || t.due < v[0].due {
      k := 0;
    } else {
      var k' := InsertSplits(v[1..], t);
      k := k' + 1;
      assert v[..k] == [v[0]] + v[1..][..k'] && v[k..] == v[1..][k'..];
    }
  }

  lemma {:induction false} WithoutSplits(v: seq<Timer>, id: nat) returns (k: nat)
    ensures k <= |v| && (forall i :: 0 <= i < k ==> v[i].id != id)
    ensures if k == |v| then WithoutId(v, id) == v else v[k].id == id && WithoutId(v, id) == v[..k] + v[k + 1..]
  {
    if v == [] || v[0].id == id {
      k := 0;
    } else {
      var k' := WithoutSplits(v[1..], id);
      k := k' + 1;
      assert WithoutId(v, id) == [v[0]] + WithoutId(v[1..], id);
      if k < |v| {
        assert v[..k] == [v[0]] + v[1..][..k'];
        assert v[k + 1..] == v[1..][k' + 1..];
      } else {
        assert v == [v[0]] + v[1..];
      }
    }
  }

  lemma {:induction false} DueSplits(v: seq<Timer>, now: nat) returns (k: nat)
    requires Sorted(v)
    ensures k <= |v| && DuePrefix(v, now) == v[..k] && DueSuffix(v, now) == v[k..]
    ensures forall i :: 0 <= i < k ==> v[i].due <= now
    ensures forall i :: k <= i < |v| ==> v[i].due > now
  {
    if v == [] || v[0].due > now {
      k := 0;
    } else {
      var k' := DueSplits(v[1..], now);
      k := k' + 1;
      assert v[..k] == [v[0]] + v[1..][..k'] && v[k..] == v[1..][k'..];
    }
  }

  lemma {:induction false} LaterAt(v: seq<Timer>)
    ensures |Later(v)| == |v|
    ensures forall i :: 0 <= i < |v| ==> Later(v)[i] == Timer(v[i].id, if v[i].due == 0 then 0 else v[i].due - 1)
  {
    if v != [] { LaterAt(v[1..]); }
  }

  lemma {:induction false} IdsAt(v: seq<Timer>)
    ensures |Ids(v)| == |v| && forall i :: 0 <= i < |v| ==> Ids(v)[i] == v[i].id
  {
    if v != [] { IdsAt(v[1..]); }
  }

  lemma LaterSorted(v: seq<Timer>)
    requires Sorted(v)
    ensures Sorted(Later(v))
  {
    LaterAt(v);
  }

  /** A tick on a view with nothing overdue: the timers due in one unit fire, in chain order; all others
      come one unit nearer. */
  lemma TickSplits(v: seq<Timer>) returns (k: nat)
    requires Sorted(v) && forall i :: 0 <= i < |v| ==> v[i].due > 0
    ensures k <= |v|
    ensures |Step(v, Tick).1| == k && forall i :: 0 <= i < k ==> Step(v, Tick).1[i] == v[i].id && v[i].due == 1
    ensures |Step(v, Tick).0| == |v| - k
    ensures forall i :: k <= i < |v| ==> v[i].due > 1 && Step(v, Tick).0[i - k] == Timer(v[i].id, v[i].due - 1)
    ensures forall m :: 0 <= m < |Step(v, Tick).0| ==> Step(v, Tick).0[m] == Timer(v[m + k].id, v[m + k].due - 1)
  {
    var w := Later(v);
    LaterSorted(v);
    k := DueSplits(w, 0);
    IdsAt(w[..k]);
    assert Step(v, Tick) == (w[k..], Ids(w[..k]));
    TickParts(v, w, k);
  }

  lemma TickParts(v: seq<Timer>, w: seq<Timer>, k: nat)
    requires w == Later(v) && k <= |w| && forall i :: 0 <= i < |v| ==> v[i].due > 0
    requires forall i :: 0 <= i < k ==> w[i].due <= 0
    requires forall i :: k <= i < |w| ==> w[i].due > 0
    ensures |w| == |v|
    ensures forall i :: 0 <= i < k ==> w[..k][i].id == v[i].id && v[i].due == 1
    ensures forall i :: k <= i < |v| ==> v[i].due > 1 && w[k..][i - k] == Timer(v[i].id, v[i].due - 1)
    ensures forall m :: 0 <= m < |w[k..]| ==> w[k..][m] == Timer(v[m + k].id, v[m + k].due - 1)
  {
    LaterAt(v);
  }

  lemma StepGood(v: seq<Timer>, op: Op)
    requires Future(v) && Legal(v, op)
    ensures Future(Step(v, op).0)
  {
    match op
    case Insert(id, ticks) => InsertGood(v, Timer(id, ticks));
    case Dequeue(id) => var k := WithoutSplits(v, id);
    case Tick => TickGood(v);
  }

  lemma InsertGood(v: seq<Timer>, t: Timer)
    requires Future(v) && !HasId(v, t.id) && t.due > 0
    ensures Future(InsertDue(v, t))
  {
    InsertSorted(v, t);
    InsertUnique(v, t);
    var k := InsertSplits(v, t);
    forall i | 0 <= i < |InsertDue(v, t)| ensures InsertDue(v, t)[i].due > 0 {
      assert InsertDue(v, t)[i] == if i < k then v[i] else if i == k then t else v[i - 1];
    }
  }

  lemma InsertSorted(v: seq<Timer>, t: Timer)
    requires Sorted(v)
    ensures Sorted(InsertDue(v, t))
  {
    var k := InsertSplits(v, t);
  }

  lemma InsertUnique(v: seq<Timer>, t: Timer)
    requires Sorted(v) && Unique(v) && !HasId(v, t.id)
    ensures Unique(InsertDue(v, t))
  {
    var k := InsertSplits(v, t);
  }

  lemma TickGood(v: seq<Timer>)
    requires Future(v)
    ensures Future(Step(v, Tick).0)
  {
    var k := TickSplits(v);
  }

  /** Other timers' insertions and removals do not move a timer's due time; a tick brings it one nearer
      or fires it. */
  lemma StepOther(v: seq<Timer>, op: Op, id: nat, due: nat)
    requires Future(v) && Legal(v, op) && Timer(id, due) in v && (op.Tick? || op.id != id)
    ensures !op.Tick? ==> Timer(id, due) in Step(v, op).0
    ensures op.Tick? && due > 1 ==> Timer(id, due - 1) in Step(v, op).0 && id !in Step(v, op).1
    ensures op.Tick? && due == 1 ==> !HasId(Step(v, op).0, id) && id in Step(v, op).1
  {
    match op
    case Insert(x, ticks) => InsertHas(v, Timer(x, ticks), Timer(id, due));
    case Dequeue(x) => WithoutHas(v, x, Timer(id, due));
    case Tick => OtherTick(v, id, due);
  }

  lemma InsertHas(v: seq<Timer>, t: Timer, o: Timer)
    requires Sorted(v) && o in v
    ensures o in InsertDue(v, t)
  {
    var i :| 0 <= i < |v| && v[i] == o;
    var k := InsertSplits(v, t);
    assert InsertDue(v, t)[if i < k then i else i + 1] == o;
  }

  lemma OtherTick(v: seq<Timer>, id: nat, due: nat)
    requires Future(v) && Timer(id, due) in v
    ensures due > 1 ==> Timer(id, due - 1) in Step(v, Tick).0 && id !in Step(v, Tick).1
    ensures due == 1 ==> !HasId(Step(v, Tick).0, id) && id in Step(v, Tick).1
  {
    var i :| 0 <= i < |v| && v[i] == Timer(id, due);
    var k := TickSplits(v);
    if i < k { assert Step(v, Tick).1[i] == id; } else { assert Step(v, Tick).0[i - k] == Timer(id, due - 1); }
  }

  lemma StepAbsent(v: seq<Timer>, op: Op, id: nat)
    requires Future(v) && Legal(v, op) && !HasId(v, id) && (op.Tick? || op.id != id)
    ensures !HasId(Step(v, op).0, id) && id !in Step(v, op).1
  {
    match op
    case Insert(x, ticks) => var k := InsertSplits(v, Timer(x, ticks));
    case Dequeue(x) => var k := WithoutSplits(v, x);
    case Tick => var k := TickSplits(v);
  }

  lemma Positive(v: seq<Timer>, t: Timer)
    requires Good(v) && t in v
    ensures t.due > 0
  {
    GoodIsFuture(v);
  }

  lemma GoodAbsent(v: seq<Timer>, op: Op, id: nat)
    requires Good(v) && Legal(v, op) && !HasId(v, id) && (op.Tick? || op.id != id)
    ensures Good(Step(v, op).0) && !HasId(Step(v, op).0, id) && id !in Step(v, op).1
  {
    GoodIsFuture(v);
    StepGood(v, op);
    StepAbsent(v, op, id);
    GoodIsFuture(Step(v, op).0);
  }

  lemma GoodOther(v: seq<Timer>, op: Op, id: nat, due: nat)
    requires Good(v) && Legal(v, op) && Timer(id, due) in v && (op.Tick? || op.id != id)
    ensures Good(Step(v, op).0) && due > 0
    ensures !op.Tick? ==> Timer(id, due) in Step(v, op).0
    ensures op.Tick? && due > 1 ==> Timer(id, due - 1) in Step(v, op).0 && id !in Step(v, op).1
    ensures op.Tick? && due == 1 ==> !HasId(Step(v, op).0, id) && id in Step(v, op).1
  {
    GoodIsFuture(v);
    StepGood(v, op);
    StepOther(v, op, id, due);
    GoodIsFuture(Step(v, op).0);
  }

  lemma {:induction false} AbsentNeverFires(v: seq<Timer>, ops: seq<Op>, id: nat)
    requires Good(v) && LegalRun(v, ops) && !HasId(v, id) && !Mentions(ops, id)
    ensures !HasId(Run(v, ops), id) && |Fires(v, ops)| == Ticks(ops)
    ensures forall k :: 0 <= k < |Fires(v, ops)| ==> id !in Fires(v, ops)[k]
    decreases |ops|
  {
    if ops != [] {
      GoodAbsent(v, ops[0], id);
      AbsentNeverFires(Step(v, ops[0]).0, ops[1..], id);
    }
  }

  /** Whole-run exactness: a timer due in d ticks that is not touched again fires on the d-th tick and
      on no other, whatever is inserted, removed or fired in between. */
  lemma {:induction false} FiresExactly(v: seq<Timer>, ops: seq<Op>, id: nat, due: nat)
    requires Good(v) && LegalRun(v, ops) && Timer(id, due) in v && !Mentions(ops, id)
    ensures |Fires(v, ops)| == Ticks(ops) && due > 0
    ensures Ticks(ops) < due ==> Timer(id, due - Ticks(ops)) in Run(v, ops)
    ensures Ticks(ops) >= due ==> !HasId(Run(v, ops), id)
    ensures forall k :: 0 <= k < |Fires(v, ops)| ==> (id in Fires(v, ops)[k] <==> k == due - 1)
    decreases |ops|
  {
    Positive(v, Timer(id, due));
    if ops != [] {
      var op, v1, rest := ops[0], Step(v, ops[0]).0, ops[1..];
      GoodOther(v, op, id, due);
      if op.Tick? && due == 1 {
        AbsentNeverFires(v1, rest, id);
      } else {
        FiresExactly(v1, rest, id, if op.Tick? then due - 1 else due);
      }
    }
  }

  predicate Before(f: seq<nat>, a: nat, b: nat) { exists i, j :: 0 <= i < j < |f| && f[i] == a && f[j] == b }

  predicate AheadAt(v: seq<Timer>, i: nat, j: nat, a: nat, b: nat) { i < j < |v| && v[i].id == a && v[j].id == b }

  /** Timer a stands before timer b in the chain. */
  ghost predicate Ahead(v: seq<Timer>, a: nat, b: nat) { exists i: nat, j: nat :: AheadAt(v, i, j, a, b) }

  /** Ties fire in order of insertion: a timer stands behind every timer already due at the same tick. */
  lemma TiesInOrder(v: seq<Timer>, a: nat, b: nat, ticks: nat)
    requires Future(v) && Timer(a, ticks) in v && !HasId(v, b) && ticks > 0
    ensures Ahead(InsertDue(v, Timer(b, ticks)), a, b)
  {
    var i :| 0 <= i < |v| && v[i] == Timer(a, ticks);
    var k := InsertSplits(v, Timer(b, ticks));
    assert AheadAt(InsertDue(v, Timer(b, ticks)), i, k, a, b);
  }

  /** Two timers keep their order through every operation on others and through every tick, until the
      first of them fires; and they fire in that order. */
  lemma OrderKept(v: seq<Timer>, op: Op, a: nat, b: nat)
    requires Future(v) && Legal(v, op) && Ahead(v, a, b) && (op.Tick? || (op.id != a && op.id != b))
    ensures Ahead(Step(v, op).0, a, b) || a in Step(v, op).1
    ensures b in Step(v, op).1 ==> Before(Step(v, op).1, a, b)
  {
    var i: nat, j: nat :| AheadAt(v, i, j, a, b);
    match op
    case Insert(id, ticks) => OrderInsert(v, Timer(id, ticks), i, j);
    case Dequeue(id) => OrderDequeue(v, id, i, j);
    case Tick => OrderTick(v, i, j);
  }

  lemma OrderInsert(v: seq<Timer>, t: Timer, i: nat, j: nat)
    requires Sorted(v) && i < j < |v|
    ensures Ahead(InsertDue(v, t), v[i].id, v[j].id)
  {
    var k := InsertSplits(v, t);
    var i', j' := if i < k then i else i + 1, if j < k then j else j + 1;
    assert AheadAt(InsertDue(v, t), i', j', v[i].id, v[j].id);
  }

  lemma OrderDequeue(v: seq<Timer>, id: nat, i: nat, j: nat)
    requires i < j < |v| && id != v[i].id && id != v[j].id
    ensures Ahead(WithoutId(v, id), v[i].id, v[j].id)
  {
    var k := WithoutSplits(v, id);
    var i', j' := if i < k then i else i - 1, if j < k then j else j - 1;
    assert AheadAt(WithoutId(v, id), i', j', v[i].id, v[j].id);
  }

  lemma OrderTick(v: seq<Timer>, i: nat, j: nat)
    requires Future(v) && i < j < |v|
    ensures Ahead(Step(v, Tick).0, v[i].id, v[j].id) || v[i].id in Step(v, Tick).1
    ensures v[j].id in Step(v, Tick).1 ==> Before(Step(v, Tick).1, v[i].id, v[j].id)
  {
    var w, f := Step(v, Tick).0, Step(v, Tick).1;
    var k := TickSplits(v);
    if i < k { assert f[i] == v[i].id; } else { assert AheadAt(w, i - k, j - k, v[i].id, v[j].id); }
    if v[j].id in f {
      var m :| 0 <= m < |f| && f[m] == v[j].id;
      assert m == j;
      assert f[i] == v[i].id && f[j] == v[j].id;
    }
  }

  // ---------------------------------------------------------------------------
  // Insertions with zero ticks
  // ---------------------------------------------------------------------------

  /** What is left when zero-tick insertions are let in. */
  predicate Ordered(v: seq<Timer>) { Sorted(v) && Unique(v) }

  lemma {:induction false} TidyIsOrdered(v: seq<Timer>)
    ensures Tidy(v) <==> Ordered(v)
  {
    if v != [] {
      TidyIsOrdered(v[1..]);
      if Ordered(v) {
        FrontUnique(v);
      } else if Tidy(v) {
        FrontFirst(v);
      }
    }
  }

  lemma FrontUnique(v: seq<Timer>)
    requires v != [] && Ordered(v)
    ensures Ordered(v[1..]) && !HasId(v[1..], v[0].id)
  {
    forall i | 0 <= i < |v[1..]| ensures v[1..][i].id != v[0].id { assert v[1..][i] == v[i + 1]; }
  }

  lemma FrontFirst(v: seq<Timer>)
    requires v != [] && Ordered(v[1..]) && !HasId(v[1..], v[0].id) && (|v| > 1 ==> v[0].due <= v[1].due)
    ensures Ordered(v)
  {
    forall i, j | 0 <= i < j < |v| ensures v[i].due <= v[j].due && v[i].id != v[j].id {
      assert v[j] == v[1..][j - 1];
      if i > 0 { assert v[i] == v[1..][i - 1]; } else { assert v[1] == v[1..][0]; }
    }
  }

  predicate Fresh(v: seq<Timer>, op: Op) { op.Insert? ==> !HasId(v, op.id) }

  predicate FreshRun(v: seq<Timer>, ops: seq<Op>)
    decreases |ops|
  {
    ops == [] || (Fresh(v, ops[0]) && FreshRun(Step(v, ops[0]).0, ops[1..]))
  }

  /** The tick finds a timer that is already due, and fires it without a unit of time passing. */
  predicate Wasted(v: seq<Timer>, op: Op) { op.Tick? && v != [] && v[0].due == 0 }

  /** One of the first n ticks is wasted. */
  predicate WastedWithin(v: seq<Timer>, ops: seq<Op>, n: nat)
    decreases |ops|
  {
    ops != [] && n > 0 &&
    (Wasted(v, ops[0]) || WastedWithin(Step(v, ops[0]).0, ops[1..], if ops[0].Tick? then n - 1 else n))
  }

  lemma StepTidy(v: seq<Timer>, op: Op, id: nat, due: nat)
    requires Tidy(v) && Fresh(v, op) && Timer(id, due) in v && due > 0 && (op.Tick? || op.id != id)
    ensures Tidy(Step(v, op).0)
    ensures !op.Tick? || Wasted(v, op) ==> Timer(id, due) in Step(v, op).0 && id !in Step(v, op).1
    ensures op.Tick? && !Wasted(v, op) && due > 1 ==> Timer(id, due - 1) in Step(v, op).0 && id !in Step(v, op).1
    ensures op.Tick? && !Wasted(v, op) && due == 1 ==> id in Step(v, op).1
  {
    TidyIsOrdered(v);
    StepOrdered(v, op, id, due);
    TidyIsOrdered(Step(v, op).0);
  }

  lemma StepOrdered(v: seq<Timer>, op: Op, id: nat, due: nat)
    requires Ordered(v) && Fresh(v, op) && Timer(id, due) in v && due > 0 && (op.Tick? || op.id != id)
    ensures Ordered(Step(v, op).0)
    ensures !op.Tick? || Wasted(v, op) ==> Timer(id, due) in Step(v, op).0 && id !in Step(v, op).1
    ensures op.Tick? && !Wasted(v, op) && due > 1 ==> Timer(id, due - 1) in Step(v, op).0 && id !in Step(v, op).1
    ensures op.Tick? && !Wasted(v, op) && due == 1 ==> id in Step(v, op).1 && !HasId(Step(v, op).0, id)
  {
    match op
    case Insert(x, ticks) => InsertOther(v, Timer(x, ticks), Timer(id, due));
    case Dequeue(x) => DequeueOther(v, x, Timer(id, due));
    case Tick =>
      if Wasted(v, op) {
        var i :| 0 <= i < |v| && v[i] == Timer(id, due);
        WastedTick(v, i);
      } else {
        StepOther(v, op, id, due);
        TickGood(v);
      }
  }

  lemma InsertOther(v: seq<Timer>, t: Timer, u: Timer)
    requires Ordered(v) && !HasId(v, t.id) && u in v
    ensures Ordered(InsertDue(v, t)) && u in InsertDue(v, t)
  {
    InsertSorted(v, t);
    InsertUnique(v, t);
    InsertHas(v, t, u);
  }

  lemma DequeueOther(v: seq<Timer>, x: nat, u: Timer)
    requires Ordered(v) && u in v && u.id != x
    ensures Ordered(WithoutId(v, x)) && u in WithoutId(v, x)
  {
    WithoutSorted(v, x);
    WithoutUnique(v, x);
    WithoutHas(v, x, u);
  }

  lemma WithoutSorted(v: seq<Timer>, x: nat)
    requires Sorted(v)
    ensures Sorted(WithoutId(v, x))
  {
    var k := WithoutSplits(v, x);
  }

  lemma WithoutUnique(v: seq<Timer>, x: nat)
    requires Unique(v)
    ensures Unique(WithoutId(v, x))
  {
    var k := WithoutSplits(v, x);
  }

  lemma WithoutHas(v: seq<Timer>, x: nat, u: Timer)
    requires u in v && u.id != x
    ensures u in WithoutId(v, x)
  {
    var k := WithoutSplits(v, x);
    var i :| 0 <= i < |v| && v[i] == u;
    assert WithoutId(v, x)[if i < k then i else i - 1] == u;
  }

  lemma WastedTick(v: seq<Timer>, i: nat)
    requires Ordered(v) && v != [] && v[0].due == 0 && i < |v| && v[i].due > 0
    ensures Ordered(Step(v, Tick).0) && v[i] in Step(v, Tick).0 && v[i].id !in Step(v, Tick).1
  {
    var k := DueSplits(v, 0);
    IdsAt(v[..k]);
    assert v[k..][i - k] == v[i];
  }

  /** Timer id fires on tick k of the run, counting from zero. */
  predicate FiresOn(v: seq<Timer>, ops: seq<Op>, id: nat, k: nat)
    decreases |ops|
  {
    ops != [] &&
    (if !ops[0].Tick? then FiresOn(Step(v, ops[0]).0, ops[1..], id, k)
     else if k == 0 then id in Step(v, ops[0]).1
     else FiresOn(Step(v, ops[0]).0, ops[1..], id, k - 1))
  }

  lemma {:induction false} FiresOnIs(v: seq<Timer>, ops: seq<Op>, id: nat, k: nat)
    ensures |Fires(v, ops)| == Ticks(ops)
    ensures FiresOn(v, ops, id, k) <==> k < Ticks(ops) && id in Fires(v, ops)[k]
    decreases |ops|
  {
    if ops != [] { FiresOnIs(Step(v, ops[0]).0, ops[1..], id, if ops[0].Tick? && k > 0 then k - 1 else k); }
  }

  /** No timer fires early, even with zero-tick insertions. */
  lemma {:induction false} NeverEarly(v: seq<Timer>, ops: seq<Op>, id: nat, due: nat, k: nat)
    requires Tidy(v) && FreshRun(v, ops) && Timer(id, due) in v && k + 1 < due && !Mentions(ops, id)
    ensures !FiresOn(v, ops, id, k)
    decreases |ops|
  {
    if ops != [] {
      StepTidy(v, ops[0], id, due);
      var v1 := Step(v, ops[0]).0;
      if !ops[0].Tick? {
        NeverEarly(v1, ops[1..], id, due, k);
      } else if k > 0 {
        NeverEarly(v1, ops[1..], id, if Wasted(v, ops[0]) then due else due - 1, k - 1);
      }
    }
  }

  /** With zero-tick insertions let in, a timer due in d ticks fires on the d-th tick if and only if none of
      the first d ticks is wasted on a timer that was already due. */
  lemma {:induction false} FiresIffNoneWasted(v: seq<Timer>, ops: seq<Op>, id: nat, due: nat)
    requires Tidy(v) && FreshRun(v, ops) && Timer(id, due) in v && 0 < due <= Ticks(ops) && !Mentions(ops, id)
    ensures FiresOn(v, ops, id, due - 1) <==> !WastedWithin(v, ops, due)
    decreases |ops|
  {
    StepTidy(v, ops[0], id, due);
    if !ops[0].Tick? {
      FiresIffNoneWasted(Step(v, ops[0]).0, ops[1..], id, due);
    } else if due > 1 {
      if Wasted(v, ops[0]) {
        NeverEarly(Step(v, ops[0]).0, ops[1..], id, due, due - 2);
      } else {
        FiresIffNoneWasted(Step(v, ops[0]).0, ops[1..], id, due - 1);
      }
    }
  }

  // ---------------------------------------------------------------------------
  // Ties over whole runs
  // ---------------------------------------------------------------------------

  /** Timers a and b are due at the same tick, a before b, and nothing is overdue. */
  ghost predicate Tied(v: seq<Timer>, a: nat, b: nat, due: nat) {
    Good(v) && Timer(a, due) in v && Timer(b, due) in v && Ahead(v, a, b)
  }

  lemma TiedStep(v: seq<Timer>, op: Op, a: nat, b: nat, due: nat)
    requires Tied(v, a, b, due) && Legal(v, op) && (op.Tick? || (op.id != a && op.id != b))
    ensures !op.Tick? ==> Tied(Step(v, op).0, a, b, due)
    ensures op.Tick? && due > 1 ==> Tied(Step(v, op).0, a, b, due - 1)
    ensures op.Tick? && due == 1 ==> Before(Step(v, op).1, a, b)
  {
    GoodOther(v, op, a, due);
    GoodOther(v, op, b, due);
    GoodIsFuture(v);
    OrderKept(v, op, a, b);
  }

  /** Of two timers due at the same tick, the one that stands first fires first on it, in every run. */
  lemma {:induction false} TiesFireInOrder(v: seq<Timer>, ops: seq<Op>, a: nat, b: nat, due: nat)
    requires Tied(v, a, b, due) && LegalRun(v, ops) && !Mentions(ops, a) && !Mentions(ops, b) && due <= Ticks(ops)
    ensures |Fires(v, ops)| == Ticks(ops) && due > 0 && Before(Fires(v, ops)[due - 1], a, b)
    decreases |ops|
  {
    FiresLength(v, ops);
    Positive(v, Timer(a, due));
    TiedStep(v, ops[0], a, b, due);
    if !ops[0].Tick? {
      TiesFireInOrder(Step(v, ops[0]).0, ops[1..], a, b, due);
    } else if due > 1 {
      TiesFireInOrder(Step(v, ops[0]).0, ops[1..], a, b, due - 1);
    }
  }

  lemma {:induction false} FiresLength(v: seq<Timer>, ops: seq<Op>)
    ensures |Fires(v, ops)| == Ticks(ops)
    decreases |ops|
  {
    if ops != [] { FiresLength(Step(v, ops[0]).0, ops[1..]); }
  }

  /** So ties fire in order of insertion: a timer inserted when another has as many ticks left fires on the
      same tick, after it, whatever happens to the others in between. */
  lemma InsertionOrder(v: seq<Timer>, ops: seq<Op>, a: nat, b: nat, ticks: nat)
    requires Good(v) && Timer(a, ticks) in v && !HasId(v, b) && ticks > 0
    requires LegalRun(InsertDue(v, Timer(b, ticks)), ops) && !Mentions(ops, a) && !Mentions(ops, b) && ticks <= Ticks(ops)
    ensures var w := InsertDue(v, Timer(b, ticks)); |Fires(w, ops)| == Ticks(ops) && Before(Fires(w, ops)[ticks - 1], a, b)
  {
    var w := InsertDue(v, Timer(b, ticks));
    GoodIsFuture(v);
    InsertGood(v, Timer(b, ticks));
    GoodIsFuture(w);
    TiesInOrder(v, a, b, ticks);
    var k := InsertSplits(v, Timer(b, ticks));
    assert w[k] == Timer(b, ticks);
    InsertOther(v, Timer(b, ticks), Timer(a, ticks));
    TiesFireInOrder(w, ops, a, b, ticks);
  }

  // ---------------------------------------------------------------------------
  // Runs of the chain itself
  // ---------------------------------------------------------------------------

  /** The position of a timer's node in the chain. */
  function Position(nodes: seq<Node>, id: nat): (i: nat)
    requires exists k :: 0 <= k < |nodes| && nodes[k].id == id
    ensures i < |nodes| && nodes[i].id == id
  {
    if nodes[0].id == id then 0
    else
      assert exists k :: 0 <= k < |nodes[1..]| && nodes[1..][k].id == id by {
        var k :| 0 <= k < |nodes| && nodes[k].id == id;
        assert nodes[1..][k - 1].id == id;
      }
      1 + Position(nodes[1..], id)
  }

  /** One operation on the nodes, as the methods of the chain compute it. */
  function ChainStep(chain: seq<Node>, op: Op): (seq<Node>, seq<nat>) {
    match op
    case Insert(id, ticks) => (InsertChain(chain, id, ticks), [])
    case Dequeue(id) =>
      (if exists k :: 0 <= k < |chain| && chain[k].id == id then RemoveChain(chain, Position(chain, id)) else chain, [])
    case Tick => TickChain(chain)
  }

  function ChainRun(chain: seq<Node>, ops: seq<Op>): seq<Node>
    decreases |ops|
  {
    if ops == [] then chain else ChainRun(ChainStep(chain, ops[0]).0, ops[1..])
  }

  function ChainFires(chain: seq<Node>, ops: seq<Op>): seq<seq<nat>>
    decreases |ops|
  {
    if ops == [] then []
    else (if ops[0].Tick? then [ChainStep(chain, ops[0]).1] else []) + ChainFires(ChainStep(chain, ops[0]).0, ops[1..])
  }

  lemma StepRefines(chain: seq<Node>, op: Op)
    requires Distinct(chain)
    ensures View(ChainStep(chain, op).0, 0) == Step(View(chain, 0), op).0
    ensures ChainStep(chain, op).1 == Step(View(chain, 0), op).1
  {
    ViewShape(chain, 0);
    match op
    case Insert(id, ticks) => InsertKeepsDue(chain, id, ticks, 0);
    case Dequeue(id) =>
      if exists k :: 0 <= k < |chain| && chain[k].id == id {
        RemoveKeepsDue(chain, Position(chain, id), 0);
      } else {
        var k := WithoutSplits(View(chain, 0), id);
      }
    case Tick => TickRefines(chain);
  }

  lemma TickRefines(chain: seq<Node>)
    ensures View(TickChain(chain).0, 0) == Step(View(chain, 0), Tick).0
    ensures TickChain(chain).1 == Step(View(chain, 0), Tick).1
  {
    if chain != [] {
      if chain[0].delta == 0 {
        AdvanceIsDue(chain);
      } else {
        FrontLater(chain);
        AdvanceIsDue(chain[0 := Node(chain[0].id, chain[0].delta - 1)]);
      }
    }
  }

  lemma DistinctView(chain: seq<Node>)
    ensures Distinct(chain) <==> Unique(View(chain, 0))
  {
    ViewShape(chain, 0);
  }

  lemma StepUnique(v: seq<Timer>, op: Op)
    requires Ordered(v) && Fresh(v, op)
    ensures Unique(Step(v, op).0)
  {
    match op
    case Insert(id, ticks) => InsertUnique(v, Timer(id, ticks));
    case Dequeue(id) => WithoutUnique(v, id);
    case Tick => TickUnique(v);
  }

  lemma TickUnique(v: seq<Timer>)
    requires Ordered(v)
    ensures Unique(Step(v, Tick).0)
  {
    if v != [] {
      var w := if v[0].due == 0 then v else Later(v);
      LaterSorted(v);
      LaterUnique(v);
      var k := DueSplits(w, 0);
      SuffixUnique(w, k);
    }
  }

  lemma LaterUnique(v: seq<Timer>)
    requires Unique(v)
    ensures Unique(Later(v))
  {
    LaterAt(v);
  }

  lemma SuffixUnique(v: seq<Timer>, k: nat)
    requires Unique(v) && k <= |v|
    ensures Unique(v[k..])
  {
  }

  /** Every run of the deltas is the run of the due times that it stands for: what is left of each timer and
      what fires on each tick. */
  lemma {:induction false} RunRefines(chain: seq<Node>, ops: seq<Op>)
    requires Distinct(chain) && FreshRun(View(chain, 0), ops)
    ensures View(ChainRun(chain, ops), 0) == Run(View(chain, 0), ops)
    ensures ChainFires(chain, ops) == Fires(View(chain, 0), ops)
    decreases |ops|
  {
    if ops != [] {
      StepRefines(chain, ops[0]);
      ViewSorted(chain, 0);
      DistinctView(chain);
      StepUnique(View(chain, 0), ops[0]);
      DistinctView(ChainStep(chain, ops[0]).0);
      RunRefines(ChainStep(chain, ops[0]).0, ops[1..]);
    }
  }

  /** Such a tick: the one that fires a zero-tick timer does not count for the other. */
  lemma ZeroTickDelays()
    ensures Fires([], [Insert(1, 1), Insert(0, 0), Tick, Tick]) == [[0], [1]]
  {
    var v1 := [Timer(1, 1)];
    var v2 := [Timer(0, 0), Timer(1, 1)];
    assert Step([], Insert(1, 1)).0 == v1;
    assert Step(v1, Insert(0, 0)).0 == v2;
    assert v2[1..] == v1 && DuePrefix(v1, 0) == [] && DueSuffix(v1, 0) == v1;
    assert DuePrefix(v2, 0) == [Timer(0, 0)] && DueSuffix(v2, 0) == v1;
    assert Ids([Timer(0, 0)]) == [0] && Ids([Timer(1, 0)]) == [1];
    assert Step(v2, Tick) == (v1, [0]);
    assert Later(v1) == [Timer(1, 0)];
    assert DuePrefix([Timer(1, 0)], 0) == [Timer(1, 0)] && DueSuffix([Timer(1, 0)], 0) == [];
    assert Step(v1, Tick) == ([], [1]);
    var ops := [Insert(1, 1), Insert(0, 0), Tick, Tick];
    assert ops[1..] == [Insert(0, 0), Tick, Tick] && ops[1..][1..] == [Tick, Tick] && ops[1..][1..][1..] == [Tick];
    assert Fires(v1, [Tick]) == [[1]];
    assert Fires(v2, [Tick, Tick]) == [[0]] + Fires(v1, [Tick]);
    assert Fires(v1, [Insert(0, 0), Tick, Tick]) == Fires(v2, [Tick, Tick]);
  }
}

/** The mixed-criticality run queue (src/kernel/sched/sched_dsa.c): a task of criticality c is threaded
    through the bins 0 to c, each bin is a deque for every priority with a bitmap of the non-empty
    ones, and the aging pop masks the bitmap of the bin it serves for the time of one pop.

    Behind all of it is the sequence of the queued tasks in order of arrival; every deque is a part of
    that sequence. */
module RunQueue {
  import opened Bmp256
  import opened Seqs

  /** A task's priority and criticality do not change while it is queued. */
  datatype Task = Task(id: nat, priority: nat, criticality: nat)

  datatype Slot = Slot(bin: nat, priority: nat)

  type Deques = map<Slot, seq<Task>>

  predicate IsPriority(p: nat) { p < SIZE }

  ghost function All(): set<nat> { set p: nat | p < SIZE && IsPriority(p) }

  /** The members of a bitmap. */
  ghost function Members(b: Bmp): set<nat>
    requires |b| == WORDS
  {
    set p | 0 <= p < SIZE && Bit(b, p)
  }

  // ---------------------------------------------------------------------------
  // Parts of the arrival sequence
  // ---------------------------------------------------------------------------

  /** The queued tasks of priority p that bin i holds, oldest first. */
  ghost function Filter(q: seq<Task>, i: nat, p: nat): seq<Task> {
    if q == [] then []
    else if q[0].criticality >= i && q[0].priority == p then [q[0]] + Filter(q[1..], i, p)
    else Filter(q[1..], i, p)
  }

  lemma {:induction false} FilterPush(q: seq<Task>, t: Task, i: nat, p: nat)
    ensures Filter(q + [t], i, p) == if t.criticality >= i && t.priority == p then Filter(q, i, p) + [t] else Filter(q, i, p)
  {
    if q == [] {
      assert (q + [t])[1..] == [];
    } else {
      assert (q + [t])[1..] == q[1..] + [t];
      FilterPush(q[1..], t, i, p);
    }
  }

  lemma {:induction false} FilterMember(q: seq<Task>, i: nat, p: nat, t: Task)
    ensures t in Filter(q, i, p) <==> t in q && t.criticality >= i && t.priority == p
  {
    if q != [] {
      FilterMember(q[1..], i, p, t);
      assert t in q <==> t == q[0] || t in q[1..];
    }
  }

  lemma {:induction false} FilterWithout(q: seq<Task>, t: Task, i: nat, p: nat)
    requires NoDup(q)
    ensures Filter(Without(q, t), i, p) == Without(Filter(q, i, p), t)
  {
    if q != [] {
      if q[0] == t {
        if !(t.criticality >= i && t.priority == p) {
          FilterMember(q[1..], i, p, t);
          WithoutAbsent(Filter(q[1..], i, p), t);
        }
      } else {
        FilterWithout(q[1..], t, i, p);
        assert Without(q, t)[1..] == Without(q[1..], t);
      }
    }
  }

  /** t has arrived before every other task of its priority in bin i. */
  ghost predicate Oldest(q: seq<Task>, i: nat, t: Task) {
    exists k: nat | k < |q| :: q[k] == t && NoneBefore(q, i, t.priority, k)
  }

  ghost predicate NoneBefore(q: seq<Task>, i: nat, p: nat, k: nat)
    requires k <= |q|
  {
    forall j: nat | j < k :: q[j].criticality < i || q[j].priority != p
  }

  lemma {:induction false} FrontIsOldest(q: seq<Task>, i: nat, p: nat)
    requires Filter(q, i, p) != []
    ensures Oldest(q, i, Filter(q, i, p)[0])
  {
    var t := Filter(q, i, p)[0];
    if q[0].criticality >= i && q[0].priority == p {
      assert q[0] == t && NoneBefore(q, i, p, 0);
    } else {
      FrontIsOldest(q[1..], i, p);
      FilterMember(q[1..], i, p, t);
      var k: nat :| k < |q[1..]| && q[1..][k] == t && NoneBefore(q[1..], i, p, k);
      assert q[k + 1] == t;
      forall j: nat | j < k + 1 ensures q[j].criticality < i || q[j].priority != p {
        if j > 0 { assert q[j] == q[1..][j - 1]; }
      }
    }
  }

  /** What a scheduler that looks at the tasks of bin i with a priority in allow has to pick. */
  ghost predicate Picks(q: seq<Task>, i: nat, allow: set<nat>, t: Task) {
    && t in q && t.criticality >= i && t.priority in allow
    && (forall u | u in q && u.criticality >= i && u.priority in allow :: u.priority <= t.priority)
    && Oldest(q, i, t)
  }

  ghost predicate Eligible(q: seq<Task>, i: nat, allow: set<nat>) {
    exists u :: u in q && u.criticality >= i && u.priority in allow
  }

  /** The criticality level, or all tasks when none is at or above it. */
  ghost function PickLevel(q: seq<Task>, level: nat): nat {
    if Eligible(q, level, All()) then level else 0
  }

  // ---------------------------------------------------------------------------
  // Bins
  // ---------------------------------------------------------------------------

  ghost predicate SlotOk(d: Deques, b: Bmp, i: nat, p: nat, q: seq<Task>, allow: set<nat>)
    requires |b| == WORDS
  {
    && Slot(i, p) in d && d[Slot(i, p)] == Filter(q, i, p)
    && (p in Members(b) <==> Filter(q, i, p) != [] && p in allow)
  }

  /** Bin i holds the queued tasks of criticality i and more, first in first out for each priority, and
      its bitmap says which of the priorities in allow have one. */
  ghost predicate BinOk(d: Deques, b: Bmp, i: nat, q: seq<Task>, allow: set<nat>) {
    Wf(b) && forall p: nat {:trigger SlotOk(d, b, i, p, q, allow)} | p < SIZE :: SlotOk(d, b, i, p, q, allow)
  }

  lemma MembersOps(b: Bmp, i: nat)
    requires Wf(b) && i < SIZE
    ensures Wf(SetAt(b, i)) && Members(SetAt(b, i)) == Members(b) + {i}
    ensures Wf(UnsetAt(b, i)) && Members(UnsetAt(b, i)) == Members(b) - {i}
  {
    SetAtBits(b, i);
    UnsetAtBits(b, i);
  }

  lemma MembersAnd(b: Bmp, c: Bmp)
    requires Wf(b) && Wf(c)
    ensures Wf(AndWith(b, c)) && Members(AndWith(b, c)) == Members(b) * Members(c)
  {
    AndBits(b, c);
  }

  lemma MembersAbove(b: Bmp, i: nat)
    requires Wf(b) && i < SIZE
    ensures Wf(UnsetAbove(b, i)) && Members(UnsetAbove(b, i)) == set p | p in Members(b) && p <= i
  {
    UnsetAboveBits(b, i);
  }

  lemma MembersConst()
    ensures Wf(Full()) && Members(Full()) == All() && Wf(Empty()) && Members(Empty()) == {}
  {
    FullBits();
    EmptyBits();
  }

  /** priorityq_awaiting_priority: the highest priority with a task, or -1. */
  method AwaitingPriority(b: Bmp) returns (p: int)
    requires Wf(b)
    ensures p == -1 <==> Members(b) == {}
    ensures p != -1 ==> 0 <= p < SIZE && p in Members(b) && forall o | o in Members(b) :: o <= p
  {
    p := Fls(b);
    assert p >= 0 ==> p in Members(b);
  }

  /** priorityq_push on one bin. */
  lemma BinPush(d: Deques, b: Bmp, i: nat, q: seq<Task>, t: Task)
    requires BinOk(d, b, i, q, All()) && t.priority < SIZE && t.criticality >= i
    ensures Slot(i, t.priority) in d
    ensures var s := Slot(i, t.priority); BinOk(d[s := d[s] + [t]], SetAt(b, t.priority), i, q + [t], All())
  {
    var s := Slot(i, t.priority);
    assert SlotOk(d, b, i, t.priority, q, All());
    MembersOps(b, t.priority);
    var d', b', q' := d[s := d[s] + [t]], SetAt(b, t.priority), q + [t];
    forall p: nat | p < SIZE ensures SlotOk(d', b', i, p, q', All()) {
      assert SlotOk(d, b, i, p, q, All());
      FilterPush(q, t, i, p);
    }
  }

  /** priorityq_dequeue on one bin. */
  lemma BinDequeue(d: Deques, b: Bmp, i: nat, q: seq<Task>, t: Task, allow: set<nat>)
    requires BinOk(d, b, i, q, allow) && NoDup(q) && t in q && t.priority < SIZE && t.criticality >= i
    ensures Slot(i, t.priority) in d
    ensures var s := Slot(i, t.priority); var rest := Without(d[s], t);
      BinOk(d[s := rest], if rest == [] then UnsetAt(b, t.priority) else b, i, Without(q, t), allow)
  {
    var s := Slot(i, t.priority);
    assert SlotOk(d, b, i, t.priority, q, allow);
    var rest := Without(d[s], t);
    var b' := if rest == [] then UnsetAt(b, t.priority) else b;
    MembersOps(b, t.priority);
    FilterMember(q, i, t.priority, t);
    var d', q' := d[s := rest], Without(q, t);
    forall p: nat | p < SIZE ensures SlotOk(d', b', i, p, q', allow) {
      assert SlotOk(d, b, i, p, q, allow);
      FilterWithout(q, t, i, p);
      if p != t.priority {
        FilterMember(q, i, p, t);
        WithoutAbsent(Filter(q, i, p), t);
      }
    }
  }

  /** A task that a bin does not hold makes no difference to it. */
  lemma BinIgnores(d: Deques, b: Bmp, i: nat, q: seq<Task>, t: Task, allow: set<nat>)
    requires BinOk(d, b, i, q, allow) && t.criticality < i
    ensures BinOk(d, b, i, q + [t], allow)
    ensures NoDup(q) ==> BinOk(d, b, i, Without(q, t), allow)
  {
    forall p: nat | p < SIZE ensures SlotOk(d, b, i, p, q + [t], allow) {
      assert SlotOk(d, b, i, p, q, allow);
      FilterPush(q, t, i, p);
    }
    if NoDup(q) {
      forall p: nat | p < SIZE ensures SlotOk(d, b, i, p, Without(q, t), allow) {
        assert SlotOk(d, b, i, p, q, allow);
        FilterWithout(q, t, i, p);
        FilterMember(q, i, p, t);
        WithoutAbsent(Filter(q, i, p), t);
      }
    }
  }

  /** Changing a deque of another bin makes no difference. */
  lemma BinFrame(d: Deques, b: Bmp, i: nat, q: seq<Task>, allow: set<nat>, s: Slot, v: seq<Task>)
    requires BinOk(d, b, i, q, allow) && s.bin != i
    ensures BinOk(d[s := v], b, i, q, allow)
  {
    var d' := d[s := v];
    forall p: nat | p < SIZE ensures SlotOk(d', b, i, p, q, allow) { assert SlotOk(d, b, i, p, q, allow); }
  }

  /** The bitmap of a bin names the priorities of its tasks. */
  lemma BinMembers(d: Deques, b: Bmp, i: nat, q: seq<Task>, allow: set<nat>)
    requires BinOk(d, b, i, q, allow) && forall u | u in q :: u.priority < SIZE
    ensures Members(b) != {} <==> Eligible(q, i, allow)
    ensures forall u | u in q && u.criticality >= i && u.priority in allow :: u.priority in Members(b)
  {
    forall u | u in q && u.criticality >= i && u.priority in allow ensures u.priority in Members(b) {
      assert SlotOk(d, b, i, u.priority, q, allow);
      FilterMember(q, i, u.priority, u);
    }
    if p :| p in Members(b) {
      assert SlotOk(d, b, i, p, q, allow);
      FilterMember(q, i, p, Filter(q, i, p)[0]);
    }
  }

  /** The first task of the highest priority that the bitmap names is the one to pick. */
  lemma FrontPicks(d: Deques, b: Bmp, i: nat, q: seq<Task>, allow: set<nat>, p: nat)
    requires BinOk(d, b, i, q, allow) && forall u | u in q :: u.priority < SIZE
    requires p in Members(b) && forall o | o in Members(b) :: o <= p
    ensures Slot(i, p) in d && d[Slot(i, p)] != [] && d[Slot(i, p)][0].priority == p
    ensures Picks(q, i, allow, d[Slot(i, p)][0])
  {
    assert SlotOk(d, b, i, p, q, allow);
    FrontIsOldest(q, i, p);
    FilterMember(q, i, p, Filter(q, i, p)[0]);
    BinMembers(d, b, i, q, allow);
  }

  // ---------------------------------------------------------------------------
  // The queue
  // ---------------------------------------------------------------------------

  /** Every bin is as it should be for the arrival sequence q; the bitmap of bin c is masked by allow. */
  ghost predicate Bins(d: Deques, bitmaps: seq<Bmp>, q: seq<Task>, c: nat, allow: set<nat>) {
    forall i: nat {:trigger BinAt(d, bitmaps, q, c, allow, i)} | i < |bitmaps| :: BinAt(d, bitmaps, q, c, allow, i)
  }

  ghost predicate BinAt(d: Deques, bitmaps: seq<Bmp>, q: seq<Task>, c: nat, allow: set<nat>, i: nat)
    requires i < |bitmaps|
  {
    BinOk(d, bitmaps[i], i, q, if i == c then allow else All())
  }

  ghost predicate TasksOk(q: seq<Task>, levels: nat) {
    NoDup(q) && forall u | u in q :: u.priority < SIZE && u.criticality < levels
  }

  lemma TasksAfter(q: seq<Task>, levels: nat, t: Task)
    requires TasksOk(q, levels)
    ensures TasksOk(Without(q, t), levels)
    ensures t !in q && t.priority < SIZE && t.criticality < levels ==> TasksOk(q + [t], levels)
  {
    WithoutMembers(q, t);
  }

  class Queue {
    const levels: nat             // CONFIG_KERNEL_SCHED_NUM_CRITICALITIES
    var deques: Deques
    var bitmaps: seq<Bmp>
    var level: nat                // criticality_level
    var aging: Bmp
    var iteration: nat
    ghost var queue: seq<Task>

    /** The state while the bitmap of bin c is masked. */
    ghost predicate Masked(c: nat, allow: set<nat>)
      reads this
    {
      && level < levels == |bitmaps| && Wf(aging)
      && TasksOk(queue, levels) && Bins(deques, bitmaps, queue, c, allow)
    }

    ghost predicate Valid()
      reads this
    {
      Masked(0, All())
    }

    /** __sched_init on a zeroed queue. */
    constructor (levels: nat)
      requires levels > 0
      ensures Valid() && queue == [] && this.levels == levels
    {
      this.levels := levels;
      deques := map i, p | 0 <= i < levels && 0 <= p < SIZE :: Slot(i, p) := [];
      bitmaps := seq(levels, _ => Empty());
      level, iteration, aging, queue := 0, 0, Full(), [];
      new;
      MembersConst();
      forall i: nat | i < levels ensures BinAt(deques, bitmaps, queue, 0, All(), i) {
        forall p: nat | p < SIZE ensures SlotOk(deques, bitmaps[i], i, p, queue, All()) { }
      }
    }

    /** __sched_priorityq_push */
    method Push(t: Task)
      requires Valid() && t !in queue && t.priority < SIZE && t.criticality < levels
      modifies this`deques, this`bitmaps, this`queue
      ensures Valid() && queue == old(queue) + [t]
    {
      ghost var q, q' := queue, queue + [t];
      var i := 0;
      while i <= t.criticality
        invariant i <= t.criticality + 1 && |bitmaps| == levels
        invariant PartlyDone(q, q', 0, All(), i)
      {
        PushBin(i, t, q, q');
        i := i + 1;
      }
      forall j: nat | j < levels ensures BinAt(deques, bitmaps, q', 0, All(), j) {
        assert BinDone(q, q', 0, All(), i, j);
        if j > t.criticality { BinIgnores(deques, bitmaps[j], j, q, t, All()); }
      }
      TasksAfter(q, levels, t);
      queue := q';
    }

    /** The bins below i have been brought from q to q', the others not yet. */
    ghost predicate PartlyDone(q: seq<Task>, q': seq<Task>, c: nat, allow: set<nat>, i: nat)
      reads this
    {
      forall j: nat {:trigger BinDone(q, q', c, allow, i, j)} | j < |bitmaps| :: BinDone(q, q', c, allow, i, j)
    }

    ghost predicate BinDone(q: seq<Task>, q': seq<Task>, c: nat, allow: set<nat>, i: nat, j: nat)
      requires j < |bitmaps|
      reads this
    {
      BinAt(deques, bitmaps, if j < i then q' else q, c, allow, j)
    }

    /** priorityq_push */
    method PushBin(i: nat, t: Task, ghost q: seq<Task>, ghost q': seq<Task>)
      requires i < |bitmaps| && t.priority < SIZE && t.criticality >= i && q' == q + [t]
      requires PartlyDone(q, q', 0, All(), i)
      modifies this`deques, this`bitmaps
      ensures |bitmaps| == |old(bitmaps)| && PartlyDone(q, q', 0, All(), i + 1)
    {
      ghost var d, b := deques, bitmaps;
      assert BinDone(q, q', 0, All(), i, i);
      BinPush(deques, bitmaps[i], i, q, t);
      var s := Slot(i, t.priority);
      deques := deques[s := deques[s] + [t]];
      bitmaps := bitmaps[i := SetAt(bitmaps[i], t.priority)];
      ghost var n := i + 1;
      forall j: nat | j < |bitmaps| ensures BinDone(q, q', 0, All(), n, j) {
        assert old(BinDone(q, q', 0, All(), i, j));
        if j != i { BinFrame(d, b[j], j, if j < i then q' else q, All(), s, deques[s]); }
      }
    }

    /** __sched_priorityq_dequeue */
    method Dequeue(t: Task, ghost c: nat, ghost allow: set<nat>)
      requires Masked(c, allow) && t in queue
      modifies this`deques, this`bitmaps, this`queue
      ensures Masked(c, allow) && queue == Without(old(queue), t)
    {
      ghost var q, q' := queue, Without(queue, t);
      var i := 0;
      while i <= t.criticality
        invariant i <= t.criticality + 1 && |bitmaps| == levels
        invariant PartlyDone(q, q', c, allow, i)
      {
        DequeueBin(i, t, q, q', c, allow);
        i := i + 1;
      }
      forall j: nat | j < levels ensures BinAt(deques, bitmaps, q', c, allow, j) {
        assert BinDone(q, q', c, allow, i, j);
        if j > t.criticality { BinIgnores(deques, bitmaps[j], j, q, t, if j == c then allow else All()); }
      }
      TasksAfter(q, levels, t);
      queue := q';
    }

    /** priorityq_dequeue */
    method DequeueBin(i: nat, t: Task, ghost q: seq<Task>, ghost q': seq<Task>, ghost c: nat, ghost allow: set<nat>)
      requires i < |bitmaps| && t in q && NoDup(q) && t.priority < SIZE && t.criticality >= i && q' == Without(q, t)
      requires PartlyDone(q, q', c, allow, i)
      modifies this`deques, this`bitmaps
      ensures |bitmaps| == |old(bitmaps)| && PartlyDone(q, q', c, allow, i + 1)
    {
      ghost var d, b := deques, bitmaps;
      assert BinDone(q, q', c, allow, i, i);
      BinDequeue(deques, bitmaps[i], i, q, t, if i == c then allow else All());
      var s := Slot(i, t.priority);
      deques := deques[s := Without(deques[s], t)];
      if deques[s] == [] { bitmaps := bitmaps[i := UnsetAt(bitmaps[i], t.priority)]; }
      ghost var n := i + 1;
      forall j: nat | j < |bitmaps| ensures BinDone(q, q', c, allow, n, j) {
        assert old(BinDone(q, q', c, allow, i, j));
        if j != i { BinFrame(d, b[j], j, if j < i then q' else q, if j == c then allow else All(), s, deques[s]); }
      }
    }

    /** __sched_priorityq_get_bin: the bin of the criticality level, or bin 0 if that is empty. */
    method GetBin() returns (found: bool, priority: nat, bin: nat)
      requires level < |bitmaps| && Wf(bitmaps[level]) && Wf(bitmaps[0])
      ensures found <==> Members(bitmaps[level]) != {} || Members(bitmaps[0]) != {}
      ensures found ==> bin == (if Members(bitmaps[level]) != {} then level else 0) && priority < SIZE
      ensures found ==> priority in Members(bitmaps[bin]) && forall p | p in Members(bitmaps[bin]) :: p <= priority
    {
      priority, bin := 0, level;
      var p := AwaitingPriority(bitmaps[bin]);
      found := p != -1;
      if !found && level != 0 {
        bin := 0;
        p := AwaitingPriority(bitmaps[bin]);
        found := p != -1;
      }
      if found { priority := p; }
    }

    /** Which bin is served depends on the tasks alone, as long as the mask leaves it something. */
    lemma ServedBin(c: nat, allow: set<nat>)
      requires Masked(c, allow) && c == PickLevel(queue, level) && allow <= All()
      ensures c < |bitmaps| && Wf(bitmaps[0]) && Wf(bitmaps[c]) && Wf(bitmaps[level])
      ensures Members(bitmaps[c]) != {} <==> Eligible(queue, c, allow)
      ensures c != level ==> Members(bitmaps[level]) == {}
    {
      assert BinAt(deques, bitmaps, queue, c, allow, 0) && BinAt(deques, bitmaps, queue, c, allow, c) && BinAt(deques, bitmaps, queue, c, allow, level);
      BinMembers(deques, bitmaps[c], c, queue, allow);
      BinMembers(deques, bitmaps[level], level, queue, if level == c then allow else All());
    }

    /** __sched_priorityq_pop while the bitmap of the served bin c is masked. */
    method PopMasked(ghost c: nat, ghost allow: set<nat>) returns (found: bool, t: Task)
      requires Masked(c, allow) && c == PickLevel(queue, level) && allow <= All()
      requires Eligible(queue, c, allow) || allow == All()
      modifies this`deques, this`bitmaps, this`queue
      ensures Masked(c, allow)
      ensures found <==> Eligible(old(queue), c, allow)
      ensures found ==> Picks(old(queue), c, allow, t) && queue == Without(old(queue), t)
      ensures !found ==> queue == old(queue)
    {
      t := Task(0, 0, 0);
      var priority, bin;
      ServedBin(c, allow);
      found, priority, bin := GetBin();
      if !found { return; }
      assert BinAt(deques, bitmaps, queue, c, allow, bin);
      FrontPicks(deques, bitmaps[bin], bin, queue, if bin == c then allow else All(), priority);
      t := deques[Slot(bin, priority)][0];
      Dequeue(t, c, allow);
    }

    /** Without a mask it does not matter which bin could have one. */
    lemma NoMask(c: nat, c': nat)
      requires Masked(c, All())
      ensures Masked(c', All())
    {
      forall i: nat | i < |bitmaps| ensures BinAt(deques, bitmaps, queue, c', All(), i) {
        assert BinAt(deques, bitmaps, queue, c, All(), i);
      }
    }

    /** The served bin has a task whenever there is one at all. */
    lemma SomeTask()
      requires Valid()
      ensures queue != [] <==> Eligible(queue, PickLevel(queue, level), All())
    {
      if queue != [] {
        var u := queue[0];
        assert u in queue && u.priority in All();
      }
    }

    /** __sched_priorityq_pop: the oldest task of the highest priority among those at or above the
        criticality level, or among all if there is none. */
    method Pop() returns (found: bool, t: Task)
      requires Valid()
      modifies this`deques, this`bitmaps, this`queue
      ensures Valid()
      ensures found <==> old(queue) != []
      ensures found ==> Picks(old(queue), PickLevel(old(queue), level), All(), t) && queue == Without(old(queue), t)
      ensures !found ==> queue == old(queue)
    {
      ghost var c := PickLevel(queue, level);
      NoMask(0, c);
      SomeTask();
      found, t := PopMasked(c, All());
      NoMask(c, 0);
    }

    /** __sched_priorityq_highest_priority: the priority of the task that a pop would take. */
    method HighestPriority() returns (p: int)
      requires Valid()
      ensures p == -1 <==> queue == []
      ensures forall t | Picks(queue, PickLevel(queue, level), All(), t) :: t.priority == p
    {
      ghost var c := PickLevel(queue, level);
      NoMask(0, c);
      SomeTask();
      ServedBin(c, All());
      p := AwaitingPriority(bitmaps[level]);
      if p == -1 && level > 0 { p := AwaitingPriority(bitmaps[0]); }
      if p != -1 {
        assert BinAt(deques, bitmaps, queue, c, All(), c);
        FrontPicks(deques, bitmaps[c], c, queue, All(), p);
      }
    }

    // -------------------------------------------------------------------------
    // Aging
    // -------------------------------------------------------------------------

    /** __sched_reset_age */
    method ResetAge()
      modifies this`aging, this`iteration
      ensures Wf(aging) && Members(aging) == All() && iteration == 0
    {
      MembersConst();
      aging, iteration := Full(), 0;
    }

    /** __sched_age: priorities above the last one leave the aging set; when their highest has had its
        2 h + 1 turns it leaves too, and an exhausted set starts over. */
    method Age(last: nat)
      requires Wf(aging) && last < SIZE
      modifies this`aging, this`iteration
      ensures Wf(aging) && Aged(Members(old(aging)), old(iteration), last, Members(aging), iteration)
    {
      MembersAbove(aging, last);
      aging := UnsetAbove(aging, last);
      var h := AwaitingPriority(aging);
      if h == -1 || h == 0 {
        ResetAge();
      } else if iteration == h * 2 {
        MembersOps(aging, h);
        aging := UnsetAt(aging, h);
        iteration := 0;
      } else {
        iteration := (iteration + 1) % 0x1_0000_0000;
      }
    }

    /** __sched_priorityq_pop_age */
    method PopAge() returns (found: bool, t: Task)
      requires Valid()
      modifies this`deques, this`bitmaps, this`queue, this`aging, this`iteration
      ensures Valid()
      ensures found <==> old(queue) != []
      ensures found ==> PicksAged(old(queue), PickLevel(old(queue), level), Members(old(aging)), t)
      ensures found ==> queue == Without(old(queue), t)
      ensures found ==> AgedAfter(old(queue), PickLevel(old(queue), level), Members(old(aging)), old(iteration), t.priority, Members(aging), iteration)
      ensures !found ==> queue == old(queue) && aging == old(aging)
    {
      ghost var c := PickLevel(queue, level);
      NoMask(0, c);
      SomeTask();
      ServedBin(c, All());
      var priority, bin;
      found, priority, bin := GetBin();
      t := Task(0, 0, 0);
      if found { t := ServeAged(bin); }
    }

    /** __sched_priorityq_pop_age for the bin that is served. */
    method ServeAged(bin: nat) returns (t: Task)
      requires Masked(bin, All()) && bin == PickLevel(queue, level) && Eligible(queue, bin, All())
      modifies this`deques, this`bitmaps, this`queue, this`aging, this`iteration
      ensures Valid() && PicksAged(old(queue), bin, Members(old(aging)), t) && queue == Without(old(queue), t)
      ensures AgedAfter(old(queue), bin, Members(old(aging)), old(iteration), t.priority, Members(aging), iteration)
    {
      ghost var q, d := queue, deques;
      assert BinAt(deques, bitmaps, queue, bin, All(), bin);
      var saved := bitmaps[bin];
      var next, allow := Narrow(bin);
      assert BinAt(deques, bitmaps, queue, bin, allow, bin);
      ghost var top := bitmaps[bin];
      var found;
      found, t := PopMasked(bin, allow);
      TopPicked(d, top, bin, q, allow, next, t);
      Restore(bin, saved, next, d, q, t, allow);
    }

    /** The end of __sched_priorityq_pop_age: one round of aging, and the saved bitmap comes back. */
    method Restore(bin: nat, saved: Bmp, next: nat, ghost d: Deques, ghost q: seq<Task>, ghost t: Task, ghost allow: set<nat>)
      requires Masked(bin, allow) && bin < |bitmaps| && queue == Without(q, t)
      requires BinOk(d, saved, bin, q, All()) && NoDup(q) && t.priority == next < SIZE && next in allow
      modifies this`bitmaps, this`aging, this`iteration
      ensures Valid()
      ensures Aged(Members(old(aging)), old(iteration), next, Members(aging), iteration)
    {
      ghost var masked := bitmaps;
      assert BinAt(deques, bitmaps, queue, bin, allow, bin);
      Unmasked(d, saved, deques, bitmaps[bin], bin, q, t, allow);
      var back := if Bit(bitmaps[bin], next) then saved else UnsetAt(saved, next);
      Age(next);
      bitmaps := bitmaps[bin := back];
      forall i: nat | i < |bitmaps| ensures BinAt(deques, bitmaps, queue, 0, All(), i) {
        assert BinAt(deques, masked, queue, bin, allow, i);
      }
    }

    /** Masks the bin with the aging set; a set that leaves no task starts over and masks nothing. */
    method Narrow(bin: nat) returns (next: nat, ghost allow: set<nat>)
      requires Masked(bin, All()) && bin < |bitmaps| && Eligible(queue, bin, All())
      modifies this`bitmaps, this`aging, this`iteration
      ensures Masked(bin, allow) && allow <= All()
      ensures allow == if Eligible(queue, bin, Members(old(aging))) then Members(old(aging)) else All()
      ensures bitmaps == old(bitmaps)[bin := bitmaps[bin]] && Eligible(queue, bin, allow)
      ensures Members(aging) == allow && iteration == if Eligible(queue, bin, Members(old(aging))) then old(iteration) else 0
      ensures Wf(bitmaps[bin]) && next in Members(bitmaps[bin]) && forall p | p in Members(bitmaps[bin]) :: p <= next
    {
      assert BinAt(deques, bitmaps, queue, bin, All(), bin);
      var saved := bitmaps[bin];
      allow := Members(aging);
      BinMask(deques, saved, bin, queue, aging);
      BinMembers(deques, AndWith(saved, aging), bin, queue, allow);
      BinMembers(deques, saved, bin, queue, All());
      bitmaps := bitmaps[bin := AndWith(saved, aging)];
      var p := AwaitingPriority(bitmaps[bin]);
      if p == -1 {
        ResetAge();
        bitmaps := bitmaps[bin := saved];
        p := AwaitingPriority(bitmaps[bin]);
        allow := All();
      }
      next := p;
      forall i: nat | i < |bitmaps| ensures BinAt(deques, bitmaps, queue, bin, allow, i) {
        assert old(BinAt(deques, bitmaps, queue, bin, All(), i));
      }
    }
  }

  ghost predicate PicksAged(q: seq<Task>, i: nat, aging: set<nat>, t: Task) {
    if Eligible(q, i, aging) then Picks(q, i, aging, t) else Picks(q, i, All(), t)
  }

  /** One round of aging: from the set a and the count n to a' and n'. */
  ghost predicate Aged(a: set<nat>, n: nat, last: nat, a': set<nat>, n': nat) {
    var cut := set p | p in a && p <= last;
    if cut <= {0} then a' == All() && n' == 0
    else exists h | h in cut :: (forall p | p in cut :: p <= h) && AgedBelow(cut, h, n, a', n')
  }

  /** The round of aging that goes with a pop: a set that leaves bin i no task starts over first. */
  ghost predicate AgedAfter(q: seq<Task>, i: nat, a: set<nat>, n: nat, last: nat, a': set<nat>, n': nat) {
    if Eligible(q, i, a) then Aged(a, n, last, a', n') else Aged(All(), 0, last, a', n')
  }

  ghost predicate AgedBelow(cut: set<nat>, h: nat, n: nat, a': set<nat>, n': nat) {
    if n == 2 * h then a' == cut - {h} && n' == 0 else a' == cut && n' == (n + 1) % 0x1_0000_0000
  }

  /** h is the highest priority of a up to last, and a' is a without what is above last and, after its turns,
      without h. */
  ghost predicate CutBelow(a: set<nat>, n: nat, last: nat, a': set<nat>, h: nat) {
    && h in a && 0 < h <= last && (forall p | p in a && p <= last :: p <= h)
    && (forall p | p != h :: p in a' <==> p in a && p <= last)
    && (h in a' <==> n != 2 * h)
  }

  /** A round starts the aging set over exactly when nothing between 1 and the last priority is left in it;
      otherwise what is above the last priority leaves it, and at most the highest of the rest. */
  lemma RoundCuts(a: set<nat>, n: nat, last: nat, a': set<nat>, n': nat)
    requires Aged(a, n, last, a', n')
    ensures if forall p | p in a :: p == 0 || p > last then a' == All() && n' == 0
            else exists h :: CutBelow(a, n, last, a', h)
  {
    var cut := set p | p in a && p <= last;
    if forall p | p in a :: p == 0 || p > last {
      assert cut <= {0};
    } else {
      var p :| p in a && p != 0 && p <= last;
      assert p in cut;
      var h :| h in cut && (forall p | p in cut :: p <= h) && AgedBelow(cut, h, n, a', n');
      CutIs(a, cut, n, last, a', n', h);
    }
  }

  lemma CutIs(a: set<nat>, cut: set<nat>, n: nat, last: nat, a': set<nat>, n': nat, h: nat)
    requires cut == (set p | p in a && p <= last) && !(cut <= {0})
    requires h in cut && (forall p | p in cut :: p <= h) && AgedBelow(cut, h, n, a', n')
    ensures CutBelow(a, n, last, a', h)
  {
    var q :| q in cut && q != 0;
    forall p | p in a && p <= last ensures p <= h { assert p in cut; }
    forall p | p != h ensures p in a' <==> p in a && p <= last { assert p in cut <==> p in a && p <= last; }
  }

  /** A sequence of rounds of aging, with the sets and counts between them. */
  ghost predicate Rounds(sets: seq<set<nat>>, counts: seq<nat>, lasts: seq<nat>) {
    && |sets| == |counts| == |lasts| + 1
    && forall i: nat {:trigger RoundAt(sets, counts, lasts, i)} | i < |lasts| :: RoundAt(sets, counts, lasts, i)
  }

  ghost predicate RoundAt(sets: seq<set<nat>>, counts: seq<nat>, lasts: seq<nat>, i: nat)
    requires |sets| == |counts| == |lasts| + 1 && i < |lasts|
  {
    Aged(sets[i], counts[i], lasts[i], sets[i + 1], counts[i + 1])
  }

  ghost predicate Top(a: set<nat>, h: nat) { h in a && 0 < h < SIZE && forall p | p in a :: p <= h }

  const COUNT := 0x1_0000_0000

  /** The rounds until priority h leaves the aging set as its highest, from count n. */
  function TurnsLeft(h: nat, n: nat): nat
    requires n < COUNT
  {
    if n <= 2 * h then 2 * h - n + 1 else COUNT - n + 2 * h + 1
  }

  /** As long as tasks of the highest priority of the aging set or above are taken, it stays for the turns that it
      has left and leaves with the last of them, and the count starts over for the priority below.  From a zero
      count these are 2 h + 1 turns. */
  lemma TurnsOfPriority(sets: seq<set<nat>>, counts: seq<nat>, lasts: seq<nat>, h: nat)
    requires Rounds(sets, counts, lasts) && counts[0] < COUNT && |lasts| >= TurnsLeft(h, counts[0])
    requires Top(sets[0], h) && forall i: nat | i < |lasts| :: lasts[i] >= h
    ensures forall i: nat | i < TurnsLeft(h, counts[0]) :: sets[i] == sets[0] && counts[i] == (counts[0] + i) % COUNT
    ensures sets[TurnsLeft(h, counts[0])] == sets[0] - {h} && counts[TurnsLeft(h, counts[0])] == 0
  {
    var k := TurnsLeft(h, counts[0]) - 1;
    TurnsBefore(sets, counts, lasts, h, k);
    assert RoundAt(sets, counts, lasts, k);
    OneTurn(sets[0], counts[k], lasts[k], sets[k + 1], counts[k + 1], h);
  }

  lemma {:induction false} TurnsBefore(sets: seq<set<nat>>, counts: seq<nat>, lasts: seq<nat>, h: nat, k: nat)
    requires Rounds(sets, counts, lasts) && counts[0] < COUNT && k <= |lasts| && k < TurnsLeft(h, counts[0])
    requires Top(sets[0], h) && forall i: nat | i < |lasts| :: lasts[i] >= h
    ensures forall i: nat | i <= k :: sets[i] == sets[0] && counts[i] == (counts[0] + i) % COUNT
  {
    if k > 0 {
      TurnsBefore(sets, counts, lasts, h, k - 1);
      assert RoundAt(sets, counts, lasts, k - 1);
      OneTurn(sets[0], counts[k - 1], lasts[k - 1], sets[k], counts[k], h);
      NextCount(counts[0], k - 1, h);
    }
  }

  lemma OneTurn(a: set<nat>, n: nat, last: nat, a': set<nat>, n': nat, h: nat)
    requires Aged(a, n, last, a', n') && Top(a, h) && last >= h
    ensures if n == 2 * h then a' == a - {h} && n' == 0 else a' == a && n' == (n + 1) % COUNT
  {
    var cut := set p | p in a && p <= last;
    assert cut == a;
  }

  lemma NextCount(n: nat, i: nat, h: nat)
    requires n < COUNT && i + 1 < TurnsLeft(h, n) && h < SIZE
    ensures (n + i) % COUNT != 2 * h && ((n + i) % COUNT + 1) % COUNT == (n + i + 1) % COUNT
  {
  }

  /** A priority that comes to the top of the aging set leaves it within its 2 h + 1 turns if and only if the count
      has not passed 2 h by then. */
  lemma LeavesInTurn(sets: seq<set<nat>>, counts: seq<nat>, lasts: seq<nat>, h: nat)
    requires Rounds(sets, counts, lasts) && counts[0] < COUNT && |lasts| == 2 * h + 1
    requires Top(sets[0], h) && forall i: nat | i < |lasts| :: lasts[i] >= h
    ensures (exists i: nat | i <= 2 * h + 1 :: h !in sets[i]) <==> counts[0] <= 2 * h
  {
    if counts[0] <= 2 * h {
      TurnsOfPriority(sets, counts, lasts, h);
      assert h !in sets[TurnsLeft(h, counts[0])];
    } else {
      TurnsBefore(sets, counts, lasts, h, 2 * h + 1);
    }
  }

  /** It can have: the count goes on when priorities above the last one leave the set.  After three tasks of the
      highest priority and one of priority 1 the count is 4, and priority 1 stays for 2^32 - 1 rounds. */
  lemma TurnsOvershot()
    ensures Rounds([All(), All(), All(), All(), {0, 1}], [0, 1, 2, 3, 4], [255, 255, 255, 1])
    ensures Top({0, 1}, 1) && TurnsLeft(1, 4) == COUNT - 1
  {
    var sets, counts, lasts := [All(), All(), All(), All(), {0, 1}], [0, 1, 2, 3, 4], [255, 255, 255, 1];
    assert IsPriority(0) && IsPriority(1) && IsPriority(255);
    forall i: nat | i < |lasts| ensures RoundAt(sets, counts, lasts, i) {
      if i < 3 { NextTurn(All(), i, 255, All(), 255); } else { NextTurn(All(), 3, 1, {0, 1}, 1); }
    }
  }

  /** A round in which the highest priority has not had its turns. */
  lemma NextTurn(a: set<nat>, n: nat, last: nat, cut: set<nat>, h: nat)
    requires n != 2 * h && n + 1 < COUNT && Top(cut, h) && forall p :: p in cut <==> p in a && p <= last
    ensures Aged(a, n, last, cut, n + 1)
  {
    assert cut == set p | p in a && p <= last;
    assert AgedBelow(cut, h, n, cut, n + 1);
  }

  lemma BinMask(d: Deques, b: Bmp, i: nat, q: seq<Task>, mask: Bmp)
    requires BinOk(d, b, i, q, All()) && Wf(mask)
    ensures Wf(AndWith(b, mask)) && BinOk(d, AndWith(b, mask), i, q, Members(mask))
  {
    MembersAnd(b, mask);
    var b', allow := AndWith(b, mask), Members(mask);
    forall p: nat | p < SIZE ensures SlotOk(d, b', i, p, q, allow) { assert SlotOk(d, b, i, p, q, All()); }
  }

  /** The task that a pop takes has the priority that the bitmap names first. */
  lemma TopPicked(d: Deques, b: Bmp, i: nat, q: seq<Task>, allow: set<nat>, next: nat, t: Task)
    requires BinOk(d, b, i, q, allow) && forall u | u in q :: u.priority < SIZE
    requires next in Members(b) && forall p | p in Members(b) :: p <= next
    requires Picks(q, i, allow, t)
    ensures t.priority == next && next in allow
  {
    BinMembers(d, b, i, q, allow);
    FrontPicks(d, b, i, q, allow, next);
  }

  /** The bitmap saved before the mask, less the priority whose last task was taken, is exact again. */
  lemma Unmasked(d: Deques, saved: Bmp, d': Deques, b': Bmp, i: nat, q: seq<Task>, t: Task, allow: set<nat>)
    requires BinOk(d, saved, i, q, All()) && BinOk(d', b', i, Without(q, t), allow)
    requires NoDup(q) && t.priority < SIZE && t.priority in allow
    ensures BinOk(d', if Bit(b', t.priority) then saved else UnsetAt(saved, t.priority), i, Without(q, t), All())
  {
    var r := if Bit(b', t.priority) then saved else UnsetAt(saved, t.priority);
    var q' := Without(q, t);
    MembersOps(saved, t.priority);
    forall p: nat | p < SIZE ensures SlotOk(d', r, i, p, q', All()) {
      assert SlotOk(d, saved, i, p, q, All()) && SlotOk(d', b', i, p, q', allow);
      FilterWithout(q, t, i, p);
      if p != t.priority {
        FilterMember(q, i, p, t);
        WithoutAbsent(Filter(q, i, p), t);
      }
    }
  }
}

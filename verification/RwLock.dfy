/** The phase-fair reader/writer lock of src/subsys/sync/rwlock.c.

    Two step machines over any number of threads.  `Ideal` counts with unbounded
    numbers and names write phases by their ticket.  `Word` is the lock as it is
    coded: four 32-bit words, the reader count in the upper 24 bits of `rin` and
    `rout`, two writer bits in `rin`.  Every atomic access is one step.

    The word machine is shown to refine the ideal one as long as fewer than 2^24
    readers and at most 2^32 writers are outstanding, and the ideal machine is
    shown to exclude and to be phase fair.  Both bounds are shown to be exact. */
module RwLock {

  const READER_INC := 0x100
  const WORD := 0x1_0000_0000
  const READER_LIMIT := 0x100_0000

  type Tid = nat

  // ---------------------------------------------------------------------------
  // The lock as coded
  // ---------------------------------------------------------------------------

  datatype Pc =
    | Idle
    | ReadSpin(wp: nat)          // arrived while the writer bits were wp
    | Reading
    | WriteTicket(ticket: nat)   // waiting for wout == ticket
    | WriteTurn(ticket: nat)     // saw its turn, has not published its bits
    | WriteDrain(target: nat)    // bits published, waiting for rout == target
    | Writing
    | WriteRelease               // bits cleared, wout not yet advanced

  datatype Word = Word(rin: nat, rout: nat, win: nat, wout: nat, pcs: seq<Pc>)

  datatype Action =
    | ReadArrive(t: Tid)
    | ReadPoll(t: Tid)
    | ReadLeave(t: Tid)
    | WriteArrive(t: Tid)
    | WriteTurnPoll(t: Tid)
    | WritePublish(t: Tid)
    | WriteDrainPoll(t: Tid)
    | WriteClear(t: Tid)
    | WriteServe(t: Tid)

  function InitWord(n: nat): Word {
    Word(0, 0, 0, 0, seq(n, _ => Idle))
  }

  function WriterBits(w: Word): nat { w.rin % 4 }

  predicate Enabled(w: Word, a: Action) {
    a.t < |w.pcs| &&
    match a
    case ReadArrive(t) => w.pcs[t].Idle?
    case ReadPoll(t) => w.pcs[t].ReadSpin?
    case ReadLeave(t) => w.pcs[t].Reading?
    case WriteArrive(t) => w.pcs[t].Idle?
    case WriteTurnPoll(t) => w.pcs[t].WriteTicket?
    case WritePublish(t) => w.pcs[t].WriteTurn?
    case WriteDrainPoll(t) => w.pcs[t].WriteDrain?
    case WriteClear(t) => w.pcs[t].Writing?
    case WriteServe(t) => w.pcs[t].WriteRelease?
  }

  function Apply(w: Word, a: Action): Word
    requires Enabled(w, a)
  {
    match a
    case ReadArrive(t) =>
      var wp := w.rin % 4;
      w.(rin := (w.rin + READER_INC) % WORD,
         pcs := w.pcs[t := if wp == 0 then Reading else ReadSpin(wp)])
    case ReadPoll(t) =>
      if w.rin % 4 != w.pcs[t].wp then w.(pcs := w.pcs[t := Reading]) else w
    case ReadLeave(t) =>
      w.(rout := (w.rout + READER_INC) % WORD, pcs := w.pcs[t := Idle])
    case WriteArrive(t) =>
      w.(win := (w.win + 1) % WORD, pcs := w.pcs[t := WriteTicket(w.win)])
    case WriteTurnPoll(t) =>
      if w.pcs[t].ticket == w.wout then w.(pcs := w.pcs[t := WriteTurn(w.pcs[t].ticket)]) else w
    case WritePublish(t) =>
      // fetch_and_add of (ticket & PF_PHASE_ID) | PF_WRITER_PRESENT
      w.(rin := (w.rin + w.pcs[t].ticket % 2 + 2) % WORD, pcs := w.pcs[t := WriteDrain(w.rin)])
    case WriteDrainPoll(t) =>
      if w.pcs[t].target == w.rout then w.(pcs := w.pcs[t := Writing]) else w
    case WriteClear(t) =>
      // fetch_and_and with PF_LSB clears the four low bits
      w.(rin := w.rin - w.rin % 16, pcs := w.pcs[t := WriteRelease])
    case WriteServe(t) =>
      w.(wout := (w.wout + 1) % WORD, pcs := w.pcs[t := Idle])
  }

  predicate IsReader(pc: Pc) { pc.ReadSpin? || pc.Reading? }
  predicate IsWriter(pc: Pc) {
    pc.WriteTicket? || pc.WriteTurn? || pc.WriteDrain? || pc.Writing? || pc.WriteRelease?
  }

  ghost function Readers(pcs: seq<Pc>): set<Tid> { set t | 0 <= t < |pcs| && IsReader(pcs[t]) }
  ghost function Writers(pcs: seq<Pc>): set<Tid> { set t | 0 <= t < |pcs| && IsWriter(pcs[t]) }

  /** What the 32-bit encoding demands of its callers at an arrival. */
  ghost predicate RoomFor(w: Word, a: Action) {
    && (a.ReadArrive? ==> |Readers(w.pcs)| + 1 < READER_LIMIT)
    && (a.WriteArrive? ==> |Writers(w.pcs)| < WORD)
  }

  ghost predicate Admissible(w: Word, a: Action) { Enabled(w, a) && RoomFor(w, a) }

  ghost predicate AdmissibleRun(w: Word, acts: seq<Action>)
    decreases |acts|
  {
    acts == [] || (Admissible(w, acts[0]) && AdmissibleRun(Apply(w, acts[0]), acts[1..]))
  }

  predicate EnabledRun(w: Word, acts: seq<Action>)
    decreases |acts|
  {
    acts == [] || (Enabled(w, acts[0]) && EnabledRun(Apply(w, acts[0]), acts[1..]))
  }

  function Run(w: Word, acts: seq<Action>): Word
    requires EnabledRun(w, acts)
    decreases |acts|
  {
    if acts == [] then w else Run(Apply(w, acts[0]), acts[1..])
  }

  lemma AdmissibleIsEnabled(w: Word, acts: seq<Action>)
    requires AdmissibleRun(w, acts)
    ensures EnabledRun(w, acts)
    decreases |acts|
  {
    if acts != [] { AdmissibleIsEnabled(Apply(w, acts[0]), acts[1..]); }
  }

  ghost predicate Exclusive(pcs: seq<Pc>) {
    forall t, u :: 0 <= t < |pcs| && 0 <= u < |pcs| && t != u && pcs[t].Writing? ==>
      !pcs[u].Writing? && !pcs[u].Reading?
  }

  // ---------------------------------------------------------------------------
  // The same lock with unbounded counters
  // ---------------------------------------------------------------------------

  datatype IdealPc =
    | IIdle
    | IReadSpin(phase: nat)      // blocked by the write phase with this ticket
    | IReading
    | IWriteTicket(ticket: nat)
    | IWriteTurn(ticket: nat)
    | IWriteDrain(ticket: nat, target: nat)
    | IWriting(ticket: nat)
    | IWriteRelease(ticket: nat)

  /** `open` says that the writer bits are set; the phase they announce is `served`. */
  datatype Ideal = Ideal(arrivals: nat, departures: nat, tickets: nat, served: nat, open: bool,
                         pcs: seq<IdealPc>)

  function InitIdeal(n: nat): Ideal {
    Ideal(0, 0, 0, 0, false, seq(n, _ => IIdle))
  }

  predicate IEnabled(s: Ideal, a: Action) {
    a.t < |s.pcs| &&
    match a
    case ReadArrive(t) => s.pcs[t].IIdle?
    case ReadPoll(t) => s.pcs[t].IReadSpin?
    case ReadLeave(t) => s.pcs[t].IReading?
    case WriteArrive(t) => s.pcs[t].IIdle?
    case WriteTurnPoll(t) => s.pcs[t].IWriteTicket?
    case WritePublish(t) => s.pcs[t].IWriteTurn?
    case WriteDrainPoll(t) => s.pcs[t].IWriteDrain?
    case WriteClear(t) => s.pcs[t].IWriting?
    case WriteServe(t) => s.pcs[t].IWriteRelease?
  }

  function IApply(s: Ideal, a: Action): Ideal
    requires IEnabled(s, a)
  {
    match a
    case ReadArrive(t) =>
      s.(arrivals := s.arrivals + 1,
         pcs := s.pcs[t := if s.open then IReadSpin(s.served) else IReading])
    case ReadPoll(t) =>
      if !(s.open && s.served == s.pcs[t].phase) then s.(pcs := s.pcs[t := IReading]) else s
    case ReadLeave(t) =>
      s.(departures := s.departures + 1, pcs := s.pcs[t := IIdle])
    case WriteArrive(t) =>
      s.(tickets := s.tickets + 1, pcs := s.pcs[t := IWriteTicket(s.tickets)])
    case WriteTurnPoll(t) =>
      if s.pcs[t].ticket == s.served then s.(pcs := s.pcs[t := IWriteTurn(s.pcs[t].ticket)]) else s
    case WritePublish(t) =>
      s.(open := true, pcs := s.pcs[t := IWriteDrain(s.pcs[t].ticket, s.arrivals)])
    case WriteDrainPoll(t) =>
      if s.pcs[t].target == s.departures then s.(pcs := s.pcs[t := IWriting(s.pcs[t].ticket)]) else s
    case WriteClear(t) =>
      s.(open := false, pcs := s.pcs[t := IWriteRelease(s.pcs[t].ticket)])
    case WriteServe(t) =>
      s.(served := s.served + 1, pcs := s.pcs[t := IIdle])
  }

  ghost function Outstanding(s: Ideal): set<Tid> {
    set t | 0 <= t < |s.pcs| && (s.pcs[t].IReadSpin? || s.pcs[t].IReading?)
  }

  /** The outstanding readers that the current write phase has to wait for. */
  ghost function Older(s: Ideal): set<Tid> {
    set t | 0 <= t < |s.pcs| && (s.pcs[t].IReading? || (s.pcs[t].IReadSpin? && s.pcs[t].phase != s.served))
  }

  predicate HoldsTicket(pc: IdealPc) {
    pc.IWriteTicket? || pc.IWriteTurn? || pc.IWriteDrain? || pc.IWriting? || pc.IWriteRelease?
  }
  /** Past its turn: the one writer whose ticket is `served`. */
  predicate HasTurn(pc: IdealPc) { HoldsTicket(pc) && !pc.IWriteTicket? }
  predicate HasBits(pc: IdealPc) { pc.IWriteDrain? || pc.IWriting? }

  ghost function Ticketed(s: Ideal): set<Tid> { set t | 0 <= t < |s.pcs| && HoldsTicket(s.pcs[t]) }

  ghost predicate TicketInv(s: Ideal) {
    && s.served <= s.tickets
    && |Ticketed(s)| == s.tickets - s.served
    && (forall t :: 0 <= t < |s.pcs| && HoldsTicket(s.pcs[t]) ==> s.served <= s.pcs[t].ticket < s.tickets)
    && (forall t :: 0 <= t < |s.pcs| && HasTurn(s.pcs[t]) ==> s.pcs[t].ticket == s.served)
    && (forall t, u | 0 <= t < |s.pcs| && 0 <= u < |s.pcs| && t != u ::
          HoldsTicket(s.pcs[t]) && HoldsTicket(s.pcs[u]) ==> s.pcs[t].ticket != s.pcs[u].ticket)
  }

  ghost predicate PhaseInv(s: Ideal) {
    && (s.open ==> exists t :: 0 <= t < |s.pcs| && HasBits(s.pcs[t]))
    && (forall t :: 0 <= t < |s.pcs| && HasBits(s.pcs[t]) ==> s.open)
    // a blocked reader waits for the current phase or for the one just completed
    && (forall t :: 0 <= t < |s.pcs| && s.pcs[t].IReadSpin? ==>
          s.pcs[t].phase <= s.served <= s.pcs[t].phase + 1)
    // between the clear and the hand-over every blocked reader belongs to the phase being closed
    && (forall t, u | 0 <= t < |s.pcs| && 0 <= u < |s.pcs| ::
          s.pcs[t].IReadSpin? && (s.pcs[u].IWriting? || s.pcs[u].IWriteRelease?) ==> s.pcs[t].phase == s.served)
    && (forall t :: 0 <= t < |s.pcs| && s.pcs[t].IReadSpin? && s.pcs[t].phase == s.served ==>
          exists u :: 0 <= u < |s.pcs| && (HasBits(s.pcs[u]) || s.pcs[u].IWriteRelease?))
  }

  ghost predicate CountInv(s: Ideal) {
    && s.departures + |Outstanding(s)| == s.arrivals
    && (forall t :: 0 <= t < |s.pcs| && s.pcs[t].IWriteDrain? ==>
          s.departures + |Older(s)| == s.pcs[t].target)
    && (forall t :: 0 <= t < |s.pcs| && s.pcs[t].IWriting? ==> Older(s) == {})
  }

  ghost predicate Inv(s: Ideal) { TicketInv(s) && PhaseInv(s) && CountInv(s) }

  // ---------------------------------------------------------------------------
  // Every step of the ideal lock keeps the invariant
  // ---------------------------------------------------------------------------

  lemma InitInv(n: nat)
    ensures Inv(InitIdeal(n))
  {
    var s := InitIdeal(n);
    assert Outstanding(s) == {} && Ticketed(s) == {};
  }

  /** At most one writer is past its turn. */
  lemma OneTurn(s: Ideal, t: Tid)
    requires TicketInv(s) && t < |s.pcs| && HasTurn(s.pcs[t])
    ensures forall u :: 0 <= u < |s.pcs| && u != t ==> !HasTurn(s.pcs[u])
  {
  }

  /** A thread that keeps its ticket, or its lack of one, changes nothing about the ticket order. */
  lemma TicketSame(s: Ideal, s': Ideal, t: Tid)
    requires TicketInv(s) && t < |s.pcs|
    requires s'.tickets == s.tickets && s'.served == s.served
    requires |s'.pcs| == |s.pcs| && s'.pcs == s.pcs[t := s'.pcs[t]]
    requires HoldsTicket(s'.pcs[t]) <==> HoldsTicket(s.pcs[t])
    requires HoldsTicket(s'.pcs[t]) ==> s'.pcs[t].ticket == s.pcs[t].ticket
    requires HasTurn(s'.pcs[t]) ==> s'.pcs[t].ticket == s.served
    ensures TicketInv(s')
  {
    assert Ticketed(s') == Ticketed(s);
  }

  lemma StepTicket(s: Ideal, a: Action)
    requires TicketInv(s) && IEnabled(s, a)
    ensures TicketInv(IApply(s, a))
  {
    var s' := IApply(s, a);
    if a.WriteArrive? {
      TicketArrive(s, a.t);
    } else if a.WriteServe? {
      TicketServe(s, a.t);
    } else {
      TicketSame(s, s', a.t);
    }
  }

  lemma TicketArrive(s: Ideal, t: Tid)
    requires TicketInv(s) && IEnabled(s, WriteArrive(t))
    ensures TicketInv(IApply(s, WriteArrive(t)))
  {
    assert Ticketed(IApply(s, WriteArrive(t))) == Ticketed(s) + {t};
  }

  lemma TicketServe(s: Ideal, t: Tid)
    requires TicketInv(s) && IEnabled(s, WriteServe(t))
    ensures TicketInv(IApply(s, WriteServe(t)))
  {
    var s' := IApply(s, WriteServe(t));
    assert HasTurn(s.pcs[t]);
    assert Ticketed(s') == Ticketed(s) - {t};
    forall u | 0 <= u < |s'.pcs| && HoldsTicket(s'.pcs[u])
      ensures s'.served <= s'.pcs[u].ticket < s'.tickets && !HasTurn(s'.pcs[u])
    {
      assert u != t && s'.pcs[u] == s.pcs[u];
    }
  }

  lemma StepPhase(s: Ideal, a: Action)
    requires Inv(s) && IEnabled(s, a)
    ensures PhaseInv(IApply(s, a))
  {
    if HasTurn(s.pcs[a.t]) {
      PhaseWriter(s, a);
    } else {
      PhaseOther(s, a);
    }
  }

  lemma PhaseWriter(s: Ideal, a: Action)
    requires Inv(s) && IEnabled(s, a) && HasTurn(s.pcs[a.t])
    ensures PhaseInv(IApply(s, a))
  {
    var s' := IApply(s, a);
    var t := a.t;
    OneTurn(s, t);
    assert forall u :: 0 <= u < |s.pcs| && u != t ==> s'.pcs[u] == s.pcs[u];
    if a.WriteDrainPoll? && s'.pcs[t].IWriting? {
      assert Older(s) == {};
      forall u | 0 <= u < |s.pcs| && s.pcs[u].IReadSpin? ensures s.pcs[u].phase == s.served {
        assert u !in Older(s);
      }
    }
    assert a.WriteServe? || HasBits(s'.pcs[t]) || s'.pcs[t].IWriteRelease?;
    if a.WriteServe? {
      forall u | 0 <= u < |s.pcs| && s.pcs[u].IReadSpin? ensures s.pcs[u].phase == s.served {
        assert s.pcs[t].IWriteRelease?;
      }
    }
  }

  lemma PhaseOther(s: Ideal, a: Action)
    requires Inv(s) && IEnabled(s, a) && !HasTurn(s.pcs[a.t])
    ensures PhaseInv(IApply(s, a))
  {
    if a.ReadArrive? && s.open {
      PhaseSpin(s, IApply(s, a), a.t);
    } else if IApply(s, a) != s {
      PhaseSame(s, IApply(s, a), a.t);
    }
  }

  /** A thread that is no reader spinning and holds no writer bits is of no interest to the phases. */
  lemma PhaseSame(s: Ideal, s': Ideal, t: Tid)
    requires PhaseInv(s) && t < |s.pcs| && !HasTurn(s.pcs[t])
    requires s'.open == s.open && s'.served == s.served && |s'.pcs| == |s.pcs| && s'.pcs == s.pcs[t := s'.pcs[t]]
    requires !s'.pcs[t].IReadSpin? && (HasTurn(s'.pcs[t]) ==> s'.pcs[t].IWriteTurn?)
    ensures PhaseInv(s')
  {
    PhaseHolders(s, s', t);
  }

  /** A reader that arrives in an open phase waits for it. */
  lemma PhaseSpin(s: Ideal, s': Ideal, t: Tid)
    requires PhaseInv(s) && t < |s.pcs| && !HasTurn(s.pcs[t]) && s.open
    requires s'.open && s'.served == s.served && s'.pcs == s.pcs[t := IReadSpin(s.served)]
    ensures PhaseInv(s')
  {
    PhaseHolders(s, s', t);
  }

  lemma PhaseHolders(s: Ideal, s': Ideal, t: Tid)
    requires t < |s.pcs| && !HasTurn(s.pcs[t])
    requires |s'.pcs| == |s.pcs| && s'.pcs == s.pcs[t := s'.pcs[t]]
    ensures (exists u :: 0 <= u < |s.pcs| && HasBits(s.pcs[u])) ==> exists u :: 0 <= u < |s'.pcs| && HasBits(s'.pcs[u])
    ensures (exists u :: 0 <= u < |s.pcs| && (HasBits(s.pcs[u]) || s.pcs[u].IWriteRelease?)) ==>
            exists u :: 0 <= u < |s'.pcs| && (HasBits(s'.pcs[u]) || s'.pcs[u].IWriteRelease?)
  {
    if u :| 0 <= u < |s.pcs| && HasBits(s.pcs[u]) { assert s'.pcs[u] == s.pcs[u]; }
    if u :| 0 <= u < |s.pcs| && (HasBits(s.pcs[u]) || s.pcs[u].IWriteRelease?) { assert s'.pcs[u] == s.pcs[u]; }
  }

  lemma StepCount(s: Ideal, a: Action)
    requires Inv(s) && IEnabled(s, a)
    ensures CountInv(IApply(s, a))
  {
    if HasTurn(s.pcs[a.t]) {
      CountWriter(s, a);
    } else {
      CountOther(s, a);
    }
  }

  lemma CountWriter(s: Ideal, a: Action)
    requires Inv(s) && IEnabled(s, a) && HasTurn(s.pcs[a.t])
    ensures CountInv(IApply(s, a))
  {
    var s' := IApply(s, a);
    var t := a.t;
    OneTurn(s, t);
    assert Outstanding(s') == Outstanding(s);
    if a.WritePublish? {
      assert Older(s') == Outstanding(s');
    } else if !a.WriteServe? {
      assert Older(s') == Older(s);
    }
  }

  lemma CountOther(s: Ideal, a: Action)
    requires Inv(s) && IEnabled(s, a) && !HasTurn(s.pcs[a.t])
    ensures CountInv(IApply(s, a))
  {
    if a.ReadArrive? {
      CountArrive(s, a.t);
    } else if a.ReadLeave? {
      CountLeave(s, a.t);
    } else {
      CountSame(s, a);
    }
  }

  lemma CountSame(s: Ideal, a: Action)
    requires CountInv(s) && PhaseInv(s) && IEnabled(s, a)
    requires a.ReadPoll? || a.WriteArrive? || a.WriteTurnPoll?
    ensures CountInv(IApply(s, a))
  {
    var s' := IApply(s, a);
    assert Outstanding(s') == Outstanding(s);
    if s.open { assert Older(s') == Older(s); }
  }

  lemma CountArrive(s: Ideal, t: Tid)
    requires CountInv(s) && PhaseInv(s) && IEnabled(s, ReadArrive(t))
    ensures CountInv(IApply(s, ReadArrive(t)))
  {
    var s' := IApply(s, ReadArrive(t));
    assert Outstanding(s') == Outstanding(s) + {t};
    if s.open { assert Older(s') == Older(s); }
  }

  lemma CountLeave(s: Ideal, t: Tid)
    requires Inv(s) && IEnabled(s, ReadLeave(t))
    ensures CountInv(IApply(s, ReadLeave(t)))
  {
    var s' := IApply(s, ReadLeave(t));
    assert t in Older(s);
    assert Outstanding(s') == Outstanding(s) - {t};
    assert Older(s') == Older(s) - {t};
  }

  lemma StepInv(s: Ideal, a: Action)
    requires Inv(s) && IEnabled(s, a)
    ensures Inv(IApply(s, a))
  {
    StepTicket(s, a);
    StepPhase(s, a);
    StepCount(s, a);
  }

  // ---------------------------------------------------------------------------
  // The words encode the ideal lock
  // ---------------------------------------------------------------------------

  function EncodePc(pc: IdealPc): Pc {
    match pc
    case IIdle => Idle
    case IReadSpin(phase) => ReadSpin(2 + phase % 2)
    case IReading => Reading
    case IWriteTicket(ticket) => WriteTicket(ticket % WORD)
    case IWriteTurn(ticket) => WriteTurn(ticket % WORD)
    case IWriteDrain(_, target) => WriteDrain(READER_INC * target % WORD)
    case IWriting(_) => Writing
    case IWriteRelease(_) => WriteRelease
  }

  function EncodePcs(pcs: seq<IdealPc>): seq<Pc> {
    seq(|pcs|, i requires 0 <= i < |pcs| => EncodePc(pcs[i]))
  }

  function EncodeBits(s: Ideal): nat { if s.open then 2 + s.served % 2 else 0 }

  function Encode(s: Ideal): Word {
    Word((READER_INC * s.arrivals + EncodeBits(s)) % WORD,
         READER_INC * s.departures % WORD,
         s.tickets % WORD,
         s.served % WORD,
         EncodePcs(s.pcs))
  }

  ghost predicate Bounded(s: Ideal) {
    |Outstanding(s)| < READER_LIMIT && |Ticketed(s)| <= WORD
  }

  lemma EncodeSets(s: Ideal)
    ensures Readers(Encode(s).pcs) == Outstanding(s)
    ensures Writers(Encode(s).pcs) == Ticketed(s)
  {
  }

  lemma WordEquality(a: nat, b: nat)
    requires b <= a < b + WORD
    ensures a % WORD == b % WORD <==> a == b
  {
  }

  lemma DrainEquality(a: nat, b: nat)
    requires b <= a < b + READER_LIMIT
    ensures READER_INC * a % WORD == READER_INC * b % WORD <==> a == b
  {
    WordEquality(READER_INC * a, READER_INC * b);
  }

  /** The reader count fills whole multiples of 0x100, so small flag bits never carry into it. */
  lemma CountWord(a: nat, bits: nat)
    requires bits < 16
    ensures (READER_INC * a + bits) % WORD == READER_INC * a % WORD + bits
    ensures READER_INC * a % WORD % READER_INC == 0
  {
    var q := READER_INC * a / WORD;
    var r := READER_INC * a % WORD;
    assert READER_INC * a == q * WORD + r;
    assert r % READER_INC == 0;
    assert r + bits < WORD;
    assert READER_INC * a + bits == q * WORD + (r + bits);
  }

  lemma CountNext(a: nat)
    ensures READER_INC * (a + 1) % WORD == (READER_INC * a % WORD + READER_INC) % WORD
  {
  }

  lemma LowBits(a: nat, bits: nat)
    requires bits < 4
    ensures (READER_INC * a + bits) % WORD % 4 == bits
    ensures (READER_INC * a + bits) % WORD - (READER_INC * a + bits) % WORD % 16 == READER_INC * a % WORD
    ensures ((READER_INC * a + bits) % WORD + READER_INC) % WORD == (READER_INC * (a + 1) + bits) % WORD
  {
    CountWord(a, bits);
    CountWord(a + 1, bits);
    CountNext(a);
    LowBitsOf(READER_INC * a % WORD, bits);
  }

  lemma LowBitsOf(r: nat, bits: nat)
    requires r % READER_INC == 0 && r < WORD && bits < 4
    ensures (r + bits) % 4 == bits && (r + bits) % 16 == bits
    ensures (r + bits + READER_INC) % WORD == (r + READER_INC) % WORD + bits
  {
    SmallBits(r / READER_INC, bits);
    if r + READER_INC < WORD { BelowWord(r, bits); }
  }

  lemma SmallBits(q: nat, bits: nat)
    requires bits < 4
    ensures (READER_INC * q + bits) % 4 == bits && (READER_INC * q + bits) % 16 == bits
  {
    assert READER_INC * q + bits == 16 * (16 * q) + bits == 4 * (64 * q) + bits;
  }

  /** A multiple of the increment below the word is at least one increment below it. */
  lemma BelowWord(r: nat, bits: nat)
    requires r % READER_INC == 0 && r + READER_INC < WORD && bits < 4
    ensures r + READER_INC + bits < WORD
  {
    assert r == READER_INC * (r / READER_INC);
  }

  /** Only the writer that has its turn can have published its bits. */
  lemma TurnFindsBitsClear(s: Ideal, t: Tid)
    requires Inv(s) && t < |s.pcs| && s.pcs[t].IWriteTurn?
    ensures !s.open
  {
    OneTurn(s, t);
  }

  lemma ReleaseFindsBitsClear(s: Ideal, t: Tid)
    requires Inv(s) && t < |s.pcs| && s.pcs[t].IWriteRelease?
    ensures !s.open
  {
    OneTurn(s, t);
  }

  lemma OlderBounded(s: Ideal)
    requires Bounded(s)
    ensures |Older(s)| < READER_LIMIT
  {
    assert Older(s) <= Outstanding(s);
    SubsetSize(Older(s), Outstanding(s));
  }

  lemma SubsetSize<T>(a: set<T>, b: set<T>)
    requires a <= b
    ensures |a| <= |b|
  {
    assert b == a + (b - a);
  }

  lemma EncodeUpdate(pcs: seq<IdealPc>, t: Tid, pc: IdealPc)
    requires t < |pcs|
    ensures EncodePcs(pcs[t := pc]) == EncodePcs(pcs)[t := EncodePc(pc)]
  {
  }

  /** One step of the words is the same step of the ideal lock. */
  lemma Refines(s: Ideal, a: Action)
    requires Inv(s) && Bounded(s) && Enabled(Encode(s), a)
    ensures IEnabled(s, a) && Apply(Encode(s), a) == Encode(IApply(s, a))
  {
    EncodeUpdate(s.pcs, a.t, IApply(s, a).pcs[a.t]);
    if a.ReadArrive? || a.ReadPoll? || a.ReadLeave? {
      RefinesReader(s, a);
    } else if a.WritePublish? || a.WriteClear? {
      RefinesBits(s, a);
    } else if a.WriteArrive? || a.WriteServe? {
      if a.WriteServe? { ReleaseFindsBitsClear(s, a.t); }
      RefinesTicket(s, a);
    } else {
      if a.WriteTurnPoll? { TurnPollAgrees(s, a.t); } else { DrainPollAgrees(s, a.t); }
      RefinesPoll(s, a);
    }
  }

  lemma RefinesReader(s: Ideal, a: Action)
    requires Inv(s) && Enabled(Encode(s), a)
    requires a.ReadArrive? || a.ReadPoll? || a.ReadLeave?
    requires EncodePcs(IApply(s, a).pcs) == EncodePcs(s.pcs)[a.t := EncodePc(IApply(s, a).pcs[a.t])]
    ensures Apply(Encode(s), a) == Encode(IApply(s, a))
  {
    LowBits(s.arrivals, EncodeBits(s));
    CountNext(s.departures);
    if a.ReadPoll? {
      ParityNamesPhase(s, a.t);
    }
  }

  /** A blocked reader is at most one phase behind, so the parity bit names its phase. */
  lemma ParityNamesPhase(s: Ideal, t: Tid)
    requires Inv(s) && t < |s.pcs| && s.pcs[t].IReadSpin?
    ensures EncodeBits(s) == 2 + s.pcs[t].phase % 2 <==> s.open && s.served == s.pcs[t].phase
  {
    assert s.pcs[t].phase <= s.served <= s.pcs[t].phase + 1;
  }

  lemma RefinesBits(s: Ideal, a: Action)
    requires Inv(s) && Enabled(Encode(s), a)
    requires a.WritePublish? || a.WriteClear?
    requires EncodePcs(IApply(s, a).pcs) == EncodePcs(s.pcs)[a.t := EncodePc(IApply(s, a).pcs[a.t])]
    ensures Apply(Encode(s), a) == Encode(IApply(s, a))
  {
    LowBits(s.arrivals, EncodeBits(s));
    if a.WritePublish? {
      TurnFindsBitsClear(s, a.t);
      PublishWord(s.arrivals, s.served);
    }
  }

  lemma IncWord(x: nat)
    ensures (x % WORD + 1) % WORD == (x + 1) % WORD
  {
  }

  lemma RefinesTicket(s: Ideal, a: Action)
    requires Enabled(Encode(s), a) && (a.WriteArrive? || a.WriteServe?)
    requires EncodePcs(IApply(s, a).pcs) == EncodePcs(s.pcs)[a.t := EncodePc(IApply(s, a).pcs[a.t])]
    requires a.WriteServe? ==> !s.open
    ensures Apply(Encode(s), a) == Encode(IApply(s, a))
  {
    IncWord(s.tickets);
    IncWord(s.served);
  }

  lemma RefinesPoll(s: Ideal, a: Action)
    requires Enabled(Encode(s), a) && (a.WriteTurnPoll? || a.WriteDrainPoll?)
    requires EncodePcs(IApply(s, a).pcs) == EncodePcs(s.pcs)[a.t := EncodePc(IApply(s, a).pcs[a.t])]
    requires a.WriteTurnPoll? ==> (s.pcs[a.t].ticket % WORD == s.served % WORD <==> s.pcs[a.t].ticket == s.served)
    requires a.WriteDrainPoll? ==>
               (READER_INC * s.pcs[a.t].target % WORD == READER_INC * s.departures % WORD <==>
                s.pcs[a.t].target == s.departures)
    ensures Apply(Encode(s), a) == Encode(IApply(s, a))
  {
  }

  lemma TurnPollAgrees(s: Ideal, t: Tid)
    requires Inv(s) && Bounded(s) && t < |s.pcs| && s.pcs[t].IWriteTicket?
    ensures s.pcs[t].ticket % WORD == s.served % WORD <==> s.pcs[t].ticket == s.served
  {
    WordEquality(s.pcs[t].ticket, s.served);
  }

  lemma DrainPollAgrees(s: Ideal, t: Tid)
    requires Inv(s) && Bounded(s) && t < |s.pcs| && s.pcs[t].IWriteDrain?
    ensures READER_INC * s.pcs[t].target % WORD == READER_INC * s.departures % WORD <==>
            s.pcs[t].target == s.departures
  {
    OlderBounded(s);
    DrainEquality(s.pcs[t].target, s.departures);
  }

  lemma PublishWord(arrivals: nat, served: nat)
    ensures (READER_INC * arrivals % WORD + served % WORD % 2 + 2) % WORD == (READER_INC * arrivals + (2 + served % 2)) % WORD
  {
    CountWord(arrivals, 2 + served % 2);
    ParityOfWord(served);
  }

  lemma ParityOfWord(x: nat)
    ensures x % WORD % 2 == x % 2
  {
    assert x == x / WORD * WORD + x % WORD;
  }

  lemma RefinesBounds(s: Ideal, a: Action)
    requires Bounded(s) && Admissible(Encode(s), a) && IEnabled(s, a)
    ensures Bounded(IApply(s, a))
  {
    EncodeSets(s);
    ReadersBounded(s, a);
    WritersBounded(s, a);
  }

  lemma ReadersBounded(s: Ideal, a: Action)
    requires IEnabled(s, a)
    ensures |Outstanding(IApply(s, a))| <= |Outstanding(s)| + if a.ReadArrive? then 1 else 0
  {
    var s' := IApply(s, a);
    var more := Outstanding(s) + if a.ReadArrive? then {a.t} else {};
    assert Outstanding(s') <= more;
    SubsetSize(Outstanding(s'), more);
  }

  lemma WritersBounded(s: Ideal, a: Action)
    requires IEnabled(s, a)
    ensures |Ticketed(IApply(s, a))| <= |Ticketed(s)| + if a.WriteArrive? then 1 else 0
  {
    var s' := IApply(s, a);
    var more := Ticketed(s) + if a.WriteArrive? then {a.t} else {};
    assert Ticketed(s') <= more;
    SubsetSize(Ticketed(s'), more);
  }

  ghost predicate IEnabledRun(s: Ideal, acts: seq<Action>)
    decreases |acts|
  {
    acts == [] || (IEnabled(s, acts[0]) && IEnabledRun(IApply(s, acts[0]), acts[1..]))
  }

  ghost function IRun(s: Ideal, acts: seq<Action>): Ideal
    requires IEnabledRun(s, acts)
    decreases |acts|
  {
    if acts == [] then s else IRun(IApply(s, acts[0]), acts[1..])
  }

  /** Every admissible run of the words is a run of the ideal lock, encoded. */
  lemma {:induction false} RunRefines(s: Ideal, acts: seq<Action>)
    requires Inv(s) && Bounded(s) && AdmissibleRun(Encode(s), acts)
    ensures EnabledRun(Encode(s), acts) && IEnabledRun(s, acts)
    ensures Run(Encode(s), acts) == Encode(IRun(s, acts))
    ensures Inv(IRun(s, acts)) && Bounded(IRun(s, acts))
    decreases |acts|
  {
    if acts != [] {
      Refines(s, acts[0]);
      RefinesBounds(s, acts[0]);
      StepInv(s, acts[0]);
      RunRefines(IApply(s, acts[0]), acts[1..]);
    }
  }

  lemma IdealExclusive(s: Ideal)
    requires Inv(s)
    ensures Exclusive(Encode(s).pcs)
  {
    var pcs := Encode(s).pcs;
    forall t, u | 0 <= t < |pcs| && 0 <= u < |pcs| && t != u && pcs[t].Writing?
      ensures !pcs[u].Writing? && !pcs[u].Reading?
    {
      OneTurn(s, t);
      assert s.pcs[t].IWriting? && u !in Older(s);
    }
  }

  lemma InitEncodes(n: nat)
    ensures Encode(InitIdeal(n)) == InitWord(n)
    ensures Inv(InitIdeal(n)) && Bounded(InitIdeal(n))
  {
    InitInv(n);
    assert Outstanding(InitIdeal(n)) == {} && Ticketed(InitIdeal(n)) == {};
  }

  // ---------------------------------------------------------------------------
  // Main results
  // ---------------------------------------------------------------------------

  /** A writer in its critical section excludes every reader and every other writer, for any number
      of threads and in every interleaving, with the counters wrapping at 32 bits. */
  lemma Exclusion(n: nat, acts: seq<Action>)
    requires AdmissibleRun(InitWord(n), acts)
    ensures EnabledRun(InitWord(n), acts) && Exclusive(Run(InitWord(n), acts).pcs)
  {
    InitEncodes(n);
    RunRefines(InitIdeal(n), acts);
    IdealExclusive(IRun(InitIdeal(n), acts));
  }

  function CountServed(acts: seq<Action>): nat {
    if acts == [] then 0 else (if acts[0].WriteServe? then 1 else 0) + CountServed(acts[1..])
  }

  predicate Silent(acts: seq<Action>, t: Tid) { forall i :: 0 <= i < |acts| ==> acts[i].t != t }

  /** The writer bits no longer show the phase that blocks reader t. */
  ghost predicate Released(s: Ideal, t: Tid)
    requires t < |s.pcs| && s.pcs[t].IReadSpin?
  {
    !(s.open && s.served == s.pcs[t].phase)
  }

  lemma ReleasedStable(s: Ideal, a: Action, t: Tid)
    requires Inv(s) && IEnabled(s, a) && a.t != t
    requires t < |s.pcs| && s.pcs[t].IReadSpin? && Released(s, t)
    ensures Released(IApply(s, a), t)
  {
    StepInv(s, a);
    if s.served == s.pcs[t].phase {
      var u :| 0 <= u < |s.pcs| && (HasBits(s.pcs[u]) || s.pcs[u].IWriteRelease?);
      OneTurn(s, u);
    }
  }

  lemma BlockedStep(s: Ideal, a: Action, t: Tid)
    requires Inv(s) && IEnabled(s, a) && a.t != t
    requires t < |s.pcs| && s.pcs[t].IReadSpin?
    ensures var s' := IApply(s, a);
      && Inv(s') && |s'.pcs| == |s.pcs| && s'.pcs[t] == s.pcs[t]
      && s'.served == s.served + CountServed([a])
      && (Released(s, t) ==> Released(s', t))
  {
    StepInv(s, a);
    assert CountServed([a]) == if a.WriteServe? then 1 else 0;
    if Released(s, t) { ReleasedStable(s, a, t); }
  }

  lemma {:induction false} BlockedRun(s: Ideal, acts: seq<Action>, t: Tid)
    requires Inv(s) && IEnabledRun(s, acts) && Silent(acts, t)
    requires t < |s.pcs| && s.pcs[t].IReadSpin?
    ensures Inv(IRun(s, acts)) && |IRun(s, acts).pcs| == |s.pcs| && IRun(s, acts).pcs[t] == s.pcs[t]
    ensures IRun(s, acts).served == s.served + CountServed(acts)
    ensures Released(s, t) ==> Released(IRun(s, acts), t)
    decreases |acts|
  {
    if acts != [] {
      BlockedStep(s, acts[0], t);
      BlockedRun(IApply(s, acts[0]), acts[1..], t);
    }
  }

  lemma IdealFairness(s: Ideal, acts: seq<Action>, t: Tid)
    requires Inv(s) && IEnabledRun(s, acts) && Silent(acts, t)
    requires t < |s.pcs| && s.pcs[t].IReadSpin?
    ensures CountServed(acts) <= 1
    ensures Inv(IRun(s, acts)) && |IRun(s, acts).pcs| == |s.pcs| && IRun(s, acts).pcs[t] == s.pcs[t]
    ensures Released(s, t) || CountServed(acts) == 1 ==> Released(IRun(s, acts), t)
  {
    BlockedRun(s, acts, t);
    var s' := IRun(s, acts);
    assert s.pcs[t].phase <= s.served && s'.served <= s'.pcs[t].phase + 1;
  }

  /** Phase fairness: while a reader spins, however the other threads run, at most one write phase
      completes; and once the bits it waits for have changed they never come back before it has
      looked, although the phase number is kept in a single bit. */
  lemma PhaseFairness(n: nat, before: seq<Action>, during: seq<Action>, t: Tid)
    requires AdmissibleRun(InitWord(n), before) && EnabledRun(InitWord(n), before)
    requires AdmissibleRun(Run(InitWord(n), before), during) && EnabledRun(Run(InitWord(n), before), during)
    requires t < |Run(InitWord(n), before).pcs| && Run(InitWord(n), before).pcs[t].ReadSpin? && Silent(during, t)
    ensures CountServed(during) <= 1
    ensures var w := Run(InitWord(n), before); var w' := Run(w, during);
      && |w'.pcs| == |w.pcs| && w'.pcs[t] == w.pcs[t]
      && (WriterBits(w) != w.pcs[t].wp ==> WriterBits(w') != w.pcs[t].wp)
      && (CountServed(during) == 1 ==> WriterBits(w') != w.pcs[t].wp)
  {
    InitEncodes(n);
    RunRefines(InitIdeal(n), before);
    WordFairness(IRun(InitIdeal(n), before), during, t);
  }

  lemma WordFairness(s: Ideal, acts: seq<Action>, t: Tid)
    requires Inv(s) && Bounded(s) && AdmissibleRun(Encode(s), acts) && EnabledRun(Encode(s), acts) && Silent(acts, t)
    requires t < |s.pcs| && s.pcs[t].IReadSpin?
    ensures CountServed(acts) <= 1
    ensures var w := Encode(s); var w' := Run(w, acts);
      && |w'.pcs| == |w.pcs| && w.pcs[t].ReadSpin? && w'.pcs[t] == w.pcs[t]
      && (WriterBits(w) != w.pcs[t].wp || CountServed(acts) == 1 ==> WriterBits(w') != w.pcs[t].wp)
  {
    RunRefines(s, acts);
    IdealFairness(s, acts, t);
    ReleasedIsBits(s, t);
    ReleasedIsBits(IRun(s, acts), t);
  }

  /** Two phases suffice for the parity bit to name the blocking phase exactly. */
  lemma ReleasedIsBits(s: Ideal, t: Tid)
    requires Inv(s) && t < |s.pcs| && s.pcs[t].IReadSpin?
    ensures Encode(s).pcs[t] == ReadSpin(2 + s.pcs[t].phase % 2)
    ensures Released(s, t) <==> WriterBits(Encode(s)) != Encode(s).pcs[t].wp
  {
    LowBits(s.arrivals, EncodeBits(s));
    ParityNamesPhase(s, t);
  }

  /** A step of thread t that is not a failed poll. */
  predicate Moves(w: Word, a: Action) { Enabled(w, a) && Apply(w, a) != w }

  /** No reachable state is stuck: while a thread is inside the lock's code or holds the lock,
      some thread has a step that is not a failed poll. */
  lemma NoDeadlock(n: nat, acts: seq<Action>, t: Tid)
    requires AdmissibleRun(InitWord(n), acts) && EnabledRun(InitWord(n), acts)
    requires t < |Run(InitWord(n), acts).pcs| && !Run(InitWord(n), acts).pcs[t].Idle?
    ensures exists a :: Moves(Run(InitWord(n), acts), a) && !a.ReadArrive? && !a.WriteArrive?
  {
    InitEncodes(n);
    RunRefines(InitIdeal(n), acts);
    var s := IRun(InitIdeal(n), acts);
    var a := Mover(s, t);
    RefinesMove(s, a);
  }

  lemma RefinesMove(s: Ideal, a: Action)
    requires Inv(s) && Bounded(s) && IEnabled(s, a) && IApply(s, a).pcs[a.t] != s.pcs[a.t]
    requires EncodePc(IApply(s, a).pcs[a.t]) != EncodePc(s.pcs[a.t])
    ensures Moves(Encode(s), a)
  {
    assert Enabled(Encode(s), a);
    Refines(s, a);
    assert Encode(IApply(s, a)).pcs[a.t] != Encode(s).pcs[a.t];
  }

  lemma Mover(s: Ideal, t: Tid) returns (a: Action)
    requires Inv(s) && t < |s.pcs| && !s.pcs[t].IIdle?
    ensures IEnabled(s, a) && EncodePc(IApply(s, a).pcs[a.t]) != EncodePc(s.pcs[a.t])
    ensures !a.ReadArrive? && !a.WriteArrive?
  {
    if s.pcs[t].IReading? {
      a := ReadLeave(t);
    } else if s.pcs[t].IReadSpin? && Released(s, t) {
      a := ReadPoll(t);
    } else if s.pcs[t].IReadSpin? {
      var u :| 0 <= u < |s.pcs| && HasBits(s.pcs[u]);
      a := WriterMover(s, u);
    } else if HasTurn(s.pcs[t]) {
      a := WriterMover(s, t);
    } else {
      var u := ServedHolder(s, t);
      if s.pcs[u].IWriteTicket? { a := WriteTurnPoll(u); } else { a := WriterMover(s, u); }
    }
  }

  lemma WriterMover(s: Ideal, u: Tid) returns (a: Action)
    requires Inv(s) && u < |s.pcs| && HasTurn(s.pcs[u])
    ensures IEnabled(s, a) && EncodePc(IApply(s, a).pcs[a.t]) != EncodePc(s.pcs[a.t])
    ensures !a.ReadArrive? && !a.WriteArrive?
  {
    match s.pcs[u]
    case IWriteTurn(_) => a := WritePublish(u);
    case IWriting(_) => a := WriteClear(u);
    case IWriteRelease(_) => a := WriteServe(u);
    case IWriteDrain(_, target) =>
      if target == s.departures {
        a := WriteDrainPoll(u);
      } else {
        assert |Older(s)| > 0;
        var r :| r in Older(s);
        a := if s.pcs[r].IReading? then ReadLeave(r) else ReadPoll(r);
      }
  }

  /** Ticket `served` is always in someone's hand while any ticket is out. */
  lemma ServedHolder(s: Ideal, t: Tid) returns (u: Tid)
    requires TicketInv(s) && t < |s.pcs| && HoldsTicket(s.pcs[t])
    ensures u < |s.pcs| && HoldsTicket(s.pcs[u]) && s.pcs[u].ticket == s.served
  {
    if forall v :: 0 <= v < |s.pcs| && HoldsTicket(s.pcs[v]) ==> s.pcs[v].ticket != s.served {
      TooManyTickets(s, Ticketed(s), s.served + 1);
      assert false;
    }
    u :| 0 <= u < |s.pcs| && HoldsTicket(s.pcs[u]) && s.pcs[u].ticket == s.served;
  }

  /** Distinct tickets in lo..tickets are at most tickets - lo many. */
  lemma {:induction false} TooManyTickets(s: Ideal, who: set<Tid>, lo: nat)
    requires lo <= s.tickets
    requires forall v :: v in who ==> v < |s.pcs| && HoldsTicket(s.pcs[v]) && lo <= s.pcs[v].ticket < s.tickets
    requires forall v, x | v in who && x in who && v != x && v < |s.pcs| && x < |s.pcs| ::
               HoldsTicket(s.pcs[v]) && HoldsTicket(s.pcs[x]) ==> s.pcs[v].ticket != s.pcs[x].ticket
    ensures |who| <= s.tickets - lo
    decreases s.tickets - lo
  {
    if who != {} {
      if v :| v in who && s.pcs[v].ticket == lo {
        TooManyTickets(s, who - {v}, lo + 1);
      } else {
        var v :| v in who;
        assert lo < s.pcs[v].ticket;
        TooManyTickets(s, who, lo + 1);
      }
    }
  }

  // ---------------------------------------------------------------------------
  // The bounds on readers and writers are exact
  // ---------------------------------------------------------------------------

  /** At most so many readers and writers are inside after an arrival. */
  ghost predicate Within(w: Word, a: Action, readers: nat, writers: nat) {
    && (a.ReadArrive? ==> |Readers(w.pcs)| + 1 <= readers)
    && (a.WriteArrive? ==> |Writers(w.pcs)| + 1 <= writers)
  }

  ghost predicate LimitedRun(w: Word, acts: seq<Action>, readers: nat, writers: nat)
    decreases |acts|
  {
    acts == [] ||
    (Enabled(w, acts[0]) && Within(w, acts[0], readers, writers) && LimitedRun(Apply(w, acts[0]), acts[1..], readers, writers))
  }

  ghost predicate Reaches(w: Word, acts: seq<Action>, w': Word, readers: nat, writers: nat) {
    LimitedRun(w, acts, readers, writers) && EnabledRun(w, acts) && Run(w, acts) == w'
  }

  lemma {:induction false} LimitedIsEnabled(w: Word, acts: seq<Action>, readers: nat, writers: nat)
    requires LimitedRun(w, acts, readers, writers)
    ensures EnabledRun(w, acts)
    ensures readers < READER_LIMIT && writers <= WORD ==> AdmissibleRun(w, acts)
    decreases |acts|
  {
    if acts != [] { LimitedIsEnabled(Apply(w, acts[0]), acts[1..], readers, writers); }
  }

  lemma {:induction false} Extend(w: Word, acts: seq<Action>, w': Word, a: Action, readers: nat, writers: nat)
    requires Reaches(w, acts, w', readers, writers)
    requires Enabled(w', a) && Within(w', a, readers, writers)
    ensures Reaches(w, acts + [a], Apply(w', a), readers, writers)
    decreases |acts|
  {
    if acts != [] {
      assert (acts + [a])[1..] == acts[1..] + [a];
      Extend(Apply(w, acts[0]), acts[1..], w', a, readers, writers);
    } else {
      assert acts + [a] == [a];
    }
  }

  lemma {:induction false} RangeSize(k: nat, s: set<Tid>)
    requires forall t :: t in s ==> t < k
    ensures |s| <= k
  {
    if k > 0 {
      var rest := s - {k - 1};
      RangeSize(k - 1, rest);
      assert s <= rest + {k - 1};
      SubsetSize(s, rest + {k - 1});
    } else {
      assert s == {};
    }
  }

  function ManyReaders(k: nat): seq<Action> { seq(k, i requires 0 <= i => ReadArrive(i)) }

  /** k readers inside and nobody else. */
  function ReadersIn(n: nat, k: nat): Word {
    Word(READER_INC * k % WORD, 0, 0, 0, seq(n, i => if i < k then Reading else Idle))
  }

  lemma {:induction false} ReadersArrive(n: nat, k: nat, readers: nat, writers: nat)
    requires k <= n && k <= readers
    ensures Reaches(InitWord(n), ManyReaders(k), ReadersIn(n, k), readers, writers)
  {
    if k > 0 {
      ReadersArrive(n, k - 1, readers, writers);
      assert ManyReaders(k) == ManyReaders(k - 1) + [ReadArrive(k - 1)];
      LowBits(k - 1, 0);
      ReadersNext(n, k - 1);
      RangeSize(k - 1, Readers(ReadersIn(n, k - 1).pcs));
      Extend(InitWord(n), ManyReaders(k - 1), ReadersIn(n, k - 1), ReadArrive(k - 1), readers, writers);
    } else {
      assert ReadersIn(n, 0).pcs == InitWord(n).pcs;
    }
  }

  lemma ReadersNext(n: nat, k: nat)
    requires k < n && WriterBits(ReadersIn(n, k)) == 0
    ensures Enabled(ReadersIn(n, k), ReadArrive(k)) && Apply(ReadersIn(n, k), ReadArrive(k)) == ReadersIn(n, k + 1)
  {
    CountNext(k);
    assert ReadersIn(n, k).pcs[k := Reading] == ReadersIn(n, k + 1).pcs;
  }

  function LateWriter(k: nat): seq<Action> {
    [WriteArrive(k), WriteTurnPoll(k), WritePublish(k), WriteDrainPoll(k)]
  }

  function WithLateWriter(n: nat, k: nat): Word
    requires k < n
  {
    var w := ReadersIn(n, k);
    Word((w.rin + 2) % WORD, 0, 1, 0, w.pcs[k := if w.rin == 0 then Writing else WriteDrain(w.rin)])
  }

  lemma LateWriterRun(n: nat, k: nat, readers: nat, writers: nat)
    requires k < n && k <= readers && 1 <= writers
    ensures Reaches(InitWord(n), ManyReaders(k) + LateWriter(k), WithLateWriter(n, k), readers, writers)
  {
    ReadersArrive(n, k, readers, writers);
    var acts, l, w, i := ManyReaders(k), LateWriter(k), ReadersIn(n, k), InitWord(n);
    assert Writers(w.pcs) == {};
    Extend(i, acts, w, l[0], readers, writers);
    var w1 := Apply(w, l[0]);
    assert w1.pcs[k] == WriteTicket(0);
    Extend(i, acts + [l[0]], w1, l[1], readers, writers);
    var w2 := Apply(w1, l[1]);
    Extend(i, acts + [l[0]] + [l[1]], w2, l[2], readers, writers);
    var w3 := Apply(w2, l[2]);
    assert w3.pcs == w.pcs[k := WriteDrain(w.rin)];
    Extend(i, acts + [l[0]] + [l[1]] + [l[2]], w3, l[3], readers, writers);
    assert Apply(w3, l[3]).pcs == WithLateWriter(n, k).pcs;
    assert acts + l == acts + [l[0]] + [l[1]] + [l[2]] + [l[3]];
  }

  /** With k readers inside and nothing else, a writer gets in exactly when k is a multiple of 2^24:
      below the limit that means k is zero, at the limit exclusion is lost. */
  lemma ReaderLimitIsExact(n: nat, k: nat)
    requires k < n
    ensures EnabledRun(InitWord(n), ManyReaders(k) + LateWriter(k))
    ensures var w := Run(InitWord(n), ManyReaders(k) + LateWriter(k));
      && |w.pcs| == n
      && (forall i :: 0 <= i < k ==> w.pcs[i].Reading?)
      && (w.pcs[k].Writing? <==> k % READER_LIMIT == 0)
  {
    LateWriterRun(n, k, k, 1);
    assert READER_INC * k % WORD == 0 <==> k % READER_LIMIT == 0;
  }

  lemma ExclusionLostAtLimit(n: nat)
    requires n > READER_LIMIT
    ensures EnabledRun(InitWord(n), ManyReaders(READER_LIMIT) + LateWriter(READER_LIMIT))
    ensures !Exclusive(Run(InitWord(n), ManyReaders(READER_LIMIT) + LateWriter(READER_LIMIT)).pcs)
  {
    ReaderLimitIsExact(n, READER_LIMIT);
    var w := Run(InitWord(n), ManyReaders(READER_LIMIT) + LateWriter(READER_LIMIT));
    assert w.pcs[READER_LIMIT].Writing? && w.pcs[0].Reading?;
  }

  function ManyWriters(k: nat): seq<Action> { seq(k, i requires 0 <= i => WriteArrive(i)) }

  /** k writers waiting with their tickets, which repeat after 2^32, and nobody else. */
  function WritersIn(n: nat, k: nat): Word {
    Word(0, 0, k % WORD, 0, seq(n, i requires 0 <= i => if i < k then WriteTicket(i % WORD) else Idle))
  }

  lemma {:induction false} WritersArrive(n: nat, k: nat, readers: nat, writers: nat)
    requires k <= n && k <= writers
    ensures Reaches(InitWord(n), ManyWriters(k), WritersIn(n, k), readers, writers)
  {
    if k > 0 {
      WritersArrive(n, k - 1, readers, writers);
      var w := WritersIn(n, k - 1);
      assert ManyWriters(k) == ManyWriters(k - 1) + [WriteArrive(k - 1)];
      RangeSize(k - 1, Writers(w.pcs));
      Extend(InitWord(n), ManyWriters(k - 1), w, WriteArrive(k - 1), readers, writers);
      IncWord(k - 1);
      assert Apply(w, WriteArrive(k - 1)).pcs == WritersIn(n, k).pcs;
    } else {
      assert WritersIn(n, 0).pcs == InitWord(n).pcs;
    }
  }

  /** The first writer gets in; the one with the repeated ticket takes the same turn and publishes its
      bits on top, which carries them out of the two writer bits; a reader then sees no writer. */
  function RepeatedTicket(): seq<Action> {
    [WriteTurnPoll(0), WritePublish(0), WriteDrainPoll(0), WriteTurnPoll(WORD), WritePublish(WORD), ReadArrive(WORD + 1)]
  }

  function AfterRepeatedTicket(): Word {
    var w := WritersIn(WORD + 2, WORD + 1);
    Word(4 + READER_INC, 0, 1, 0, w.pcs[0 := Writing][WORD := WriteDrain(2)][WORD + 1 := Reading])
  }

  lemma RepeatedTicketRun(readers: nat, writers: nat)
    requires 1 <= readers && WORD < writers
    ensures Reaches(InitWord(WORD + 2), ManyWriters(WORD + 1) + RepeatedTicket(), AfterRepeatedTicket(), readers, writers)
  {
    WritersArrive(WORD + 2, WORD + 1, readers, writers);
    var acts, l, w, i := ManyWriters(WORD + 1), RepeatedTicket(), WritersIn(WORD + 2, WORD + 1), InitWord(WORD + 2);
    FirstWriterIn(i, acts, w, readers, writers);
    var w3 := w.(rin := 2, pcs := w.pcs[0 := Writing]);
    SecondWriterIn(i, acts + l[..3], w3, readers, writers);
    assert acts + l == acts + l[..3] + l[3..];
  }

  lemma FirstWriterIn(i: Word, acts: seq<Action>, w: Word, readers: nat, writers: nat)
    requires w.rin == w.rout == w.wout == 0 && |w.pcs| > 0 && w.pcs[0] == WriteTicket(0)
    requires Reaches(i, acts, w, readers, writers)
    ensures Reaches(i, acts + RepeatedTicket()[..3], w.(rin := 2, pcs := w.pcs[0 := Writing]), readers, writers)
  {
    var l := RepeatedTicket();
    Extend(i, acts, w, l[0], readers, writers);
    var w1 := Apply(w, l[0]);
    Extend(i, acts + [l[0]], w1, l[1], readers, writers);
    var w2 := Apply(w1, l[1]);
    Extend(i, acts + [l[0]] + [l[1]], w2, l[2], readers, writers);
    assert Apply(w2, l[2]).pcs == w.pcs[0 := Writing];
    assert acts + l[..3] == acts + [l[0]] + [l[1]] + [l[2]];
  }

  lemma SecondWriterIn(i: Word, acts: seq<Action>, w: Word, readers: nat, writers: nat)
    requires w.rin == 2 && w.wout == 0 && |w.pcs| == WORD + 2 && 1 <= readers
    requires w.pcs[WORD] == WriteTicket(0) && w.pcs[WORD + 1].Idle? && Readers(w.pcs) == {}
    requires Reaches(i, acts, w, readers, writers)
    ensures Reaches(i, acts + RepeatedTicket()[3..],
                    w.(rin := 4 + READER_INC, pcs := w.pcs[WORD := WriteDrain(2)][WORD + 1 := Reading]), readers, writers)
  {
    var l := RepeatedTicket();
    Extend(i, acts, w, l[3], readers, writers);
    var w1 := Apply(w, l[3]);
    Extend(i, acts + [l[3]], w1, l[4], readers, writers);
    var w2 := Apply(w1, l[4]);
    assert w2.pcs == w.pcs[WORD := WriteDrain(2)] && Readers(w2.pcs) == {};
    Extend(i, acts + [l[3]] + [l[4]], w2, l[5], readers, writers);
    assert acts + l[3..] == acts + [l[3]] + [l[4]] + [l[5]];
  }

  ghost predicate Safe(n: nat, acts: seq<Action>) {
    EnabledRun(InitWord(n), acts) && Exclusive(Run(InitWord(n), acts).pcs)
  }

  /** How many threads the lock serves: with at most so many readers and so many writers inside, every
      run of any number of threads is exclusive exactly below 2^24 readers and up to 2^32 writers. */
  lemma ExclusionExactly(readers: nat, writers: nat)
    requires 1 <= readers && 1 <= writers
    ensures (forall n: nat, acts | LimitedRun(InitWord(n), acts, readers, writers) :: Safe(n, acts))
            <==> readers < READER_LIMIT && writers <= WORD
  {
    if readers < READER_LIMIT && writers <= WORD {
      forall n: nat, acts | LimitedRun(InitWord(n), acts, readers, writers)
        ensures Safe(n, acts)
      {
        LimitedIsEnabled(InitWord(n), acts, readers, writers);
        Exclusion(n, acts);
      }
    } else if readers >= READER_LIMIT {
      LateWriterRun(READER_LIMIT + 1, READER_LIMIT, readers, writers);
      ExclusionLostAtLimit(READER_LIMIT + 1);
      assert !Safe(READER_LIMIT + 1, ManyReaders(READER_LIMIT) + LateWriter(READER_LIMIT));
    } else {
      RepeatedTicketRun(readers, writers);
      var w := AfterRepeatedTicket();
      assert w.pcs[0].Writing? && w.pcs[WORD + 1].Reading?;
      assert !Safe(WORD + 2, ManyWriters(WORD + 1) + RepeatedTicket());
    }
  }
}

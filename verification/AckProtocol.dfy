/** The circular window of pending acknowledgements, shared by the concurrent
    protocol (AckProtocol) and the object (AcknowledgedCounters). */
module AckWindow {
  import opened Varints
  import opened Bits

  const WINDOW_SIZE: int := 0x10_0000

  /** `value & WindowMask`.  On 64-bit two's complement, masking with 2^20 - 1 is the
      non-negative remainder, for negative values too. */
  function Slot(value: int): (k: int)
    ensures 0 <= k < WINDOW_SIZE
  {
    value % WINDOW_SIZE
  }

  /** The mask on the 64-bit word, bit by bit, is the slot of every value. */
  lemma SlotIsMask(value: int64)
    ensures And(ToUint64(value), WINDOW_SIZE - 1) == Slot(value)
  {
    assert Pow2(10) == 0x400;
    assert Pow2(20) == WINDOW_SIZE;
    MaskIsRemainder(ToUint64(value), 20);
    assert TWO64 == 0x1000_0000_0000 * WINDOW_SIZE;
  }

  lemma SlotInjectiveInWindow(lo: int, v: int, w: int)
    requires lo < v <= lo + WINDOW_SIZE && lo < w <= lo + WINDOW_SIZE
    requires Slot(v) == Slot(w)
    ensures v == w
  {
    assert v == WINDOW_SIZE * (v / WINDOW_SIZE) + Slot(v);
    assert w == WINDOW_SIZE * (w / WINDOW_SIZE) + Slot(w);
  }

  /** The slots of the values above `drained`. */
  function Marks(acked: set<int>, drained: int): set<int> {
    set v | v in acked && drained < v :: Slot(v)
  }

  /** Every value from `start` to `n` is in `acked`. */
  ghost predicate AllAcked(acked: set<int>, start: int, n: int) {
    forall v :: start <= v <= n ==> v in acked
  }

  /** `n` is the largest number such that all of start..n is in `acked`. */
  ghost predicate IsLongestPrefix(acked: set<int>, start: int, n: int) {
    AllAcked(acked, start, n) && n + 1 !in acked
  }

  /** The guard `index != beforeFirstSlot` compares an unmasked index with a masked one.
      It can end a drain early only from a negative limit within one window of zero,
      and only when the whole window is acknowledged. */
  ghost predicate GuardFires(acked: set<int>, limit: int) {
    -WINDOW_SIZE <= limit < 0 && AllAcked(acked, limit + 1, limit + WINDOW_SIZE)
  }

  /** The masked limit lies in the drained window only for a limit just below zero. */
  lemma GuardPosition(limit: int, i: int)
    requires limit < i <= limit + WINDOW_SIZE + 1
    ensures i == Slot(limit) <==> i == limit + WINDOW_SIZE && -WINDOW_SIZE <= limit < 0
  {
    assert limit == WINDOW_SIZE * (limit / WINDOW_SIZE) + Slot(limit);
  }
}

/** The acknowledged counter as a protocol: any number of goroutines, each running
    `doTransactionInsert` step by step (draw a key number, insert, acknowledge), in
    every interleaving.  One Step is one access to a shared variable. */
module AckProtocol {
  import opened AckWindow

  type Tid = nat

  datatype Pc =
    | Idle                                  // about to draw a key number
    | Inserting(v: int)                     // db.Insert has not returned yet
    | Testing(v: int)                       // Acknowledge: about to test the slot
    | Marking(v: int)                       // about to set the slot
    | TryingLock                            // about to TryLock
    | Loading                               // holds the lock, about to load limit
    | AtGuard(index: int, bound: int)       // about to evaluate index != beforeFirstSlot
    | TestingSlot(index: int, bound: int)   // about to test window[index & mask]
    | ClearingSlot(index: int, bound: int)  // about to clear it
    | Storing(index: int)                   // about to store limit := index - 1
    | Unlocking                             // about to release the lock
    | Panicked(v: int)                      // "Too many unacknowledged insertion keys."

  /** `window` is the set of slots that hold true.  `acked` (values whose slot was set),
      `returned` (values whose insert returned) and `drained` (last value whose slot was
      cleared) record history and influence no step. */
  datatype State = State(
    counter: int, limit: int, window: set<int>, locked: bool, pcs: map<Tid, Pc>,
    acked: set<int>, returned: set<int>, drained: int)

  function Init(start: int): State {
    State(start, start - 1, {}, false, map[], {}, {}, start - 1)
  }

  function PcOf(s: State, t: Tid): Pc {
    if t in s.pcs then s.pcs[t] else Idle
  }

  function Goto(s: State, t: Tid, pc: Pc): State {
    s.(pcs := s.pcs[t := pc])
  }

  /** One step of goroutine `t`. */
  function Step(s: State, t: Tid): State {
    match PcOf(s, t)
    case Idle => Goto(s, t, Inserting(s.counter)).(counter := s.counter + 1)
    case Inserting(v) => Goto(s, t, Testing(v)).(returned := s.returned + {v})
    case Testing(v) => Goto(s, t, if Slot(v) in s.window then Panicked(v) else Marking(v))
    case Marking(v) =>
      Goto(s, t, TryingLock).(window := s.window + {Slot(v)}, acked := s.acked + {v})
    case TryingLock => if s.locked then Goto(s, t, Idle) else Goto(s, t, Loading).(locked := true)
    case Loading => Goto(s, t, AtGuard(s.limit + 1, Slot(s.limit)))
    case AtGuard(i, b) => Goto(s, t, if i == b then Storing(i) else TestingSlot(i, b))
    case TestingSlot(i, b) =>
      Goto(s, t, if Slot(i) in s.window then ClearingSlot(i, b) else Storing(i))
    case ClearingSlot(i, b) =>
      Goto(s, t, AtGuard(i + 1, b)).(window := s.window - {Slot(i)}, drained := i)
    case Storing(i) => Goto(s, t, Unlocking).(limit := i - 1)
    case Unlocking => Goto(s, t, Idle).(locked := false)
    case Panicked(_) => s
  }

  /** The state after the goroutines named by `schedule` have stepped in that order. */
  function Run(s: State, schedule: seq<Tid>): State
    decreases |schedule|
  {
    if schedule == [] then s else Run(Step(s, schedule[0]), schedule[1..])
  }

  /** If `t` draws next, the number drawn lies within one window of Last(). */
  predicate DrawsInWindow(s: State, t: Tid) {
    PcOf(s, t) == Idle ==> s.counter <= s.limit + WINDOW_SIZE
  }

  /** No draw of the run is more than one window ahead of Last(): the hypothesis under which
      the window is meant to work.  OverrunPanics shows what happens otherwise. */
  predicate Within(s: State, schedule: seq<Tid>)
    decreases |schedule|
  {
    schedule == [] || (DrawsInWindow(s, schedule[0]) && Within(Step(s, schedule[0]), schedule[1..]))
  }

  lemma {:induction false} WithinConcat(s: State, a: seq<Tid>, b: seq<Tid>)
    ensures Within(s, a + b) <==> Within(s, a) && Within(Run(s, a), b)
    decreases |a|
  {
    if a == [] {
      assert a + b == b;
    } else {
      assert (a + b)[1..] == a[1..] + b;
      WithinConcat(Step(s, a[0]), a[1..], b);
    }
  }

  // ---------- Invariant ----------

  predicate Critical(pc: Pc) {
    pc.Loading? || pc.AtGuard? || pc.TestingSlot? || pc.ClearingSlot? || pc.Storing? || pc.Unlocking?
  }

  predicate Holds(pc: Pc, v: int) {
    (pc.Inserting? || pc.Testing? || pc.Marking?) && pc.v == v
  }

  /** What a goroutine's position says about the shared state. */
  ghost predicate PcInv(s: State, start: int, pc: Pc) {
    && (Critical(pc) ==> s.locked)
    && match pc
       case Inserting(v) => start <= v < s.counter && v !in s.acked
       case Testing(v) => start <= v < s.counter && v !in s.acked && v in s.returned
       case Marking(v) => start <= v < s.counter && v !in s.acked && v in s.returned
       case Loading => s.drained == s.limit
       case AtGuard(i, b) => s.drained == i - 1 && b == Slot(s.limit)
       case TestingSlot(i, b) => s.drained == i - 1 && i != b && b == Slot(s.limit)
       case ClearingSlot(i, b) => s.drained == i - 1 && i != b && b == Slot(s.limit) && i in s.acked
       case Storing(i) => s.drained == i - 1
       case Unlocking => s.drained == s.limit
       case Panicked(_) => false
       case _ => true
  }

  ghost predicate SharedInv(s: State, start: int) {
    && start - 1 <= s.limit <= s.drained < s.counter <= s.limit + WINDOW_SIZE + 1
    && (forall v :: v in s.acked ==> start <= v < s.counter)
    && s.acked <= s.returned
    && AllAcked(s.acked, start, s.drained)
    && s.window == Marks(s.acked, s.drained)
    && (!s.locked ==> s.drained == s.limit)
  }

  ghost predicate ThreadInv(s: State, start: int) {
    && (forall t :: PcInv(s, start, PcOf(s, t)))
    && (forall t, u :: Critical(PcOf(s, t)) && Critical(PcOf(s, u)) ==> t == u)
    && (forall t, u, v :: Holds(PcOf(s, t), v) && Holds(PcOf(s, u), v) ==> t == u)
  }

  /** No drawn value is lost: it is acknowledged or some goroutine still holds it. */
  ghost predicate Conserved(s: State, start: int) {
    forall v :: start <= v < s.counter && v !in s.acked ==> exists t :: Holds(PcOf(s, t), v)
  }

  ghost predicate Inv(s: State, start: int) {
    SharedInv(s, start) && ThreadInv(s, start) && Conserved(s, start)
  }

  /** A set slot above the drained prefix identifies one acknowledged value. */
  lemma SetSlotIsAcked(s: State, start: int, v: int)
    requires SharedInv(s, start)
    requires s.drained < v <= s.limit + WINDOW_SIZE
    requires Slot(v) in s.window
    ensures v in s.acked
  {
    var w :| w in s.acked && s.drained < w && Slot(w) == Slot(v);
    SlotInjectiveInWindow(s.limit, v, w);
  }

  lemma MarksAdd(acked: set<int>, drained: int, v: int)
    requires drained < v
    ensures Marks(acked + {v}, drained) == Marks(acked, drained) + {Slot(v)}
  {
    assert forall k :: k in Marks(acked, drained) ==> k in Marks(acked + {v}, drained);
    assert v in acked + {v};
  }

  lemma MarksDrain(s: State, start: int)
    requires SharedInv(s, start)
    requires s.drained + 1 in s.acked
    ensures Marks(s.acked, s.drained + 1) == s.window - {Slot(s.drained + 1)}
  {
    var i := s.drained + 1;
    forall k | k in s.window - {Slot(i)} ensures k in Marks(s.acked, i) {
      var w :| w in s.acked && s.drained < w && Slot(w) == k;
    }
    forall k | k in Marks(s.acked, i) ensures k in s.window - {Slot(i)} {
      var w :| w in s.acked && i < w && Slot(w) == k;
      if k == Slot(i) { SlotInjectiveInWindow(s.limit, i, w); }
    }
  }

  lemma InitInv(start: int)
    ensures Inv(Init(start), start)
  {
    assert Marks({}, start - 1) == {};
  }

  lemma StepShared(s: State, start: int, t: Tid)
    requires Inv(s, start) && DrawsInWindow(s, t)
    ensures SharedInv(Step(s, t), start)
  {
    var pc := PcOf(s, t);
    assert PcInv(s, start, pc);
    match pc
    case Marking(v) => MarksAdd(s.acked, s.drained, v);
    case ClearingSlot(i, b) => MarksDrain(s, start);
    case _ =>
  }

  /** A step of `t` keeps what every other goroutine relies on. */
  lemma StepOtherPc(s: State, start: int, t: Tid, u: Tid)
    requires Inv(s, start) && u != t
    ensures PcInv(Step(s, t), start, PcOf(s, u))
  {
    var pc := PcOf(s, t);
    assert PcInv(s, start, pc) && PcInv(s, start, PcOf(s, u));
    assert !(Critical(pc) && Critical(PcOf(s, u)));
    if pc.Marking? {
      assert Holds(pc, pc.v);
      assert !Holds(PcOf(s, u), pc.v);
    }
  }

  lemma StepExclusion(s: State, start: int, t: Tid, u: Tid)
    requires Inv(s, start) && u != t
    requires Critical(PcOf(Step(s, t), t))
    ensures !Critical(PcOf(s, u))
  {
    assert PcInv(s, start, PcOf(s, u));
    assert Critical(PcOf(s, t)) ==> !Critical(PcOf(s, u));
  }

  lemma StepDistinct(s: State, start: int, t: Tid, u: Tid, v: int)
    requires Inv(s, start) && u != t
    requires Holds(PcOf(Step(s, t), t), v)
    ensures !Holds(PcOf(s, u), v)
  {
    assert PcInv(s, start, PcOf(s, u));
    assert Holds(PcOf(s, t), v) ==> !Holds(PcOf(s, u), v);
  }

  lemma StepFrame(s: State, t: Tid, u: Tid)
    requires u != t
    ensures PcOf(Step(s, t), u) == PcOf(s, u)
  {
  }

  lemma StepPcs(s: State, start: int, t: Tid)
    requires Inv(s, start)
    ensures ThreadInv(Step(s, t), start)
  {
    var s' := Step(s, t);
    forall u | u != t ensures PcOf(s', u) == PcOf(s, u) && PcInv(s', start, PcOf(s, u)) {
      StepFrame(s, t, u);
      StepOtherPc(s, start, t, u);
    }
    StepOwnPc(s, start, t);
    forall u | u != t && Critical(PcOf(s', t)) ensures !Critical(PcOf(s, u)) {
      StepExclusion(s, start, t, u);
    }
    forall u, v | u != t && Holds(PcOf(s', t), v) ensures !Holds(PcOf(s, u), v) {
      StepDistinct(s, start, t, u, v);
    }
  }

  /** The stepping goroutine: no step leads to the panic, and a slot found set is
      really the mark of the value being drained. */
  lemma StepOwnPc(s: State, start: int, t: Tid)
    requires Inv(s, start)
    ensures PcInv(Step(s, t), start, PcOf(Step(s, t), t))
  {
    var pc := PcOf(s, t);
    assert PcInv(s, start, pc);
    match pc
    case Testing(v) =>
      if Slot(v) in s.window { SetSlotIsAcked(s, start, v); }
    case TestingSlot(i, b) =>
      if Slot(i) in s.window {
        var w :| w in s.acked && s.drained < w && Slot(w) == Slot(i);
        SlotInjectiveInWindow(s.limit, i, w);
      }
    case _ =>
  }

  lemma StepConserved(s: State, start: int, t: Tid)
    requires Inv(s, start)
    ensures Conserved(Step(s, t), start)
  {
    var s' := Step(s, t);
    var pc := PcOf(s, t);
    assert PcInv(s, start, pc);
    StepOwnPc(s, start, t);
    forall v | start <= v < s'.counter && v !in s'.acked ensures exists u :: Holds(PcOf(s', u), v) {
      if v == s.counter {
        assert Holds(PcOf(s', t), v);
      } else {
        var u :| Holds(PcOf(s, u), v);
        if u == t { assert Holds(PcOf(s', t), v); } else { assert Holds(PcOf(s', u), v); }
      }
    }
  }

  lemma StepInv(s: State, start: int, t: Tid)
    requires Inv(s, start) && DrawsInWindow(s, t)
    ensures Inv(Step(s, t), start)
    ensures s.limit <= Step(s, t).limit
  {
    StepShared(s, start, t);
    StepPcs(s, start, t);
    StepConserved(s, start, t);
    assert PcInv(s, start, PcOf(s, t));
  }

  lemma {:induction false} RunInv(s: State, start: int, schedule: seq<Tid>)
    requires Inv(s, start) && Within(s, schedule)
    ensures Inv(Run(s, schedule), start)
    ensures s.limit <= Run(s, schedule).limit
    decreases |schedule|
  {
    if schedule != [] {
      StepInv(s, start, schedule[0]);
      RunInv(Step(s, schedule[0]), start, schedule[1..]);
    }
  }

  lemma {:induction false} RunConcat(s: State, a: seq<Tid>, b: seq<Tid>)
    ensures Run(s, a + b) == Run(Run(s, a), b)
    decreases |a|
  {
    if a == [] {
      assert a + b == b;
    } else {
      assert (a + b)[1..] == a[1..] + b;
      RunConcat(Step(s, a[0]), a[1..], b);
    }
  }

  // ---------- Main results ----------

  /** In every interleaving within the window, from every start: everything at or below
      Last() has been acknowledged and its insert has returned, Last() never decreases from
      `earlier` to any later point, no goroutine panics, at most one drains, and every drawn
      value is acknowledged or still held. */
  lemma {:induction false} EveryRunIsSafe(start: int, earlier: seq<Tid>, later: seq<Tid>)
    requires Within(Init(start), earlier + later)
    ensures var s := Run(Init(start), earlier + later);
            && (forall v :: start <= v <= s.limit ==> v in s.acked && v in s.returned)
            && Run(Init(start), earlier).limit <= s.limit
            && (forall t :: !PcOf(s, t).Panicked?)
            && (forall t, u :: Critical(PcOf(s, t)) && Critical(PcOf(s, u)) ==> t == u)
            && Conserved(s, start)
  {
    InitInv(start);
    WithinConcat(Init(start), earlier, later);
    RunInv(Init(start), start, earlier);
    RunInv(Run(Init(start), earlier), start, later);
    RunConcat(Init(start), earlier, later);
    var s := Run(Init(start), earlier + later);
    forall t ensures !PcOf(s, t).Panicked? { assert PcInv(s, start, PcOf(s, t)); }
  }

  /** A mark is never lost, even when its goroutine fails to take the lock: in every
      reachable state each acknowledged value above the drained prefix still has its slot
      set, and distinct such values have distinct slots. */
  lemma NoMarkIsLost(start: int, schedule: seq<Tid>, v: int)
    requires Within(Init(start), schedule) && v in Run(Init(start), schedule).acked
    ensures var s := Run(Init(start), schedule);
            v <= s.drained || (Slot(v) in s.window
              && forall w :: w in s.acked && s.drained < w && Slot(w) == Slot(v) ==> w == v)
  {
    InitInv(start);
    RunInv(Init(start), start, schedule);
    var s := Run(Init(start), schedule);
    forall w | v > s.drained && w in s.acked && s.drained < w && Slot(w) == Slot(v) ensures w == v {
      SlotInjectiveInWindow(s.limit, v, w);
    }
  }

  function Alone(t: Tid, n: nat): seq<Tid> {
    seq(n, _ => t)
  }

  lemma AloneStep(s: State, t: Tid, n: nat)
    requires 0 < n
    ensures Run(s, Alone(t, n)) == Run(Step(s, t), Alone(t, n - 1))
  {
    assert Alone(t, n)[1..] == Alone(t, n - 1);
  }

  /** Store and unlock. */
  lemma FinishAlone(s: State, t: Tid, i: int)
    requires PcOf(s, t) == Storing(i)
    ensures var e := Run(s, Alone(t, 2));
            PcOf(e, t) == Idle && !e.locked && e.acked == s.acked && e.limit == i - 1
  {
    AloneStep(s, t, 2);
    AloneStep(Step(s, t), t, 1);
  }

  lemma AloneThree(s: State, t: Tid, n: nat)
    requires 3 <= n
    ensures Run(s, Alone(t, n)) == Run(Step(Step(Step(s, t), t), t), Alone(t, n - 3))
  {
    AloneStep(s, t, n);
    AloneStep(Step(s, t), t, n - 1);
    AloneStep(Step(Step(s, t), t), t, n - 2);
  }

  /** One round of the drain loop: guard, test, clear. */
  lemma DrainOne(s: State, start: int, t: Tid) returns (e: State)
    requires Inv(s, start) && PcOf(s, t).AtGuard?
    requires var i := PcOf(s, t).index; i != PcOf(s, t).bound && Slot(i) in s.window
    ensures e == Step(Step(Step(s, t), t), t) && Inv(e, start)
    ensures PcOf(e, t) == AtGuard(PcOf(s, t).index + 1, PcOf(s, t).bound)
    ensures e.acked == s.acked && e.limit == s.limit && e.drained == s.drained + 1 && e.drained in s.acked
  {
    assert PcInv(s, start, PcOf(s, t));
    var s1 := Step(s, t);
    StepInv(s, start, t);
    var s2 := Step(s1, t);
    StepInv(s1, start, t);
    assert PcInv(s2, start, PcOf(s2, t));
    e := Step(s2, t);
    StepInv(s2, start, t);
  }

  /** The last round: an unset slot ends the loop. */
  lemma DrainEnd(s: State, start: int, t: Tid, i: int)
    requires Inv(s, start) && PcOf(s, t).AtGuard?
    requires PcOf(s, t).index == i != PcOf(s, t).bound && Slot(i) !in s.window
    ensures var e := Run(s, Alone(t, 4));
            PcOf(e, t) == Idle && !e.locked && e.acked == s.acked && e.limit == i - 1
    ensures i !in s.acked
  {
    assert PcInv(s, start, PcOf(s, t));
    assert i in s.acked ==> Slot(i) in Marks(s.acked, s.drained);
    FinishAlone(Step(Step(s, t), t), t, i);
    AloneStep(s, t, 4);
    AloneStep(Step(s, t), t, 3);
  }

  /** Or the guard does. */
  lemma DrainGuarded(s: State, start: int, t: Tid, i: int)
    requires Inv(s, start) && PcOf(s, t) == AtGuard(i, i)
    ensures var e := Run(s, Alone(t, 3));
            PcOf(e, t) == Idle && !e.locked && e.acked == s.acked && e.limit == i - 1
    ensures i == s.limit + WINDOW_SIZE
    ensures i in s.acked ==> GuardFires(s.acked, s.limit)
  {
    assert PcInv(s, start, PcOf(s, t));
    GuardPosition(s.limit, i);
    FinishAlone(Step(s, t), t, i);
    AloneStep(s, t, 3);
  }

  /** The drain loop of one goroutine running alone, from its guard to the release. */
  lemma {:induction false} DrainAlone(s: State, start: int, t: Tid) returns (n: nat)
    requires Inv(s, start) && PcOf(s, t).AtGuard?
    requires GuardFires(s.acked, s.limit) ==> s.drained < s.limit + WINDOW_SIZE
    ensures var e := Run(s, Alone(t, n));
            && PcOf(e, t) == Idle && !e.locked && e.acked == s.acked
            && (GuardFires(s.acked, s.limit) ==> e.limit == s.limit + WINDOW_SIZE - 1)
            && (!GuardFires(s.acked, s.limit) ==> e.limit + 1 !in s.acked)
            && AllAcked(s.acked, start, e.limit)
    decreases s.limit + WINDOW_SIZE + 1 - s.drained
  {
    assert PcInv(s, start, PcOf(s, t));
    var i, b := PcOf(s, t).index, PcOf(s, t).bound;
    GuardPosition(s.limit, i);
    if i == b {
      n := 3;
      DrainGuarded(s, start, t, i);
    } else if Slot(i) in s.window {
      var s3 := DrainOne(s, start, t);
      var m := DrainAlone(s3, start, t);
      n := m + 3;
      AloneThree(s, t, n);
    } else {
      n := 4;
      DrainEnd(s, start, t, i);
    }
  }

  /** From every reachable state in which the lock is free, a goroutine that has set its
      mark and now runs alone comes back to Idle with the lock free, and has moved Last()
      to the end of the longest acknowledged prefix - exactly unless the guard fires, in
      which case it stops one key short.  The workload starts at a positive record count,
      so there the guard never fires. */
  lemma AcknowledgeAloneDrains(start: int, schedule: seq<Tid>, t: Tid) returns (n: nat)
    requires Within(Init(start), schedule)
    requires PcOf(Run(Init(start), schedule), t) == TryingLock && !Run(Init(start), schedule).locked
    ensures var s := Run(Init(start), schedule);
            var e := Run(Init(start), schedule + Alone(t, n));
            && PcOf(e, t) == Idle && !e.locked && e.acked == s.acked
            && (IsLongestPrefix(s.acked, start, e.limit) <==> !GuardFires(s.acked, s.limit))
            && (GuardFires(s.acked, s.limit) ==> IsLongestPrefix(s.acked, start, e.limit + 1))
            && (1 <= start ==> !GuardFires(s.acked, s.limit))
  {
    InitInv(start);
    RunInv(Init(start), start, schedule);
    var s := Run(Init(start), schedule);
    var s2 := ReachGuard(s, start, t);
    var m := DrainAlone(s2, start, t);
    n := m + 2;
    AloneStep(s, t, n);
    AloneStep(Step(s, t), t, n - 1);
    RunConcat(Init(start), schedule, Alone(t, n));
  }

  /** Lock and load: from TryLock to the first evaluation of the guard. */
  lemma ReachGuard(s: State, start: int, t: Tid) returns (e: State)
    requires Inv(s, start) && PcOf(s, t) == TryingLock && !s.locked
    ensures e == Step(Step(s, t), t) && Inv(e, start) && PcOf(e, t).AtGuard?
    ensures e.acked == s.acked && e.limit == s.limit && e.drained == s.limit
  {
    var s1 := Step(s, t);
    StepInv(s, start, t);
    e := Step(s1, t);
    StepInv(s1, start, t);
  }

  // ---------- What runs there are ----------

  /** Goroutines 0 .. n - 1 step once each. */
  function EachOnce(n: nat): seq<Tid> {
    seq(n, i => i)
  }

  /** Any number of values can be drawn before any is acknowledged: goroutine i draws
      start + i.  The draws are within the window exactly up to a whole window. */
  lemma {:induction false} DrawnByEach(start: int, n: nat)
    ensures var s := Run(Init(start), EachOnce(n));
            && s == Init(start).(counter := start + n, pcs := s.pcs)
            && (forall i :: 0 <= i < n ==> PcOf(s, i) == Inserting(start + i))
            && (forall i :: n <= i ==> PcOf(s, i) == Idle)
    ensures Within(Init(start), EachOnce(n)) <==> n <= WINDOW_SIZE
    decreases n
  {
    if n == 0 {
      assert EachOnce(0) == [];
    } else {
      DrawnByEach(start, n - 1);
      assert EachOnce(n) == EachOnce(n - 1) + [n - 1];
      RunConcat(Init(start), EachOnce(n - 1), [n - 1]);
      WithinConcat(Init(start), EachOnce(n - 1), [n - 1]);
      var s := Run(Init(start), EachOnce(n - 1));
      RunSingle(s, n - 1);
      WithinSingle(s, n - 1);
      DrawStep(s, n - 1);
      assert Run(Init(start), EachOnce(n)) == Step(s, n - 1);
    }
  }

  lemma WithinSingle(s: State, t: Tid)
    ensures Within(s, [t]) <==> DrawsInWindow(s, t)
  {
    var none: seq<Tid> := [];
    assert [t][1..] == none && Within(Step(s, t), none);
  }

  lemma DrawStep(s: State, t: Tid)
    requires PcOf(s, t) == Idle
    ensures Step(s, t) == Goto(s, t, Inserting(s.counter)).(counter := s.counter + 1)
    ensures PcOf(Step(s, t), t) == Inserting(s.counter)
    ensures forall u :: u != t ==> PcOf(Step(s, t), u) == PcOf(s, u)
  {
  }

  lemma RunSingle(s: State, t: Tid)
    ensures Run(s, [t]) == Step(s, t)
  {
    assert [t][1..] == [];
  }

  /** Insert, test, mark: a goroutine that holds a value acknowledges it. */
  lemma MarkAlone(s: State, start: int, t: Tid, v: int)
    requires Inv(s, start) && PcOf(s, t) == Inserting(v)
    ensures var e := Run(s, Alone(t, 3));
            && Inv(e, start) && Within(s, Alone(t, 3)) && e.acked == s.acked + {v}
            && (forall u :: u != t ==> PcOf(e, u) == PcOf(s, u))
  {
    var s1 := Step(s, t);
    StepInv(s, start, t);
    var s2 := Step(s1, t);
    StepInv(s1, start, t);
    assert PcInv(s2, start, PcOf(s2, t));
    StepInv(s2, start, t);
    WithinThree(s, t);
    AloneStep(s, t, 3);
    AloneStep(s1, t, 2);
    AloneStep(s2, t, 1);
    forall u | u != t ensures PcOf(Step(s2, t), u) == PcOf(s, u) {
      StepFrame(s, t, u);
      StepFrame(s1, t, u);
      StepFrame(s2, t, u);
    }
  }

  lemma WithinThree(s: State, t: Tid)
    requires DrawsInWindow(s, t) && DrawsInWindow(Step(s, t), t) && DrawsInWindow(Step(Step(s, t), t), t)
    ensures Within(s, Alone(t, 3))
  {
    assert Alone(t, 3)[1..] == Alone(t, 2) && Alone(t, 2)[1..] == Alone(t, 1) && Alone(t, 1)[1..] == [];
    assert Within(Step(Step(s, t), t), Alone(t, 1));
    assert Within(Step(s, t), Alone(t, 2));
  }

  lemma SomeOf(values: set<int>) returns (v: int)
    requires values != {}
    ensures v in values
  {
    assert (forall x :: x !in values) ==> values <= {};
    v :| v in values;
  }

  /** Every value of the set is held by its own goroutine and not acknowledged. */
  ghost predicate HeldEach(s: State, start: int, values: set<int>) {
    forall v :: v in values ==> start <= v && v !in s.acked && PcOf(s, v - start) == Inserting(v)
  }

  lemma OneMarked(s: State, start: int, values: set<int>, v: int)
    requires Inv(s, start) && HeldEach(s, start, values) && v in values
    ensures var e := Run(s, Alone(v - start, 3));
            && Inv(e, start) && Within(s, Alone(v - start, 3)) && e.acked == s.acked + {v}
            && HeldEach(e, start, values - {v})
  {
    MarkAlone(s, start, v - start, v);
  }

  lemma {:induction false} MarkAll(s: State, start: int, values: set<int>) returns (schedule: seq<Tid>)
    requires Inv(s, start) && HeldEach(s, start, values)
    ensures Within(s, schedule) && Run(s, schedule).acked == s.acked + values
    decreases |values|
  {
    if values == {} {
      schedule := [];
    } else {
      var v := SomeOf(values);
      var first := Alone(v - start, 3);
      OneMarked(s, start, values, v);
      var rest := MarkAll(Run(s, first), start, values - {v});
      schedule := first + rest;
      RunConcat(s, first, rest);
      WithinConcat(s, first, rest);
      assert s.acked + {v} + (values - {v}) == s.acked + values;
    }
  }

  /** Any set of values of the first window is what is acknowledged after some schedule
      within the window: the runs that the theorems speak of are all there. */
  lemma AnySetCanBeAcked(start: int, values: set<int>) returns (schedule: seq<Tid>)
    requires forall v :: v in values ==> start <= v < start + WINDOW_SIZE
    ensures Within(Init(start), schedule) && Run(Init(start), schedule).acked == values
  {
    var drawn := EachOnce(WINDOW_SIZE);
    DrawnByEach(start, WINDOW_SIZE);
    InitInv(start);
    RunInv(Init(start), start, drawn);
    var s := Run(Init(start), drawn);
    assert HeldEach(s, start, values);
    var marks := MarkAll(s, start, values);
    schedule := drawn + marks;
    RunConcat(Init(start), drawn, marks);
    WithinConcat(Init(start), drawn, marks);
  }

  /** Beyond the window: with one value more than a window drawn, the first acknowledged but
      not drained and the last acknowledged next, a goroutine panics. */
  lemma OverrunPanics(start: int)
    ensures var schedule := EachOnce(WINDOW_SIZE + 1) + Alone(0, 3) + Alone(WINDOW_SIZE, 2);
            && PcOf(Run(Init(start), schedule), WINDOW_SIZE) == Panicked(start + WINDOW_SIZE)
            && !Within(Init(start), schedule)
  {
    var drawn := EachOnce(WINDOW_SIZE + 1);
    DrawnByEach(start, WINDOW_SIZE + 1);
    var s := Run(Init(start), drawn);
    RunConcat(Init(start), drawn, Alone(0, 3));
    RunConcat(Init(start), drawn + Alone(0, 3), Alone(WINDOW_SIZE, 2));
    WithinConcat(Init(start), drawn, Alone(0, 3));
    WithinConcat(Init(start), drawn + Alone(0, 3), Alone(WINDOW_SIZE, 2));
    FirstMark(s, 0, start);
    var e := Run(s, Alone(0, 3));
    TestFindsMark(e, WINDOW_SIZE, start + WINDOW_SIZE);
  }

  /** The first mark of an empty window. */
  lemma FirstMark(s: State, t: Tid, v: int)
    requires PcOf(s, t) == Inserting(v) && s.window == {}
    ensures var e := Run(s, Alone(t, 3));
            e.window == {Slot(v)} && forall u :: u != t ==> PcOf(e, u) == PcOf(s, u)
  {
    var s1 := Step(s, t);
    var s2 := Step(s1, t);
    AloneStep(s, t, 3);
    AloneStep(s1, t, 2);
    AloneStep(s2, t, 1);
  }

  lemma TestFindsMark(s: State, t: Tid, v: int)
    requires PcOf(s, t) == Inserting(v) && Slot(v) in s.window
    ensures PcOf(Run(s, Alone(t, 2)), t) == Panicked(v)
  {
    AloneStep(s, t, 2);
    AloneStep(Step(s, t), t, 1);
  }

  // ---------- The lock is always released ----------

  /** A bound on the steps a draining goroutine still takes. */
  function StepsLeft(s: State, pc: Pc): int {
    var rest := 3 * (s.limit + WINDOW_SIZE + 1 - s.drained);
    match pc
    case Loading => rest + 3
    case AtGuard(_, _) => rest + 2
    case TestingSlot(_, _) => rest + 1
    case ClearingSlot(_, _) => rest
    case Storing(_) => 2
    case Unlocking => 1
    case _ => 0
  }

  /** Its own steps use the bound up, the last of them releases the lock; steps of other
      goroutines leave the bound as it is. */
  lemma StepsLeftFalls(s: State, start: int, t: Tid, u: Tid)
    requires Inv(s, start) && Critical(PcOf(s, t))
    ensures 1 <= StepsLeft(s, PcOf(s, t)) <= 3 * WINDOW_SIZE + 6
    ensures var s' := Step(s, u);
            if u != t then PcOf(s', t) == PcOf(s, t) && StepsLeft(s', PcOf(s', t)) == StepsLeft(s, PcOf(s, t))
            else if PcOf(s, t) == Unlocking then PcOf(s', t) == Idle && !s'.locked
            else Critical(PcOf(s', t)) && StepsLeft(s', PcOf(s', t)) < StepsLeft(s, PcOf(s, t))
  {
    assert PcInv(s, start, PcOf(s, t)) && PcInv(s, start, PcOf(s, u));
    if u != t {
      StepFrame(s, u, t);
      assert !Critical(PcOf(s, u));
    }
  }

  /** How often `t` steps in a schedule. */
  function StepsOf(schedule: seq<Tid>, t: Tid): nat
    decreases |schedule|
  {
    if schedule == [] then 0 else (if schedule[0] == t then 1 else 0) + StepsOf(schedule[1..], t)
  }

  lemma {:induction false} ReleasedWithin(s: State, start: int, schedule: seq<Tid>, t: Tid) returns (k: nat)
    requires Inv(s, start) && Within(s, schedule)
    requires Critical(PcOf(s, t)) && StepsLeft(s, PcOf(s, t)) <= StepsOf(schedule, t)
    ensures k <= |schedule| && PcOf(Run(s, schedule[..k]), t) == Idle && !Run(s, schedule[..k]).locked
    decreases |schedule|
  {
    StepsLeftFalls(s, start, t, t);
    var u := schedule[0];
    var s' := Step(s, u);
    StepsLeftFalls(s, start, t, u);
    StepInv(s, start, u);
    if u == t && PcOf(s, t) == Unlocking {
      k := 1;
      assert schedule[..1][1..] == [];
    } else {
      var m := ReleasedWithin(s', start, schedule[1..], t);
      k := m + 1;
      assert schedule[..k][1..] == schedule[1..][..m];
    }
  }

  /** Whatever the other goroutines do in between, and however many marks they add: from
      every reachable state, a goroutine that holds the lock has released it by the time it
      has taken 3 * WINDOW_SIZE + 6 steps of its own. */
  lemma LockIsReleased(start: int, before: seq<Tid>, schedule: seq<Tid>, t: Tid) returns (k: nat)
    requires Within(Init(start), before + schedule)
    requires Critical(PcOf(Run(Init(start), before), t)) && 3 * WINDOW_SIZE + 6 <= StepsOf(schedule, t)
    ensures k <= |schedule|
    ensures var e := Run(Init(start), before + schedule[..k]);
            PcOf(e, t) == Idle && !e.locked
  {
    InitInv(start);
    WithinConcat(Init(start), before, schedule);
    RunInv(Init(start), start, before);
    var s := Run(Init(start), before);
    StepsLeftFalls(s, start, t, t);
    k := ReleasedWithin(s, start, schedule, t);
    RunConcat(Init(start), before, schedule[..k]);
  }

  /** Whenever the lock is free, Last() is the end of the longest acknowledged prefix
      exactly if the slot after it is not set. */
  lemma LastIsLongestIff(start: int, schedule: seq<Tid>)
    requires Within(Init(start), schedule) && !Run(Init(start), schedule).locked
    ensures var s := Run(Init(start), schedule);
            IsLongestPrefix(s.acked, start, s.limit) <==> Slot(s.limit + 1) !in s.window
  {
    InitInv(start);
    RunInv(Init(start), start, schedule);
    var s := Run(Init(start), schedule);
    if s.limit + 1 in s.acked {
      assert Slot(s.limit + 1) in Marks(s.acked, s.drained);
    } else if Slot(s.limit + 1) in s.window {
      var w :| w in s.acked && s.drained < w && Slot(w) == Slot(s.limit + 1);
      SlotInjectiveInWindow(s.limit, s.limit + 1, w);
    }
  }

  /** Two goroutines: the second marks 2 after the first has tested that slot and before
      it stores, so its TryLock fails.  All is quiet, 1 and 2 are acknowledged, and Last()
      stays at 1 until another Acknowledge runs. */
  lemma LastMayLag()
    ensures var s := Run(Init(1), Alone(0, 6) + Alone(0, 5) + Alone(1, 5) + Alone(0, 2));
            && (forall t :: PcOf(s, t) == Idle) && !s.locked
            && s.acked == {1, 2} && s.limit == 1
  {
    LagFirst();
    LagSecond();
    LagThird();
    LagFourth();
    RunFourParts(Init(1), Alone(0, 6), Alone(0, 5), Alone(1, 5), Alone(0, 2));
  }

  lemma RunFourParts(s: State, a: seq<Tid>, b: seq<Tid>, c: seq<Tid>, d: seq<Tid>)
    ensures Run(s, a + b + c + d) == Run(Run(Run(Run(s, a), b), c), d)
  {
    RunConcat(s, a, b);
    RunConcat(s, a + b, c);
    RunConcat(s, a + b + c, d);
  }

  lemma LagFourth()
    ensures Run(State(3, 0, {2}, true, map[0 := Storing(2), 1 := Idle], {1, 2}, {1, 2}, 1), Alone(0, 2))
         == State(3, 1, {2}, false, map[0 := Idle, 1 := Idle], {1, 2}, {1, 2}, 1)
  {
    var c := State(3, 0, {2}, true, map[0 := Storing(2), 1 := Idle], {1, 2}, {1, 2}, 1);
    AloneStep(c, 0, 2);
    AloneStep(Step(c, 0), 0, 1);
  }

  lemma LagFirst()
    ensures Run(Init(1), Alone(0, 6)) == State(2, 0, {1}, true, map[0 := AtGuard(1, 0)], {1}, {1}, 0)
  {
    RunSix(Init(1), 0);
  }

  lemma LagSecond()
    ensures Run(State(2, 0, {1}, true, map[0 := AtGuard(1, 0)], {1}, {1}, 0), Alone(0, 5))
         == State(2, 0, {}, true, map[0 := Storing(2)], {1}, {1}, 1)
  {
    RunFive(State(2, 0, {1}, true, map[0 := AtGuard(1, 0)], {1}, {1}, 0), 0);
  }

  lemma LagThird()
    ensures Run(State(2, 0, {}, true, map[0 := Storing(2)], {1}, {1}, 1), Alone(1, 5))
         == State(3, 0, {2}, true, map[0 := Storing(2), 1 := Idle], {1, 2}, {1, 2}, 1)
  {
    RunFive(State(2, 0, {}, true, map[0 := Storing(2)], {1}, {1}, 1), 1);
  }

  lemma RunFive(s: State, t: Tid)
    ensures Run(s, Alone(t, 5)) == Step(Step(Step(Step(Step(s, t), t), t), t), t)
  {
    AloneStep(s, t, 5);
    AloneStep(Step(s, t), t, 4);
    AloneStep(Step(Step(s, t), t), t, 3);
    AloneStep(Step(Step(Step(s, t), t), t), t, 2);
    AloneStep(Step(Step(Step(Step(s, t), t), t), t), t, 1);
  }

  lemma RunSix(s: State, t: Tid)
    ensures Run(s, Alone(t, 6)) == Step(Step(Step(Step(Step(Step(s, t), t), t), t), t), t)
  {
    AloneStep(s, t, 6);
    RunFive(Step(s, t), t);
  }
}

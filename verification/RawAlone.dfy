/** The RPC-level model of the raw driver, run by one thread at a time, is the plain table. */
module RawAlone {
  import opened ByteStrings
  import opened Options
  import opened RowCodecs
  import opened RawRows
  import opened RawSteps
  import opened DeterministicValues

  function PutRows(t: Table, rows: seq<(Bytes, Values)>): Table
    decreases |rows|
  {
    if rows == [] then t else PutRows(t[rows[0].0 := rows[0].1], rows[1..])
  }

  /** The operation on a table of records, at once: no rows, caches or fallbacks. */
  function Atomic(t: Table, op: Op): Table {
    match op
    case Read(_, _) => t
    case Update(key, values) => t[key := Merge(Lookup(t, key), values)]
    case ReadModifyWrite(key, _, values) => t[key := Merge(Lookup(t, key), values)]
    case Insert(key, values) => t[key := values]
    case Delete(key) => t - {key}
    case BatchPut(rows) => PutRows(t, rows)
  }

  /** Where the operation ends: with the record it read still to be verified. */
  function Final(t: Table, op: Op): Pc {
    match op
    case Read(key, fields) => Verifying(key, Restrict(Lookup(t, key), fields))
    case Update(key, _) => Verifying(key, map[])
    case ReadModifyWrite(key, fields, _) => Verifying(key, Restrict(Lookup(t, key), fields))
    case Insert(key, _) => Verifying(key, map[])
    case Delete(_) => Idle
    case BatchPut(_) => Idle
  }

  lemma {:induction false} OrderOfKeys(keys: set<Bytes>) returns (order: seq<Bytes>)
    ensures forall f :: f in order <==> f in keys
    ensures forall i, j :: 0 <= i < j < |order| ==> order[i] != order[j]
    decreases |keys|
  {
    if keys == {} {
      order := [];
    } else {
      var f :| f in keys;
      var rest := OrderOfKeys(keys - {f});
      order := rest + [f];
    }
  }

  lemma InvIsGood(g: Config, n: nat, s: State)
    requires Inv(g, n, Anything(), s)
    ensures GoodStore(g.codec, s.store)
  {
    forall k | k in s.store ensures GoodRow(g.codec, s.store[k]) {
      assert FineRow(g.codec, Anything(), k, s.store[k]);
    }
  }

  /** A label sequence of steps of `t` only. */
  ghost predicate By(t: Tid, labels: seq<Label>) {
    forall i :: 0 <= i < |labels| ==> labels[i].Go? && labels[i].t == t
  }

  function MergeInto(t: Table, key: Bytes, values: Values): Table {
    t[key := Merge(Lookup(t, key), values)]
  }

  /** The table once a thread standing at `pc` has finished without interference. */
  function Finished(t: Table, pc: Pc): Table {
    match pc
    case Reading(key, _, write) => if write.Some? then MergeInto(t, key, write.value) else t
    case Updating(key, values, _) => MergeInto(t, key, values)
    case Swapping(key, values, _, _, _) => MergeInto(t, key, values)
    case Getting(key, values, _) => MergeInto(t, key, values)
    case Putting(key, values, _) => t[key := values]
    case PuttingBatch(rows) => PutRows(t, rows)
    case Deleting(key) => t - {key}
    case _ => t
  }

  /** Where it then stands, before it verifies what it has read. */
  function Ending(t: Table, pc: Pc): Pc {
    match pc
    case Reading(key, fields, _) => Verifying(key, Restrict(Lookup(t, key), fields))
    case Updating(key, _, check) => Verifying(key, check)
    case Swapping(key, _, _, _, check) => Verifying(key, check)
    case Getting(key, _, check) => Verifying(key, check)
    case Putting(key, _, check) => Verifying(key, check)
    case PuttingBatch(_) => Idle
    case Deleting(_) => Idle
    case _ => pc
  }

  /** No RPC is left to do. */
  predicate Done(pc: Pc) {
    pc.Idle? || pc.Verifying? || pc.Mismatch?
  }

  // ---------- What one step of a lone thread keeps ----------

  /** Both lead to the same table and, before the verification, to the same position. */
  ghost predicate SameEnd(t: Table, pc: Pc, t1: Table, pc1: Pc) {
    Finished(t1, pc1) == Finished(t, pc) && (!pc.Verifying? ==> Ending(t1, pc1) == Ending(t, pc))
  }

  /** A step of `u` from `s` to `s1` keeps its end. */
  ghost predicate OnTheWay(c: RowCodec, s: State, s1: State, u: Tid) {
    && GoodStore(c, s.store) && GoodStore(c, s1.store)
    && SameEnd(RecordsOf(c, s.store), PcOf(s, u), RecordsOf(c, s1.store), PcOf(s1, u))
  }

  /** A read leaves the table alone and carries the wanted fields of the record along. */
  lemma ReadLands(g: Config, n: nat, s: State, t: Tid, pc: Pc, order: seq<Bytes>)
    requires Inv(g, n, Anything(), s) && pc == PcOf(s, t) && pc.Reading?
    ensures GoodStore(g.codec, s.store)
    ensures var s1 := Step(g, s, Go(t, order));
            && s1.store == s.store
            && PcOf(s1, t) == AfterRead(pc.key, pc.write, Restrict(Lookup(RecordsOf(g.codec, s.store), pc.key), pc.fields))
  {
    InvIsGood(g, n, s);
    assert FinePc(g.codec, Anything(), pc);
    if pc.key in s.store {
      DecodeSome(g.codec, n, s.store[pc.key], pc.fields);
    } else {
      assert Restrict(map[], pc.fields) == map[];
    }
  }

  /** An update goes on to its swap or to its fallback. */
  lemma UpdateLands(g: Config, n: nat, s: State, t: Tid, pc: Pc, order: seq<Bytes>)
    requires Inv(g, n, Anything(), s) && pc == PcOf(s, t) && pc.Updating?
    ensures var s1 := Step(g, s, Go(t, order));
            && s1.store == s.store
            && (PcOf(s1, t).Swapping? || PcOf(s1, t).Getting?)
            && PcOf(s1, t).key == pc.key && PcOf(s1, t).values == pc.values && PcOf(s1, t).check == pc.check
  {
    assert FineCache(g.codec, Anything(), CacheOf(s, t));
  }

  lemma SwapOnTheWay(g: Config, n: nat, s: State, t: Tid, pc: Pc, order: seq<Bytes>)
    requires Inv(g, n, Anything(), s) && pc == PcOf(s, t) && pc.Swapping?
    ensures OnTheWay(g.codec, s, Step(g, s, Go(t, order)), t)
  {
    assert FinePc(g.codec, Anything(), pc);
    SwapCommitsMerge(g, n, s, t, order);
    SwapLands(g, s, t, pc, order);
    var s1 := Step(g, s, Go(t, order));
    SwapSameEnd(RecordsOf(g.codec, s.store), pc, RecordsOf(g.codec, s1.store), PcOf(s1, t));
  }

  lemma SwapSameEnd(t: Table, pc: Pc, t1: Table, pc1: Pc)
    requires pc.Swapping?
    requires
      || (pc1 == pc && t1 == t)
      || (pc1 == Getting(pc.key, pc.values, pc.check) && t1 == t)
      || (pc1 == Verifying(pc.key, pc.check) && pc.key in t && t1 == t[pc.key := Merge(t[pc.key], pc.values)])
    ensures SameEnd(t, pc, t1, pc1)
  {
  }

  lemma StepIsSwap(g: Config, s: State, t: Tid, pc: Pc, order: seq<Bytes>)
    requires pc == PcOf(s, t) && pc.Swapping? && DecodeFields(g.codec, pc.prev, []).Ok?
    ensures Step(g, s, Go(t, order)) == SwapStep(g, s, t, pc, order)
  {
  }

  /** What a swap step leads to: it waits for an order, or commits, or falls back. */
  ghost predicate SwapOutcome(c: RowCodec, s: State, t: Tid, pc: Pc, order: seq<Bytes>, s1: State)
    requires pc.Swapping? && DecodeFields(c, pc.prev, []).Ok?
  {
    if !Enumerates(order, Merge(DecodeFields(c, pc.prev, []).value, pc.values)) then s1 == s
    else
      || (PcOf(s1, t) == Verifying(pc.key, pc.check) && s1.log != s.log)
      || (PcOf(s1, t) == Getting(pc.key, pc.values, pc.check) && s1.store == s.store && s1.log == s.log)
  }

  lemma SwapStepLands(g: Config, s: State, t: Tid, pc: Pc, order: seq<Bytes>)
    requires pc.Swapping? && DecodeFields(g.codec, pc.prev, []).Ok?
    ensures SwapOutcome(g.codec, s, t, pc, order, SwapStep(g, s, t, pc, order))
  {
    assert |s.log + [Merged(pc.key, pc.values)]| != |s.log|;
  }

  lemma SwapLands(g: Config, s: State, t: Tid, pc: Pc, order: seq<Bytes>)
    requires pc == PcOf(s, t) && pc.Swapping? && DecodeFields(g.codec, pc.prev, []).Ok?
    ensures SwapOutcome(g.codec, s, t, pc, order, Step(g, s, Go(t, order)))
  {
    StepIsSwap(g, s, t, pc, order);
    SwapStepLands(g, s, t, pc, order);
  }

  lemma GetLands(g: Config, n: nat, s: State, t: Tid, pc: Pc, order: seq<Bytes>)
    requires Inv(g, n, Anything(), s) && pc == PcOf(s, t) && pc.Getting?
    ensures GoodStore(g.codec, s.store)
    ensures Step(g, s, Go(t, order)) ==
            Goto(s, t, Putting(pc.key, Merge(Lookup(RecordsOf(g.codec, s.store), pc.key), pc.values), pc.check))
  {
    InvIsGood(g, n, s);
    StepIsGet(g, s, t, pc, order);
    RecordOrEmpty(g.codec, n, s.store, pc.key);
  }

  /** A put writes its record, or waits for an order of it. */
  lemma PutLands(g: Config, n: nat, s: State, t: Tid, key: Bytes, values: Values, order: seq<Bytes>, next: Pc)
    requires Inv(g, n, Anything(), s) && Known(g.codec, values)
    ensures var s1 := PutStep(g, s, t, key, values, order, next);
            && GoodStore(g.codec, s.store) && GoodStore(g.codec, s1.store)
            && if Enumerates(order, values)
               then PcOf(s1, t) == next && RecordsOf(g.codec, s1.store) == RecordsOf(g.codec, s.store)[key := values]
               else s1 == s
  {
    PutStepLog(g, n, s, t, key, values, order, next);
    assert |s.log + [Replaced(key, values)]| != |s.log|;
  }

  lemma DeleteOnTheWay(g: Config, n: nat, s: State, t: Tid, pc: Pc, order: seq<Bytes>)
    requires Inv(g, n, Anything(), s) && pc == PcOf(s, t) && pc.Deleting?
    ensures OnTheWay(g.codec, s, Step(g, s, Go(t, order)), t)
  {
    InvIsGood(g, n, s);
    DeleteLands(g, s, t, pc, order);
    DropRow(g.codec, s.store, pc.key);
  }

  lemma DeleteLands(g: Config, s: State, t: Tid, pc: Pc, order: seq<Bytes>)
    requires pc == PcOf(s, t) && pc.Deleting?
    ensures Step(g, s, Go(t, order)).store == s.store - {pc.key} && PcOf(Step(g, s, Go(t, order)), t) == Idle
    ensures Step(g, s, Go(t, order)).log == s.log + [Removed(pc.key)]
  {
  }

  lemma DropRow(c: RowCodec, store: Store, k: Bytes)
    requires GoodStore(c, store)
    ensures GoodStore(c, store - {k}) && RecordsOf(c, store - {k}) == RecordsOf(c, store) - {k}
  {
  }

  lemma PutOnTheWay(g: Config, n: nat, s: State, t: Tid, pc: Pc, order: seq<Bytes>)
    requires Inv(g, n, Anything(), s) && pc == PcOf(s, t) && (pc.Putting? || pc.PuttingBatch?)
    ensures OnTheWay(g.codec, s, Step(g, s, Go(t, order)), t)
  {
    InvIsGood(g, n, s);
    assert FinePc(g.codec, Anything(), pc);
    if pc.Putting? {
      PutLands(g, n, s, t, pc.key, pc.values, order, Verifying(pc.key, pc.check));
    } else if pc.rows != [] {
      PutLands(g, n, s, t, pc.rows[0].0, pc.rows[0].1, order, PuttingBatch(pc.rows[1..]));
    }
  }

  lemma ReadOnTheWay(g: Config, n: nat, s: State, t: Tid, pc: Pc, order: seq<Bytes>)
    requires Inv(g, n, Anything(), s) && pc == PcOf(s, t) && pc.Reading?
    ensures OnTheWay(g.codec, s, Step(g, s, Go(t, order)), t)
  {
    ReadLands(g, n, s, t, pc, order);
    ReadSameEnd(RecordsOf(g.codec, s.store), pc);
  }

  lemma ReadSameEnd(t: Table, pc: Pc)
    requires pc.Reading?
    ensures SameEnd(t, pc, t, AfterRead(pc.key, pc.write, Restrict(Lookup(t, pc.key), pc.fields)))
  {
  }

  lemma UpdateOnTheWay(g: Config, n: nat, s: State, t: Tid, pc: Pc, order: seq<Bytes>)
    requires Inv(g, n, Anything(), s) && pc == PcOf(s, t) && pc.Updating?
    ensures OnTheWay(g.codec, s, Step(g, s, Go(t, order)), t)
  {
    InvIsGood(g, n, s);
    UpdateLands(g, n, s, t, pc, order);
  }

  lemma GetOnTheWay(g: Config, n: nat, s: State, t: Tid, pc: Pc, order: seq<Bytes>)
    requires Inv(g, n, Anything(), s) && pc == PcOf(s, t) && pc.Getting?
    ensures OnTheWay(g.codec, s, Step(g, s, Go(t, order)), t)
  {
    GetLands(g, n, s, t, pc, order);
  }

  lemma DoneOnTheWay(g: Config, n: nat, s: State, t: Tid, order: seq<Bytes>)
    requires Inv(g, n, Anything(), s) && Done(PcOf(s, t))
    ensures OnTheWay(g.codec, s, Step(g, s, Go(t, order)), t)
  {
    InvIsGood(g, n, s);
    DoneLands(g, s, t, order);
    DoneSameEnd(RecordsOf(g.codec, s.store), PcOf(s, t), PcOf(Step(g, s, Go(t, order)), t));
  }

  lemma DoneLands(g: Config, s: State, t: Tid, order: seq<Bytes>)
    requires Done(PcOf(s, t))
    ensures var s1 := Step(g, s, Go(t, order));
            && s1.store == s.store && Done(PcOf(s1, t))
            && (!PcOf(s, t).Verifying? ==> PcOf(s1, t) == PcOf(s, t))
  {
  }

  lemma DoneSameEnd(t: Table, pc: Pc, pc1: Pc)
    requires Done(pc) && Done(pc1) && (!pc.Verifying? ==> pc1 == pc)
    ensures SameEnd(t, pc, t, pc1)
  {
  }

  lemma GoOnTheWay(g: Config, n: nat, s: State, t: Tid, order: seq<Bytes>)
    requires Inv(g, n, Anything(), s)
    ensures OnTheWay(g.codec, s, Step(g, s, Go(t, order)), t)
  {
    var pc := PcOf(s, t);
    match pc
    case Reading(_, _, _) => ReadOnTheWay(g, n, s, t, pc, order);
    case Updating(_, _, _) => UpdateOnTheWay(g, n, s, t, pc, order);
    case Swapping(_, _, _, _, _) => SwapOnTheWay(g, n, s, t, pc, order);
    case Getting(_, _, _) => GetOnTheWay(g, n, s, t, pc, order);
    case Putting(_, _, _) => PutOnTheWay(g, n, s, t, pc, order);
    case PuttingBatch(_) => PutOnTheWay(g, n, s, t, pc, order);
    case Deleting(_) => DeleteOnTheWay(g, n, s, t, pc, order);
    case _ => DoneOnTheWay(g, n, s, t, order);
  }

  // ---------- Lone runs ----------

  lemma {:induction false} LoneRun(g: Config, n: nat, s: State, t: Tid, labels: seq<Label>)
    requires Inv(g, n, Anything(), s) && By(t, labels)
    ensures var e := Run(g, s, labels);
            && GoodStore(g.codec, s.store) && GoodStore(g.codec, e.store)
            && Finished(RecordsOf(g.codec, e.store), PcOf(e, t)) == Finished(RecordsOf(g.codec, s.store), PcOf(s, t))
            && (PcOf(e, t).Verifying? ==> PcOf(e, t) == Ending(RecordsOf(g.codec, s.store), PcOf(s, t)))
    decreases |labels|
  {
    InvIsGood(g, n, s);
    if labels != [] {
      GoOnTheWay(g, n, s, t, labels[0].order);
      StepInv(g, n, Anything(), s, labels[0]);
      LoneRun(g, n, Step(g, s, labels[0]), t, labels[1..]);
    }
  }

  /** From every reachable kind of state, whatever other threads were doing and whatever is
      in its cache: whenever a thread that started an operation and runs alone has no RPC
      left to do, in either mode and whatever the orders of its rows, the decoded table is
      the one after the operation at once; and the record it verifies is the one it read. */
  lemma AloneIsAtomic(g: Config, n: nat, s: State, t: Tid, op: Op, labels: seq<Label>)
    requires Inv(g, n, Anything(), s) && FineOp(g.codec, Anything(), op) && PcOf(s, t) == Idle && By(t, labels)
    ensures var e := Run(g, s, [Start(t, op)] + labels);
            && GoodStore(g.codec, s.store) && GoodStore(g.codec, e.store)
            && (Done(PcOf(e, t)) ==> RecordsOf(g.codec, e.store) == Atomic(RecordsOf(g.codec, s.store), op))
            && (PcOf(e, t).Verifying? ==> PcOf(e, t) == Final(RecordsOf(g.codec, s.store), op))
  {
    var s1 := Step(g, s, Start(t, op));
    var e := Run(g, s1, labels);
    StepInv(g, n, Anything(), s, Start(t, op));
    LoneRun(g, n, s1, t, labels);
    RunCons(g, s, Start(t, op), labels);
    assert s1.store == s.store && PcOf(s1, t) == FirstPc(op);
    FirstFinishes(RecordsOf(g.codec, s.store), op);
    DoneIsFinished(RecordsOf(g.codec, e.store), PcOf(e, t));
  }

  lemma DoneIsFinished(t: Table, pc: Pc)
    ensures Done(pc) ==> Finished(t, pc) == t
  {
  }

  lemma FirstFinishes(t: Table, op: Op)
    ensures Finished(t, FirstPc(op)) == Atomic(t, op) && Ending(t, FirstPc(op)) == Final(t, op)
  {
  }

  /** The verdict on what was read: fatal exactly if some field does not hold its value. */
  ghost function Verdict(g: Config, end: Pc): Pc {
    match end
    case Verifying(key, check) => if Intact(key, check, g.size) then Idle else Mismatch
    case _ => end
  }

  lemma VerifyStep(g: Config, s: State, t: Tid, order: seq<Bytes>)
    requires PcOf(s, t).Verifying?
    ensures PcOf(Step(g, s, Go(t, order)), t) == Verdict(g, PcOf(s, t))
  {
  }

  lemma {:induction false} LoneVerdict(g: Config, n: nat, s: State, t: Tid, labels: seq<Label>)
    requires Inv(g, n, Anything(), s) && By(t, labels)
    ensures var pc := PcOf(Run(g, s, labels), t);
            GoodStore(g.codec, s.store)
            && (pc.Idle? || pc.Mismatch? ==> pc == Verdict(g, Ending(RecordsOf(g.codec, s.store), PcOf(s, t))))
    decreases |labels|
  {
    InvIsGood(g, n, s);
    if labels != [] {
      var s1 := Step(g, s, labels[0]);
      if PcOf(s, t).Verifying? { VerifyStep(g, s, t, labels[0].order); }
      GoOnTheWay(g, n, s, t, labels[0].order);
      StepInv(g, n, Anything(), s, labels[0]);
      LoneVerdict(g, n, s1, t, labels[1..]);
      VerdictKept(g, RecordsOf(g.codec, s.store), PcOf(s, t), RecordsOf(g.codec, s1.store), PcOf(s1, t));
    }
  }

  lemma VerdictKept(g: Config, t: Table, pc: Pc, t1: Table, pc1: Pc)
    requires SameEnd(t, pc, t1, pc1) && (pc.Verifying? ==> pc1 == Verdict(g, pc))
    ensures Verdict(g, Ending(t1, pc1)) == Verdict(g, Ending(t, pc))
  {
  }

  /** Every lone run that is over has found a mismatch exactly if the record it read does not
      hold the deterministic values: a wrong stored value is detected. */
  lemma AloneDetects(g: Config, n: nat, s: State, t: Tid, op: Op, labels: seq<Label>)
    requires Inv(g, n, Anything(), s) && FineOp(g.codec, Anything(), op) && PcOf(s, t) == Idle && By(t, labels)
    ensures var pc := PcOf(Run(g, s, [Start(t, op)] + labels), t);
            GoodStore(g.codec, s.store)
            && (pc.Idle? || pc.Mismatch? ==> pc == Verdict(g, Final(RecordsOf(g.codec, s.store), op)))
  {
    var s1 := Step(g, s, Start(t, op));
    InvIsGood(g, n, s);
    StepInv(g, n, Anything(), s, Start(t, op));
    LoneVerdict(g, n, s1, t, labels);
    RunCons(g, s, Start(t, op), labels);
    assert s1.store == s.store && PcOf(s1, t) == FirstPc(op);
    FirstFinishes(RecordsOf(g.codec, s.store), op);
  }

  // ---------- What a lone operation commits ----------

  /** The write a merge of `values` into `key` ends in: a swap if `prev` is what is stored, a
      put of the whole merged record otherwise. */
  ghost function MergeWrite(g: Config, store: Store, key: Bytes, values: Values, prev: Option<Bytes>): Write
    requires GoodStore(g.codec, store)
  {
    if prev.Some? && key in store && store[key] == prev.value then Merged(key, values)
    else Replaced(key, Merge(Lookup(RecordsOf(g.codec, store), key), values))
  }

  /** The row that an update of `key` would swap. */
  function Offered(g: Config, cache: Cache, key: Bytes): Option<Bytes> {
    if g.casMode && cache.Filled? && cache.key == key then Some(cache.row) else None
  }

  /** The row it would swap after a read of `key`. */
  function OfferedAfterRead(g: Config, store: Store, cache: Cache, key: Bytes): Option<Bytes> {
    if g.casMode && key in store then Some(store[key]) else Offered(g, cache, key)
  }

  function ReplacedAll(rows: seq<(Bytes, Values)>): seq<Write> {
    seq(|rows|, i requires 0 <= i < |rows| => Replaced(rows[i].0, rows[i].1))
  }

  /** The writes a thread standing at `pc` has still to commit, without interference. */
  ghost function ToCommit(g: Config, store: Store, cache: Cache, pc: Pc): seq<Write>
    requires GoodStore(g.codec, store)
  {
    match pc
    case Reading(key, _, write) =>
      if write.Some? then [MergeWrite(g, store, key, write.value, OfferedAfterRead(g, store, cache, key))] else []
    case Updating(key, values, _) => [MergeWrite(g, store, key, values, Offered(g, cache, key))]
    case Swapping(key, values, prev, _, _) => [MergeWrite(g, store, key, values, Some(prev))]
    case Getting(key, values, _) => [MergeWrite(g, store, key, values, None)]
    case Putting(key, values, _) => [Replaced(key, values)]
    case PuttingBatch(rows) => ReplacedAll(rows)
    case Deleting(key) => [Removed(key)]
    case _ => []
  }

  ghost predicate SameCommits(g: Config, s: State, s1: State, t: Tid) {
    && GoodStore(g.codec, s.store) && GoodStore(g.codec, s1.store)
    && s1.log + ToCommit(g, s1.store, CacheOf(s1, t), PcOf(s1, t))
       == s.log + ToCommit(g, s.store, CacheOf(s, t), PcOf(s, t))
  }

  /** In CAS mode a read remembers the row it has read, and otherwise nothing. */
  lemma ReadCaches(g: Config, n: nat, s: State, t: Tid, pc: Pc, order: seq<Bytes>)
    requires Inv(g, n, Anything(), s) && pc == PcOf(s, t) && pc.Reading?
    ensures var s1 := Step(g, s, Go(t, order));
            && s1.log == s.log
            && if g.casMode && pc.key in s.store
               then CacheOf(s1, t).Filled? && CacheOf(s1, t).key == pc.key && CacheOf(s1, t).row == s.store[pc.key]
               else CacheOf(s1, t) == CacheOf(s, t)
  {
  }

  lemma ReadCommits(g: Config, n: nat, s: State, t: Tid, pc: Pc, order: seq<Bytes>)
    requires Inv(g, n, Anything(), s) && pc == PcOf(s, t) && pc.Reading?
    ensures SameCommits(g, s, Step(g, s, Go(t, order)), t)
  {
    ReadLands(g, n, s, t, pc, order);
    ReadCaches(g, n, s, t, pc, order);
    var s1 := Step(g, s, Go(t, order));
    ReadToCommit(g, s.store, CacheOf(s, t), pc, CacheOf(s1, t), PcOf(s1, t));
  }

  lemma ReadToCommit(g: Config, store: Store, cache: Cache, pc: Pc, cache1: Cache, pc1: Pc)
    requires GoodStore(g.codec, store) && pc.Reading?
    requires if pc.write.Some? then pc1.Updating? && pc1.key == pc.key && pc1.values == pc.write.value else pc1.Verifying?
    requires if g.casMode && pc.key in store
             then cache1.Filled? && cache1.key == pc.key && cache1.row == store[pc.key]
             else cache1 == cache
    ensures ToCommit(g, store, cache1, pc1) == ToCommit(g, store, cache, pc)
  {
  }

  /** An update offers the cached row of its key, and goes to its fallback without one. */
  lemma UpdateOffers(g: Config, n: nat, s: State, t: Tid, pc: Pc, order: seq<Bytes>)
    requires Inv(g, n, Anything(), s) && pc == PcOf(s, t) && pc.Updating?
    ensures var s1 := Step(g, s, Go(t, order));
            var row := Offered(g, CacheOf(s, t), pc.key);
            && s1.store == s.store && s1.log == s.log
            && if row.Some? then PcOf(s1, t) == Swapping(pc.key, pc.values, row.value, CacheOf(s, t).stamp, pc.check)
               else PcOf(s1, t) == Getting(pc.key, pc.values, pc.check)
  {
    assert FineCache(g.codec, Anything(), CacheOf(s, t));
  }

  lemma UpdateCommits(g: Config, n: nat, s: State, t: Tid, pc: Pc, order: seq<Bytes>)
    requires Inv(g, n, Anything(), s) && pc == PcOf(s, t) && pc.Updating?
    ensures SameCommits(g, s, Step(g, s, Go(t, order)), t)
  {
    InvIsGood(g, n, s);
    UpdateOffers(g, n, s, t, pc, order);
  }

  /** A swap succeeds exactly if the store still holds the row it offers. */
  lemma SwapSucceedsIff(g: Config, n: nat, s: State, t: Tid, pc: Pc, order: seq<Bytes>)
    requires Inv(g, n, Anything(), s) && pc == PcOf(s, t) && pc.Swapping? && Enumerates(order, Encoding(g.codec, pc))
    ensures var s1 := Step(g, s, Go(t, order));
            if pc.key in s.store && s.store[pc.key] == pc.prev
            then s1.log == s.log + [Merged(pc.key, pc.values)] && PcOf(s1, t) == Verifying(pc.key, pc.check)
            else s1.log == s.log && s1.store == s.store && PcOf(s1, t) == Getting(pc.key, pc.values, pc.check)
  {
    assert FinePc(g.codec, Anything(), pc);
    StepIsSwap(g, s, t, pc, order);
  }

  lemma SwapCommitted(g: Config, n: nat, s: State, t: Tid, pc: Pc, order: seq<Bytes>)
    requires Inv(g, n, Anything(), s) && pc == PcOf(s, t) && pc.Swapping?
    ensures SameCommits(g, s, Step(g, s, Go(t, order)), t)
  {
    InvIsGood(g, n, s);
    if Enumerates(order, Encoding(g.codec, pc)) {
      SwapDone(g, n, s, t, pc, order);
    } else {
      assert FinePc(g.codec, Anything(), pc);
      SwapWaits(g, s, t, pc, order);
    }
  }

  lemma SwapDone(g: Config, n: nat, s: State, t: Tid, pc: Pc, order: seq<Bytes>)
    requires Inv(g, n, Anything(), s) && pc == PcOf(s, t) && pc.Swapping? && Enumerates(order, Encoding(g.codec, pc))
    ensures SameCommits(g, s, Step(g, s, Go(t, order)), t)
  {
    var s1 := Step(g, s, Go(t, order));
    InvIsGood(g, n, s);
    StepInv(g, n, Anything(), s, Go(t, order));
    InvIsGood(g, n, s1);
    SwapSucceedsIff(g, n, s, t, pc, order);
    if pc.key in s.store && s.store[pc.key] == pc.prev {
      SwapWins(g, s.store, CacheOf(s, t), pc, s1.store, CacheOf(s1, t), PcOf(s1, t));
    } else {
      SwapLoses(g, s.store, CacheOf(s, t), pc, CacheOf(s1, t));
    }
  }

  lemma SwapWaits(g: Config, s: State, t: Tid, pc: Pc, order: seq<Bytes>)
    requires pc == PcOf(s, t) && pc.Swapping? && DecodeFields(g.codec, pc.prev, []).Ok?
    requires !Enumerates(order, Encoding(g.codec, pc))
    ensures Step(g, s, Go(t, order)) == s
  {
    SwapLands(g, s, t, pc, order);
  }

  lemma SwapWins(g: Config, store: Store, cache: Cache, pc: Pc, store1: Store, cache1: Cache, pc1: Pc)
    requires GoodStore(g.codec, store) && GoodStore(g.codec, store1) && pc.Swapping? && pc1.Verifying?
    requires pc.key in store && store[pc.key] == pc.prev
    ensures ToCommit(g, store, cache, pc) == [Merged(pc.key, pc.values)] && ToCommit(g, store1, cache1, pc1) == []
  {
  }

  lemma SwapLoses(g: Config, store: Store, cache: Cache, pc: Pc, cache1: Cache)
    requires GoodStore(g.codec, store) && pc.Swapping? && !(pc.key in store && store[pc.key] == pc.prev)
    ensures ToCommit(g, store, cache, pc) == ToCommit(g, store, cache1, Getting(pc.key, pc.values, pc.check))
  {
  }

  lemma GetCommits(g: Config, n: nat, s: State, t: Tid, pc: Pc, order: seq<Bytes>)
    requires Inv(g, n, Anything(), s) && pc == PcOf(s, t) && pc.Getting?
    ensures SameCommits(g, s, Step(g, s, Go(t, order)), t)
  {
    GetLands(g, n, s, t, pc, order);
  }

  lemma BatchStep(s: State, g: Config, t: Tid, pc: Pc, order: seq<Bytes>)
    requires pc == PcOf(s, t) && pc.PuttingBatch?
    ensures Step(g, s, Go(t, order)) ==
            if pc.rows == [] then Goto(s, t, Idle)
            else PutStep(g, s, t, pc.rows[0].0, pc.rows[0].1, order, PuttingBatch(pc.rows[1..]))
  {
  }

  lemma ReplacedTail(rows: seq<(Bytes, Values)>)
    requires rows != []
    ensures ReplacedAll(rows) == [Replaced(rows[0].0, rows[0].1)] + ReplacedAll(rows[1..])
  {
  }

  lemma PutCommitted(g: Config, s: State, t: Tid, key: Bytes, values: Values, order: seq<Bytes>, next: Pc)
    ensures var s1 := PutStep(g, s, t, key, values, order, next);
            if Enumerates(order, values) then s1.log == s.log + [Replaced(key, values)] && PcOf(s1, t) == next else s1 == s
  {
  }

  lemma BatchCommits(g: Config, n: nat, s: State, t: Tid, pc: Pc, order: seq<Bytes>)
    requires Inv(g, n, Anything(), s) && pc == PcOf(s, t) && pc.PuttingBatch?
    ensures SameCommits(g, s, Step(g, s, Go(t, order)), t)
  {
    InvIsGood(g, n, s);
    StepInv(g, n, Anything(), s, Go(t, order));
    InvIsGood(g, n, Step(g, s, Go(t, order)));
    BatchStep(s, g, t, pc, order);
    if pc.rows != [] {
      PutCommitted(g, s, t, pc.rows[0].0, pc.rows[0].1, order, PuttingBatch(pc.rows[1..]));
      ReplacedTail(pc.rows);
    }
  }

  lemma StepPuts(g: Config, s: State, t: Tid, pc: Pc, order: seq<Bytes>)
    requires pc == PcOf(s, t) && pc.Putting?
    ensures Step(g, s, Go(t, order)) == PutStep(g, s, t, pc.key, pc.values, order, Verifying(pc.key, pc.check))
  {
  }

  lemma PutCommits(g: Config, n: nat, s: State, t: Tid, pc: Pc, order: seq<Bytes>)
    requires Inv(g, n, Anything(), s) && pc == PcOf(s, t) && pc.Putting?
    ensures SameCommits(g, s, Step(g, s, Go(t, order)), t)
  {
    assert FinePc(g.codec, Anything(), pc);
    PutLands(g, n, s, t, pc.key, pc.values, order, Verifying(pc.key, pc.check));
    StepPuts(g, s, t, pc, order);
    PutCommitted(g, s, t, pc.key, pc.values, order, Verifying(pc.key, pc.check));
  }

  lemma DeleteCommits(g: Config, n: nat, s: State, t: Tid, pc: Pc, order: seq<Bytes>)
    requires Inv(g, n, Anything(), s) && pc == PcOf(s, t) && pc.Deleting?
    ensures SameCommits(g, s, Step(g, s, Go(t, order)), t)
  {
    InvIsGood(g, n, s);
    DeleteLands(g, s, t, pc, order);
    DropRow(g.codec, s.store, pc.key);
  }

  lemma DoneCommits(g: Config, n: nat, s: State, t: Tid, order: seq<Bytes>)
    requires Inv(g, n, Anything(), s) && Done(PcOf(s, t))
    ensures SameCommits(g, s, Step(g, s, Go(t, order)), t)
  {
    InvIsGood(g, n, s);
    DoneLands(g, s, t, order);
    StepKeepsStore(g, s, Go(t, order));
  }

  lemma GoCommits(g: Config, n: nat, s: State, t: Tid, order: seq<Bytes>)
    requires Inv(g, n, Anything(), s)
    ensures SameCommits(g, s, Step(g, s, Go(t, order)), t)
  {
    var pc := PcOf(s, t);
    match pc
    case Reading(_, _, _) => ReadCommits(g, n, s, t, pc, order);
    case Updating(_, _, _) => UpdateCommits(g, n, s, t, pc, order);
    case Swapping(_, _, _, _, _) => SwapCommitted(g, n, s, t, pc, order);
    case Getting(_, _, _) => GetCommits(g, n, s, t, pc, order);
    case PuttingBatch(_) => BatchCommits(g, n, s, t, pc, order);
    case Putting(_, _, _) => PutCommits(g, n, s, t, pc, order);
    case Deleting(_) => DeleteCommits(g, n, s, t, pc, order);
    case _ => DoneCommits(g, n, s, t, order);
  }

  lemma {:induction false} LoneCommits(g: Config, n: nat, s: State, t: Tid, labels: seq<Label>)
    requires Inv(g, n, Anything(), s) && By(t, labels)
    ensures SameCommits(g, s, Run(g, s, labels), t)
    decreases |labels|
  {
    InvIsGood(g, n, s);
    if labels != [] {
      GoCommits(g, n, s, t, labels[0].order);
      StepInv(g, n, Anything(), s, labels[0]);
      LoneCommits(g, n, Step(g, s, labels[0]), t, labels[1..]);
    }
  }

  /** The writes of an operation done at once: an update swaps if its thread has cached the
      stored row, a read-modify-write in CAS mode swaps whenever the record exists, and
      everything else replaces whole records. */
  ghost function CommittedBy(g: Config, store: Store, cache: Cache, op: Op): seq<Write>
    requires GoodStore(g.codec, store)
  {
    match op
    case Read(_, _) => []
    case Update(key, values) =>
      if g.casMode && key in store && cache.Filled? && cache.key == key && cache.row == store[key]
      then [Merged(key, values)]
      else [Replaced(key, Merge(Lookup(RecordsOf(g.codec, store), key), values))]
    case ReadModifyWrite(key, _, values) =>
      if g.casMode && key in store then [Merged(key, values)]
      else [Replaced(key, Merge(Lookup(RecordsOf(g.codec, store), key), values))]
    case Insert(key, values) => [Replaced(key, values)]
    case Delete(key) => [Removed(key)]
    case BatchPut(rows) => ReplacedAll(rows)
  }

  lemma FirstCommits(g: Config, store: Store, cache: Cache, op: Op)
    requires GoodStore(g.codec, store)
    ensures ToCommit(g, store, cache, FirstPc(op)) == CommittedBy(g, store, cache, op)
  {
  }

  /** Every lone run of an operation that has no RPC left has committed exactly these. */
  lemma AloneCommits(g: Config, n: nat, s: State, t: Tid, op: Op, labels: seq<Label>)
    requires Inv(g, n, Anything(), s) && FineOp(g.codec, Anything(), op) && PcOf(s, t) == Idle && By(t, labels)
    ensures var e := Run(g, s, [Start(t, op)] + labels);
            GoodStore(g.codec, s.store) && (Done(PcOf(e, t)) ==> e.log == s.log + CommittedBy(g, s.store, CacheOf(s, t), op))
  {
    var s1 := Step(g, s, Start(t, op));
    InvIsGood(g, n, s);
    StepInv(g, n, Anything(), s, Start(t, op));
    LoneCommits(g, n, s1, t, labels);
    RunCons(g, s, Start(t, op), labels);
    assert s1.store == s.store && s1.log == s.log && CacheOf(s1, t) == CacheOf(s, t) && PcOf(s1, t) == FirstPc(op);
    FirstCommits(g, s.store, CacheOf(s, t), op);
  }

  // ---------- A lone thread can always finish ----------

  /** A bound on the RPCs left. */
  function Left(pc: Pc): nat {
    match pc
    case Reading(_, _, _) => 5
    case Updating(_, _, _) => 4
    case Swapping(_, _, _, _, _) => 3
    case Getting(_, _, _) => 2
    case Putting(_, _, _) => 1
    case PuttingBatch(rows) => |rows| + 1
    case Deleting(_) => 1
    case _ => 0
  }

  /** What a thread at `pc` encodes next. */
  function Encoding(c: RowCodec, pc: Pc): Values {
    match pc
    case Swapping(_, values, prev, _, _) =>
      if DecodeFields(c, prev, []).Ok? then Merge(DecodeFields(c, prev, []).value, values) else map[]
    case Putting(_, values, _) => values
    case PuttingBatch(rows) => if rows == [] then map[] else rows[0].1
    case _ => map[]
  }

  lemma QuietProgress(g: Config, n: nat, s: State, t: Tid, order: seq<Bytes>)
    requires Inv(g, n, Anything(), s) && (PcOf(s, t).Reading? || PcOf(s, t).Updating? || PcOf(s, t).Getting?)
    ensures Left(PcOf(Step(g, s, Go(t, order)), t)) < Left(PcOf(s, t))
  {
    var pc := PcOf(s, t);
    if pc.Reading? {
      ReadLands(g, n, s, t, pc, order);
    } else if pc.Updating? {
      UpdateLands(g, n, s, t, pc, order);
    } else {
      GetLands(g, n, s, t, pc, order);
    }
  }

  lemma WriteProgress(g: Config, s: State, t: Tid, order: seq<Bytes>)
    requires Writes(PcOf(s, t)) && Enumerates(order, Encoding(g.codec, PcOf(s, t))) && !PcOf(s, t).Swapping?
    ensures Left(PcOf(Step(g, s, Go(t, order)), t)) < Left(PcOf(s, t))
  {
  }

  lemma SwapProgress(g: Config, n: nat, s: State, t: Tid, pc: Pc, order: seq<Bytes>)
    requires Inv(g, n, Anything(), s) && pc == PcOf(s, t) && pc.Swapping? && Enumerates(order, Encoding(g.codec, pc))
    ensures Left(PcOf(Step(g, s, Go(t, order)), t)) < Left(pc)
  {
    assert FinePc(g.codec, Anything(), pc);
    SwapLands(g, s, t, pc, order);
    OutcomeIsLess(g.codec, s, t, pc, order, Step(g, s, Go(t, order)));
  }

  lemma OutcomeIsLess(c: RowCodec, s: State, t: Tid, pc: Pc, order: seq<Bytes>, s1: State)
    requires pc.Swapping? && DecodeFields(c, pc.prev, []).Ok? && SwapOutcome(c, s, t, pc, order, s1)
    requires Enumerates(order, Encoding(c, pc))
    ensures Left(PcOf(s1, t)) < Left(pc)
  {
  }

  lemma Progress(g: Config, n: nat, s: State, t: Tid, order: seq<Bytes>)
    requires Inv(g, n, Anything(), s) && !Done(PcOf(s, t)) && Enumerates(order, Encoding(g.codec, PcOf(s, t)))
    ensures Left(PcOf(Step(g, s, Go(t, order)), t)) < Left(PcOf(s, t))
  {
    var pc := PcOf(s, t);
    if pc.Swapping? {
      SwapProgress(g, n, s, t, pc, order);
    } else if Writes(pc) {
      WriteProgress(g, s, t, order);
    } else {
      QuietProgress(g, n, s, t, order);
    }
  }

  lemma {:induction false} CanFinish(g: Config, n: nat, s: State, t: Tid) returns (labels: seq<Label>)
    requires Inv(g, n, Anything(), s)
    ensures By(t, labels) && GoodStore(g.codec, s.store)
    ensures Done(PcOf(Run(g, s, labels), t))
    ensures PcOf(Run(g, s, labels), t) == Ending(RecordsOf(g.codec, s.store), PcOf(s, t))
    decreases Left(PcOf(s, t))
  {
    InvIsGood(g, n, s);
    if Done(PcOf(s, t)) {
      labels := [];
    } else {
      var order := OrderOfKeys(Encoding(g.codec, PcOf(s, t)).Keys);
      assert Enumerates(order, Encoding(g.codec, PcOf(s, t)));
      var l := Go(t, order);
      Progress(g, n, s, t, order);
      GoOnTheWay(g, n, s, t, order);
      StepInv(g, n, Anything(), s, l);
      var rest := CanFinish(g, n, Step(g, s, l), t);
      labels := [l] + rest;
      RunCons(g, s, l, rest);
    }
  }

  /** And it can: some steps of its own take it to the end, with the record it read. */
  lemma AloneFinishes(g: Config, n: nat, s: State, t: Tid, op: Op) returns (labels: seq<Label>)
    requires Inv(g, n, Anything(), s) && FineOp(g.codec, Anything(), op) && PcOf(s, t) == Idle
    ensures By(t, labels) && GoodStore(g.codec, s.store)
    ensures var e := Run(g, s, [Start(t, op)] + labels);
            Done(PcOf(e, t)) && PcOf(e, t) == Final(RecordsOf(g.codec, s.store), op)
  {
    InvIsGood(g, n, s);
    StepInv(g, n, Anything(), s, Start(t, op));
    labels := CanFinish(g, n, Step(g, s, Start(t, op)), t);
    RunCons(g, s, Start(t, op), labels);
    FirstFinishes(RecordsOf(g.codec, s.store), op);
  }
}

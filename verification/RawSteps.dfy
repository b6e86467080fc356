/** The raw driver at the granularity of its RPCs: any number of threads run the workload's
    operations on one table, and every Get, Put, CompareAndSwap and Delete of any thread may
    come between two RPCs of another.  Rows of one table are indexed by record key, since
    the row key "table:key" is injective in the key. */
module RawSteps {
  import opened ByteStrings
  import opened Options
  import opened Rows
  import opened RowCodecs
  import opened RawRows
  import opened DeterministicValues

  type Tid = nat

  /** One operation of the workload.  Batch inserts and batch updates both put rows. */
  datatype Op =
    | Read(key: Bytes, fields: seq<Bytes>)
    | Update(key: Bytes, values: Values)
    | ReadModifyWrite(key: Bytes, fields: seq<Bytes>, values: Values)
    | Insert(key: Bytes, values: Values)
    | Delete(key: Bytes)
    | BatchPut(rows: seq<(Bytes, Values)>)

  /** The thread's rawDBState; `stamp` numbers the fills of all caches. */
  datatype Cache = Empty | Filled(key: Bytes, row: Bytes, stamp: nat)

  /** Where a thread stands.  `check` is the record the workload verifies at the end. */
  datatype Pc =
    | Idle
    | Reading(key: Bytes, fields: seq<Bytes>, write: Option<Values>)            // about to Get
    | Updating(key: Bytes, values: Values, check: Values)                       // about to look at its cache
    | Swapping(key: Bytes, values: Values, prev: Bytes, stamp: nat, check: Values)  // about to CompareAndSwap
    | Getting(key: Bytes, values: Values, check: Values)                        // fallback: about to Get
    | Putting(key: Bytes, values: Values, check: Values)                        // about to Put
    | PuttingBatch(rows: seq<(Bytes, Values)>)                                  // about to put the first
    | Deleting(key: Bytes)
    | Verifying(key: Bytes, check: Values)                                      // about to run verifyRow
    | Mismatch                                                                  // verifyRow was fatal

  /** A write that took effect. */
  datatype Write =
    | Merged(key: Bytes, values: Values)      // a successful CompareAndSwap
    | Replaced(key: Bytes, values: Values)    // a Put
    | Removed(key: Bytes)

  /** `swaps` (stamps of the rows offered to CompareAndSwap) and `log` record history. */
  datatype State = State(
    store: Store, caches: map<Tid, Cache>, pcs: map<Tid, Pc>,
    fills: nat, swaps: seq<nat>, log: seq<Write>)

  datatype Config = Config(codec: RowCodec, casMode: bool, size: nat)

  /** A thread starts an operation, takes its next step (encoding, if it encodes, in
      `order`), sees its RPC fail without effect, or sees it fail after it took effect: the
      write was done and only the reply was lost. */
  datatype Label =
    | Start(t: Tid, op: Op)
    | Go(t: Tid, order: seq<Bytes>)
    | Fail(t: Tid)
    | LoseReply(t: Tid, order: seq<Bytes>)

  function Init(store: Store): State {
    State(store, map[], map[], 0, [], [])
  }

  function PcOf(s: State, t: Tid): Pc {
    if t in s.pcs then s.pcs[t] else Idle
  }

  function CacheOf(s: State, t: Tid): Cache {
    if t in s.caches then s.caches[t] else Empty
  }

  function Goto(s: State, t: Tid, pc: Pc): State {
    s.(pcs := s.pcs[t := pc])
  }

  function FirstPc(op: Op): Pc {
    match op
    case Read(key, fields) => Reading(key, fields, None)
    case Update(key, values) => Updating(key, values, map[])
    case ReadModifyWrite(key, fields, values) => Reading(key, fields, Some(values))
    case Insert(key, values) => Putting(key, values, map[])
    case Delete(key) => Deleting(key)
    case BatchPut(rows) => PuttingBatch(rows)
  }

  function AfterRead(key: Bytes, write: Option<Values>, record: Values): Pc {
    match write
    case None => Verifying(key, record)
    case Some(values) => Updating(key, values, record)
  }

  /** Get, remember the raw row in CAS mode, decode the wanted fields. */
  function ReadStep(g: Config, s: State, t: Tid, pc: Pc): State
    requires pc.Reading?
  {
    if pc.key !in s.store then Goto(s, t, AfterRead(pc.key, pc.write, map[]))
    else
      var row := s.store[pc.key];
      var s1 := if g.casMode
                then s.(caches := s.caches[t := Filled(pc.key, row, s.fills)], fills := s.fills + 1)
                else s;
      match DecodeFields(g.codec, row, pc.fields)
      case Ok(record) => Goto(s1, t, AfterRead(pc.key, pc.write, record))
      case _ => Goto(s1, t, Idle)
  }

  /** Take the cached row for the swap, or fall back. */
  function UpdateStep(g: Config, s: State, t: Tid, pc: Pc): State
    requires pc.Updating?
  {
    var cache := CacheOf(s, t);
    if g.casMode && cache.Filled? && cache.key == pc.key then
      var s1 := s.(caches := s.caches[t := Empty]);
      if DecodeFields(g.codec, cache.row, []).Ok?
      then Goto(s1, t, Swapping(pc.key, pc.values, cache.row, cache.stamp, pc.check))
      else Goto(s1, t, Idle)
    else Goto(s, t, Getting(pc.key, pc.values, pc.check))
  }

  ghost function SwapStep(g: Config, s: State, t: Tid, pc: Pc, order: seq<Bytes>): State
    requires pc.Swapping? && DecodeFields(g.codec, pc.prev, []).Ok?
  {
    var data := Merge(DecodeFields(g.codec, pc.prev, []).value, pc.values);
    if !Enumerates(order, data) then s
    else
      var s1 := s.(swaps := s.swaps + [pc.stamp]);
      if pc.key in s.store && s.store[pc.key] == pc.prev
      then Goto(s1, t, Verifying(pc.key, pc.check)).(
             store := s.store[pc.key := EncodeIn(g.codec, data, order)],
             log := s.log + [Merged(pc.key, pc.values)])
      else Goto(s1, t, Getting(pc.key, pc.values, pc.check))
  }

  function GetStep(g: Config, s: State, t: Tid, pc: Pc): State
    requires pc.Getting?
  {
    match DecodeFields(g.codec, Fetch(s.store, pc.key), [])
    case Ok(data) => Goto(s, t, Putting(pc.key, Merge(data, pc.values), pc.check))
    case _ => Goto(s, t, Idle)
  }

  /** Put one record and go on at `next`. */
  ghost function PutStep(g: Config, s: State, t: Tid, key: Bytes, values: Values, order: seq<Bytes>, next: Pc): State {
    if !Enumerates(order, values) then s
    else Goto(s, t, next).(
           store := s.store[key := EncodeIn(g.codec, values, order)],
           log := s.log + [Replaced(key, values)])
  }

  ghost function GoStep(g: Config, s: State, t: Tid, order: seq<Bytes>): State {
    var pc := PcOf(s, t);
    match pc
    case Idle => s
    case Reading(_, _, _) => ReadStep(g, s, t, pc)
    case Updating(_, _, _) => UpdateStep(g, s, t, pc)
    case Swapping(_, _, prev, _, _) =>
      if DecodeFields(g.codec, prev, []).Ok? then SwapStep(g, s, t, pc, order) else Goto(s, t, Idle)
    case Getting(_, _, _) => GetStep(g, s, t, pc)
    case Putting(key, values, check) => PutStep(g, s, t, key, values, order, Verifying(key, check))
    case PuttingBatch(rows) =>
      if rows == [] then Goto(s, t, Idle)
      else PutStep(g, s, t, rows[0].0, rows[0].1, order, PuttingBatch(rows[1..]))
    case Deleting(key) =>
      Goto(s, t, Idle).(store := s.store - {key}, log := s.log + [Removed(key)])
    case Verifying(key, check) => Goto(s, t, if Intact(key, check, g.size) then Idle else Mismatch)
    case Mismatch => s
  }

  /** About to do an RPC that writes. */
  predicate Writes(pc: Pc) {
    pc.Swapping? || pc.Putting? || pc.PuttingBatch? || pc.Deleting?
  }

  function FailStep(s: State, t: Tid): State {
    if PcOf(s, t) == Mismatch then s else Goto(s, t, Idle)
  }

  ghost function Step(g: Config, s: State, l: Label): State {
    match l
    case Start(t, op) => if PcOf(s, t) == Idle then Goto(s, t, FirstPc(op)) else s
    case Go(t, order) => GoStep(g, s, t, order)
    case Fail(t) => FailStep(s, t)
    case LoseReply(t, order) =>
      if Writes(PcOf(s, t)) then Goto(GoStep(g, s, t, order), t, Idle) else FailStep(s, t)
  }

  ghost function Run(g: Config, s: State, labels: seq<Label>): State
    decreases |labels|
  {
    if labels == [] then s else Run(g, Step(g, s, labels[0]), labels[1..])
  }

  // ---------- Field-wise invariants ----------

  /** A condition on single field values; merging and restricting records keep it. */
  type FieldPred = (Bytes, Bytes, Blob) -> bool

  ghost predicate Fine(c: RowCodec, q: FieldPred, key: Bytes, values: Values) {
    Known(c, values) && forall f :: f in values ==> q(key, f, values[f])
  }

  ghost predicate FineRow(c: RowCodec, q: FieldPred, key: Bytes, row: Bytes) {
    GoodRow(c, row) && Fine(c, q, key, Record(c, row))
  }

  ghost predicate FineRows(c: RowCodec, q: FieldPred, rows: seq<(Bytes, Values)>) {
    forall i :: 0 <= i < |rows| ==> Fine(c, q, rows[i].0, rows[i].1)
  }

  ghost predicate KnownFields(c: RowCodec, fields: seq<Bytes>) {
    forall f :: f in fields ==> f in c.fieldIndices
  }

  ghost predicate FinePc(c: RowCodec, q: FieldPred, pc: Pc) {
    match pc
    case Reading(key, fields, write) => KnownFields(c, fields) && (write.Some? ==> Fine(c, q, key, write.value))
    case Updating(key, values, check) => Fine(c, q, key, values) && Fine(c, q, key, check)
    case Swapping(key, values, prev, _, check) =>
      Fine(c, q, key, values) && FineRow(c, q, key, prev) && Fine(c, q, key, check)
    case Getting(key, values, check) => Fine(c, q, key, values) && Fine(c, q, key, check)
    case Putting(key, values, check) => Fine(c, q, key, values) && Fine(c, q, key, check)
    case PuttingBatch(rows) => FineRows(c, q, rows)
    case Verifying(key, check) => Fine(c, q, key, check)
    case _ => true
  }

  ghost predicate FineCache(c: RowCodec, q: FieldPred, cache: Cache) {
    cache.Filled? ==> FineRow(c, q, cache.key, cache.row)
  }

  ghost predicate FineStore(c: RowCodec, q: FieldPred, store: Store) {
    forall k :: k in store ==> FineRow(c, q, k, store[k])
  }

  ghost predicate FineOp(c: RowCodec, q: FieldPred, op: Op) {
    FinePc(c, q, FirstPc(op))
  }

  ghost predicate FineLabels(c: RowCodec, q: FieldPred, labels: seq<Label>) {
    forall i :: 0 <= i < |labels| && labels[i].Start? ==> FineOp(c, q, labels[i].op)
  }

  ghost predicate Inv(g: Config, n: nat, q: FieldPred, s: State) {
    && IsCodec(g.codec, n)
    && FineStore(g.codec, q, s.store)
    && (forall t :: FineCache(g.codec, q, CacheOf(s, t)))
    && (forall t :: FinePc(g.codec, q, PcOf(s, t)))
  }

  lemma EncodedIsFine(c: RowCodec, n: nat, q: FieldPred, key: Bytes, values: Values, order: seq<Bytes>)
    requires IsCodec(c, n) && Fine(c, q, key, values) && Enumerates(order, values)
    ensures FineRow(c, q, key, EncodeIn(c, values, order)) && Record(c, EncodeIn(c, values, order)) == values
  {
    EncodedRowIsGood(c, n, values, order);
  }

  lemma ReadStepFine(g: Config, n: nat, q: FieldPred, s: State, t: Tid, pc: Pc)
    requires Inv(g, n, q, s) && pc == PcOf(s, t) && pc.Reading?
    ensures FineCache(g.codec, q, CacheOf(ReadStep(g, s, t, pc), t))
    ensures FinePc(g.codec, q, PcOf(ReadStep(g, s, t, pc), t))
  {
    assert FinePc(g.codec, q, pc) && FineCache(g.codec, q, CacheOf(s, t));
    if pc.key in s.store {
      assert FineRow(g.codec, q, pc.key, s.store[pc.key]);
      DecodeSome(g.codec, n, s.store[pc.key], pc.fields);
    }
  }

  lemma UpdateStepFine(g: Config, n: nat, q: FieldPred, s: State, t: Tid, pc: Pc)
    requires Inv(g, n, q, s) && pc == PcOf(s, t) && pc.Updating?
    ensures FineCache(g.codec, q, CacheOf(UpdateStep(g, s, t, pc), t))
    ensures FinePc(g.codec, q, PcOf(UpdateStep(g, s, t, pc), t))
  {
    assert FinePc(g.codec, q, pc) && FineCache(g.codec, q, CacheOf(s, t));
  }

  lemma MergeIsFine(c: RowCodec, q: FieldPred, key: Bytes, record: Values, values: Values)
    requires Fine(c, q, key, record) && Fine(c, q, key, values)
    ensures Fine(c, q, key, Merge(record, values))
  {
  }

  lemma SwapStepFine(g: Config, n: nat, q: FieldPred, s: State, t: Tid, pc: Pc, order: seq<Bytes>)
    requires Inv(g, n, q, s) && pc == PcOf(s, t) && pc.Swapping?
    ensures DecodeFields(g.codec, pc.prev, []).Ok?
    ensures FineStore(g.codec, q, SwapStep(g, s, t, pc, order).store)
    ensures FinePc(g.codec, q, PcOf(SwapStep(g, s, t, pc, order), t))
  {
    assert FinePc(g.codec, q, pc);
    assert FineRow(g.codec, q, pc.key, pc.prev);
    var data := Merge(Record(g.codec, pc.prev), pc.values);
    MergeIsFine(g.codec, q, pc.key, Record(g.codec, pc.prev), pc.values);
    if Enumerates(order, data) {
      EncodedIsFine(g.codec, n, q, pc.key, data, order);
      PutKeepsFine(g.codec, q, s.store, pc.key, EncodeIn(g.codec, data, order));
    }
  }

  lemma PutKeepsFine(c: RowCodec, q: FieldPred, store: Store, key: Bytes, row: Bytes)
    requires FineStore(c, q, store) && FineRow(c, q, key, row)
    ensures FineStore(c, q, store[key := row])
  {
  }

  lemma GetStepFine(g: Config, n: nat, q: FieldPred, s: State, t: Tid, pc: Pc)
    requires Inv(g, n, q, s) && pc == PcOf(s, t) && pc.Getting?
    ensures FinePc(g.codec, q, PcOf(GetStep(g, s, t, pc), t))
  {
    assert FinePc(g.codec, q, pc);
    if pc.key in s.store { assert FineRow(g.codec, q, pc.key, s.store[pc.key]); }
  }

  lemma PutStepFine(g: Config, n: nat, q: FieldPred, s: State, t: Tid, key: Bytes, values: Values,
                    order: seq<Bytes>, next: Pc)
    requires Inv(g, n, q, s) && Fine(g.codec, q, key, values) && FinePc(g.codec, q, next)
    ensures FineStore(g.codec, q, PutStep(g, s, t, key, values, order, next).store)
    ensures FinePc(g.codec, q, PcOf(PutStep(g, s, t, key, values, order, next), t))
  {
    assert FinePc(g.codec, q, PcOf(s, t));
    if Enumerates(order, values) { EncodedIsFine(g.codec, n, q, key, values, order); }
  }

  lemma WriteStepFine(g: Config, n: nat, q: FieldPred, s: State, t: Tid, order: seq<Bytes>)
    requires Inv(g, n, q, s) && Writes(PcOf(s, t))
    ensures var s' := GoStep(g, s, t, order);
            && FineStore(g.codec, q, s'.store)
            && FineCache(g.codec, q, CacheOf(s', t))
            && FinePc(g.codec, q, PcOf(s', t))
  {
    var pc := PcOf(s, t);
    assert FinePc(g.codec, q, pc) && FineCache(g.codec, q, CacheOf(s, t));
    match pc
    case Swapping(_, _, _, _, _) => SwapStepFine(g, n, q, s, t, pc, order);
    case Putting(key, values, check) => PutStepFine(g, n, q, s, t, key, values, order, Verifying(key, check));
    case PuttingBatch(rows) =>
      if rows != [] {
        PutStepFine(g, n, q, s, t, rows[0].0, rows[0].1, order, PuttingBatch(rows[1..]));
      }
    case Deleting(_) =>
  }

  lemma QuietStepFine(g: Config, n: nat, q: FieldPred, s: State, t: Tid, order: seq<Bytes>)
    requires Inv(g, n, q, s) && !Writes(PcOf(s, t))
    ensures FineCache(g.codec, q, CacheOf(GoStep(g, s, t, order), t))
    ensures FinePc(g.codec, q, PcOf(GoStep(g, s, t, order), t))
  {
    var pc := PcOf(s, t);
    if pc.Reading? {
      ReadStepFine(g, n, q, s, t, pc);
    } else if pc.Updating? {
      UpdateStepFine(g, n, q, s, t, pc);
    } else if pc.Getting? {
      GetStepFine(g, n, q, s, t, pc);
      assert FineCache(g.codec, q, CacheOf(s, t));
    } else {
      assert FinePc(g.codec, q, pc) && FineCache(g.codec, q, CacheOf(s, t));
    }
  }

  /** The label lets a write take effect, whether or not the thread learns of it. */
  predicate Commits(s: State, l: Label) {
    (l.Go? || l.LoseReply?) && Writes(PcOf(s, l.t))
  }

  lemma StepKeepsStore(g: Config, s: State, l: Label)
    requires !Commits(s, l)
    ensures Step(g, s, l).store == s.store && Step(g, s, l).log == s.log
  {
  }

  /** What the stepping thread leaves behind is fine. */
  lemma GoStepFine(g: Config, n: nat, q: FieldPred, s: State, t: Tid, order: seq<Bytes>)
    requires Inv(g, n, q, s)
    ensures var s' := GoStep(g, s, t, order);
            && FineStore(g.codec, q, s'.store)
            && FineCache(g.codec, q, CacheOf(s', t))
            && FinePc(g.codec, q, PcOf(s', t))
  {
    if Writes(PcOf(s, t)) {
      WriteStepFine(g, n, q, s, t, order);
    } else {
      QuietStepFine(g, n, q, s, t, order);
      assert !Commits(s, Go(t, order));
      StepKeepsStore(g, s, Go(t, order));
    }
  }

  ghost predicate SameFor(s: State, s': State, u: Tid) {
    PcOf(s', u) == PcOf(s, u) && CacheOf(s', u) == CacheOf(s, u)
  }

  lemma SwapFrame(g: Config, s: State, t: Tid, pc: Pc, order: seq<Bytes>, u: Tid)
    requires u != t && pc.Swapping? && DecodeFields(g.codec, pc.prev, []).Ok?
    ensures SameFor(s, SwapStep(g, s, t, pc, order), u)
  {
  }

  lemma ReadFrame(g: Config, s: State, t: Tid, pc: Pc, u: Tid)
    requires u != t && pc.Reading?
    ensures SameFor(s, ReadStep(g, s, t, pc), u)
  {
  }

  lemma UpdateFrame(g: Config, s: State, t: Tid, pc: Pc, u: Tid)
    requires u != t && pc.Updating?
    ensures SameFor(s, UpdateStep(g, s, t, pc), u)
  {
  }

  lemma GetFrame(g: Config, s: State, t: Tid, pc: Pc, u: Tid)
    requires u != t && pc.Getting?
    ensures SameFor(s, GetStep(g, s, t, pc), u)
  {
  }

  lemma PutFrame(g: Config, s: State, t: Tid, key: Bytes, values: Values, order: seq<Bytes>, next: Pc, u: Tid)
    requires u != t
    ensures SameFor(s, PutStep(g, s, t, key, values, order, next), u)
  {
  }

  lemma GoFrame(g: Config, s: State, t: Tid, order: seq<Bytes>, u: Tid)
    requires u != t
    ensures SameFor(s, GoStep(g, s, t, order), u)
  {
    var pc := PcOf(s, t);
    if pc.Reading? {
      ReadFrame(g, s, t, pc, u);
    } else if pc.Updating? {
      UpdateFrame(g, s, t, pc, u);
    } else if pc.Swapping? {
      if DecodeFields(g.codec, pc.prev, []).Ok? { SwapFrame(g, s, t, pc, order, u); }
    } else if pc.Getting? {
      GetFrame(g, s, t, pc, u);
    } else if pc.Putting? {
      PutFrame(g, s, t, pc.key, pc.values, order, Verifying(pc.key, pc.check), u);
    } else if pc.PuttingBatch? && pc.rows != [] {
      PutFrame(g, s, t, pc.rows[0].0, pc.rows[0].1, order, PuttingBatch(pc.rows[1..]), u);
    }
  }

  /** A step of one thread touches no other thread's position or cache. */
  lemma StepFrame(g: Config, s: State, l: Label, u: Tid)
    requires u != l.t
    ensures SameFor(s, Step(g, s, l), u)
  {
    if l.Go? || l.LoseReply? { GoFrame(g, s, l.t, l.order, u); }
  }

  /** A lost reply is the write, and then a thread that has given up. */
  lemma LostIsGo(g: Config, s: State, l: Label)
    requires l.LoseReply? && Writes(PcOf(s, l.t))
    ensures var s1 := GoStep(g, s, l.t, l.order);
            var s' := Step(g, s, l);
            s' == Goto(s1, l.t, Idle) && s'.store == s1.store && s'.log == s1.log
            && PcOf(s', l.t) == Idle && CacheOf(s', l.t) == CacheOf(s1, l.t)
  {
  }

  /** A thread that gives up without effect only goes back. */
  lemma GiveUp(g: Config, s: State, l: Label)
    requires l.Fail? || (l.LoseReply? && !Writes(PcOf(s, l.t)))
    ensures var s' := Step(g, s, l);
            s'.store == s.store && s'.log == s.log && CacheOf(s', l.t) == CacheOf(s, l.t)
            && (PcOf(s', l.t) == Idle || (PcOf(s, l.t) == Mismatch && s' == s))
  {
  }

  lemma OwnStepFine(g: Config, n: nat, q: FieldPred, s: State, l: Label)
    requires Inv(g, n, q, s) && (l.Start? ==> FineOp(g.codec, q, l.op))
    ensures var s' := Step(g, s, l);
            && FineStore(g.codec, q, s'.store)
            && FineCache(g.codec, q, CacheOf(s', l.t))
            && FinePc(g.codec, q, PcOf(s', l.t))
  {
    assert FinePc(g.codec, q, PcOf(s, l.t)) && FineCache(g.codec, q, CacheOf(s, l.t));
    if l.Go? {
      GoStepFine(g, n, q, s, l.t, l.order);
    } else if l.LoseReply? && Writes(PcOf(s, l.t)) {
      GoStepFine(g, n, q, s, l.t, l.order);
      LostIsGo(g, s, l);
    } else if !l.Start? {
      GiveUp(g, s, l);
    }
  }

  lemma StepInv(g: Config, n: nat, q: FieldPred, s: State, l: Label)
    requires Inv(g, n, q, s) && (l.Start? ==> FineOp(g.codec, q, l.op))
    ensures Inv(g, n, q, Step(g, s, l))
  {
    var s' := Step(g, s, l);
    assert FinePc(g.codec, q, PcOf(s, l.t)) && FineCache(g.codec, q, CacheOf(s, l.t));
    OwnStepFine(g, n, q, s, l);
    forall u ensures FineCache(g.codec, q, CacheOf(s', u)) && FinePc(g.codec, q, PcOf(s', u)) {
      if u != l.t {
        StepFrame(g, s, l, u);
        assert FinePc(g.codec, q, PcOf(s, u)) && FineCache(g.codec, q, CacheOf(s, u));
      }
    }
  }

  lemma {:induction false} RunInv(g: Config, n: nat, q: FieldPred, s: State, labels: seq<Label>)
    requires Inv(g, n, q, s) && FineLabels(g.codec, q, labels)
    ensures Inv(g, n, q, Run(g, s, labels))
    decreases |labels|
  {
    if labels != [] {
      StepInv(g, n, q, s, labels[0]);
      RunInv(g, n, q, Step(g, s, labels[0]), labels[1..]);
    }
  }

  // ---------- Data integrity ----------

  ghost function Deterministic(size: nat): FieldPred {
    (key, field, value) => value == Value(key, field, size)
  }

  lemma FineIsIntact(c: RowCodec, key: Bytes, values: Values, size: nat)
    ensures Fine(c, Deterministic(size), key, values) <==> Known(c, values) && Intact(key, values, size)
  {
    var q := Deterministic(size);
    assert forall f :: f in values ==> (q(key, f, values[f]) <==> values[f] == Value(key, f, size));
  }

  /** A verification of an intact record is not fatal. */
  lemma {:induction false} NeverMismatch(g: Config, n: nat, s: State, labels: seq<Label>)
    requires Inv(g, n, Deterministic(g.size), s) && FineLabels(g.codec, Deterministic(g.size), labels)
    requires forall t :: PcOf(s, t) != Mismatch
    ensures forall t :: PcOf(Run(g, s, labels), t) != Mismatch
    decreases |labels|
  {
    if labels != [] {
      var l := labels[0];
      var q := Deterministic(g.size);
      assert FinePc(g.codec, q, PcOf(s, l.t));
      if PcOf(s, l.t).Verifying? {
        FineIsIntact(g.codec, PcOf(s, l.t).key, PcOf(s, l.t).check, g.size);
      }
      StepNoMismatch(g, s, l);
      StepInv(g, n, q, s, l);
      NeverMismatch(g, n, Step(g, s, l), labels[1..]);
    }
  }

  lemma StepNoMismatch(g: Config, s: State, l: Label)
    requires forall t :: PcOf(s, t) != Mismatch
    requires PcOf(s, l.t).Verifying? ==> Intact(PcOf(s, l.t).key, PcOf(s, l.t).check, g.size)
    ensures forall t :: PcOf(Step(g, s, l), t) != Mismatch
  {
    forall u ensures PcOf(Step(g, s, l), u) != Mismatch {
      if u != l.t {
        StepFrame(g, s, l, u);
      } else if l.LoseReply? && Writes(PcOf(s, u)) {
        LostIsGo(g, s, l);
      }
    }
  }

  /** The operations of a run write intact records over known fields and read known fields. */
  ghost predicate IntactOp(g: Config, op: Op) {
    match op
    case Read(_, fields) => KnownFields(g.codec, fields)
    case Update(key, values) => Known(g.codec, values) && Intact(key, values, g.size)
    case ReadModifyWrite(key, fields, values) =>
      KnownFields(g.codec, fields) && Known(g.codec, values) && Intact(key, values, g.size)
    case Insert(key, values) => Known(g.codec, values) && Intact(key, values, g.size)
    case Delete(_) => true
    case BatchPut(rows) =>
      forall i :: 0 <= i < |rows| ==> Known(g.codec, rows[i].1) && Intact(rows[i].0, rows[i].1, g.size)
  }

  lemma IntactOpIsFine(g: Config, op: Op)
    requires IntactOp(g, op)
    ensures FineOp(g.codec, Deterministic(g.size), op)
  {
    FineIsIntact(g.codec, [], map[], g.size);
    match op
    case Update(key, values) =>
      FineIsIntact(g.codec, key, values, g.size);
      FineIsIntact(g.codec, key, map[], g.size);
    case ReadModifyWrite(key, fields, values) => FineIsIntact(g.codec, key, values, g.size);
    case Insert(key, values) =>
      FineIsIntact(g.codec, key, values, g.size);
      FineIsIntact(g.codec, key, map[], g.size);
    case BatchPut(rows) =>
      forall i | 0 <= i < |rows| ensures Fine(g.codec, Deterministic(g.size), rows[i].0, rows[i].1) {
        FineIsIntact(g.codec, rows[i].0, rows[i].1, g.size);
      }
    case _ =>
  }

  /** From an empty table, in every interleaving of reads, updates (swapped or fallen
      back), read-modify-writes, inserts, deletes and batch writes, with RPC failures
      anywhere: every stored row decodes to a record that holds the deterministic value of
      each of its fields, and no thread ever sees a mismatch. */
  lemma IntegrityHolds(g: Config, n: nat, labels: seq<Label>)
    requires IsCodec(g.codec, n)
    requires forall i :: 0 <= i < |labels| && labels[i].Start? ==> IntactOp(g, labels[i].op)
    ensures var s := Run(g, Init(map[]), labels);
            && (forall k :: k in s.store ==>
                  GoodRow(g.codec, s.store[k]) && Intact(k, Record(g.codec, s.store[k]), g.size))
            && (forall t :: PcOf(s, t) != Mismatch)
  {
    var q := Deterministic(g.size);
    forall i | 0 <= i < |labels| && labels[i].Start? ensures FineOp(g.codec, q, labels[i].op) {
      IntactOpIsFine(g, labels[i].op);
    }
    RunInv(g, n, q, Init(map[]), labels);
    NeverMismatch(g, n, Init(map[]), labels);
    var s := Run(g, Init(map[]), labels);
    forall k | k in s.store ensures GoodRow(g.codec, s.store[k]) && Intact(k, Record(g.codec, s.store[k]), g.size) {
      assert FineRow(g.codec, q, k, s.store[k]);
      FineIsIntact(g.codec, k, Record(g.codec, s.store[k]), g.size);
    }
  }

  // ---------- What commits ----------

  function Apply(t: Table, w: Write): Table {
    match w
    case Merged(key, values) => t[key := Merge(Lookup(t, key), values)]
    case Replaced(key, values) => t[key := values]
    case Removed(key) => t - {key}
  }

  /** The table after the writes of a log, in order. */
  function Replay(t: Table, log: seq<Write>): Table {
    if log == [] then t else Apply(Replay(t, log[..|log| - 1]), log[|log| - 1])
  }

  lemma ReplaySnoc(t: Table, log: seq<Write>, w: Write)
    ensures Replay(t, log + [w]) == Apply(Replay(t, log), w)
  {
    assert (log + [w])[..|log|] == log;
  }

  ghost function Anything(): FieldPred {
    (key, field, value) => true
  }

  /** A successful swap writes the merge of the record in the store at that very step,
      although it was computed from the row this thread read earlier; a failed one writes
      nothing. */
  lemma SwapCommitsMerge(g: Config, n: nat, s: State, t: Tid, order: seq<Bytes>)
    requires Inv(g, n, Anything(), s) && PcOf(s, t).Swapping?
    ensures var pc := PcOf(s, t);
            var s' := GoStep(g, s, t, order);
            && GoodStore(g.codec, s.store) && GoodStore(g.codec, s'.store)
            && (s'.log == s.log ==> s'.store == s.store)
            && (s'.log != s.log ==>
                  && pc.key in s.store && s.store[pc.key] == pc.prev
                  && s'.log == s.log + [Merged(pc.key, pc.values)]
                  && RecordsOf(g.codec, s'.store) ==
                     RecordsOf(g.codec, s.store)[pc.key := Merge(RecordsOf(g.codec, s.store)[pc.key], pc.values)])
  {
    var pc := PcOf(s, t);
    assert FinePc(g.codec, Anything(), pc);
    SwapStepFine(g, n, Anything(), s, t, pc, order);
    var data := Merge(Record(g.codec, pc.prev), pc.values);
    if Enumerates(order, data) && pc.key in s.store && s.store[pc.key] == pc.prev {
      EncodedRowIsGood(g.codec, n, data, order);
      PutRow(g.codec, s.store, pc.key, EncodeIn(g.codec, data, order));
    }
  }

  lemma PutStepLog(g: Config, n: nat, s: State, t: Tid, key: Bytes, values: Values, order: seq<Bytes>, next: Pc)
    requires Inv(g, n, Anything(), s) && Known(g.codec, values)
    ensures var s' := PutStep(g, s, t, key, values, order, next);
            && GoodStore(g.codec, s.store) && GoodStore(g.codec, s'.store)
            && (s'.log == s.log ==> s'.store == s.store)
            && (s'.log != s.log ==>
                  && s'.log == s.log + [Replaced(key, values)]
                  && RecordsOf(g.codec, s'.store) == RecordsOf(g.codec, s.store)[key := values])
  {
    if Enumerates(order, values) {
      EncodedRowIsGood(g.codec, n, values, order);
      PutRow(g.codec, s.store, key, EncodeIn(g.codec, values, order));
    }
  }

  ghost predicate LogInv(g: Config, start: Table, s: State) {
    GoodStore(g.codec, s.store) && RecordsOf(g.codec, s.store) == Replay(start, s.log)
  }

  /** Every write step appends one entry and applies it, or does nothing. */
  lemma WriteStepLog(g: Config, n: nat, s: State, t: Tid, order: seq<Bytes>)
    requires Inv(g, n, Anything(), s) && Writes(PcOf(s, t))
    ensures var s' := GoStep(g, s, t, order);
            && GoodStore(g.codec, s.store) && GoodStore(g.codec, s'.store)
            && (s'.log == s.log ==> s'.store == s.store)
            && (s'.log != s.log ==>
                  && |s'.log| == |s.log| + 1 && s'.log[..|s.log|] == s.log
                  && RecordsOf(g.codec, s'.store) == Apply(RecordsOf(g.codec, s.store), s'.log[|s.log|]))
  {
    var pc := PcOf(s, t);
    assert FinePc(g.codec, Anything(), pc);
    if pc.Swapping? {
      SwapCommitsMerge(g, n, s, t, order);
    } else if pc.Putting? {
      PutStepLog(g, n, s, t, pc.key, pc.values, order, Verifying(pc.key, pc.check));
    } else if pc.PuttingBatch? {
      if pc.rows != [] {
        PutStepLog(g, n, s, t, pc.rows[0].0, pc.rows[0].1, order, PuttingBatch(pc.rows[1..]));
      }
    } else {
      DeleteStepLog(g, n, s, t, pc, order);
    }
  }

  lemma DeleteStepLog(g: Config, n: nat, s: State, t: Tid, pc: Pc, order: seq<Bytes>)
    requires Inv(g, n, Anything(), s) && pc == PcOf(s, t) && pc.Deleting?
    ensures var s' := GoStep(g, s, t, order);
            && GoodStore(g.codec, s.store) && GoodStore(g.codec, s'.store)
            && s'.log == s.log + [Removed(pc.key)]
            && RecordsOf(g.codec, s'.store) == RecordsOf(g.codec, s.store) - {pc.key}
  {
    forall k | k in s.store ensures GoodRow(g.codec, s.store[k]) {
      assert FineRow(g.codec, Anything(), k, s.store[k]);
    }
  }

  lemma StepLog(g: Config, n: nat, start: Table, s: State, l: Label)
    requires Inv(g, n, Anything(), s) && LogInv(g, start, s)
    ensures LogInv(g, start, Step(g, s, l))
  {
    if Commits(s, l) {
      WriteStepLog(g, n, s, l.t, l.order);
      if l.LoseReply? { LostIsGo(g, s, l); }
      var s' := Step(g, s, l);
      if s'.log != s.log {
        assert s'.log == s.log + [s'.log[|s.log|]];
        ReplaySnoc(start, s.log, s'.log[|s.log|]);
      }
    } else {
      StepKeepsStore(g, s, l);
    }
  }

  lemma {:induction false} RunLog(g: Config, n: nat, start: Table, s: State, labels: seq<Label>)
    requires Inv(g, n, Anything(), s) && FineLabels(g.codec, Anything(), labels) && LogInv(g, start, s)
    ensures LogInv(g, start, Run(g, s, labels))
    decreases |labels|
  {
    if labels != [] {
      StepLog(g, n, start, s, labels[0]);
      StepInv(g, n, Anything(), s, labels[0]);
      RunLog(g, n, start, Step(g, s, labels[0]), labels[1..]);
    }
  }

  /** In every interleaving the decoded store is the replay of the writes in commit order,
      where each successful swap counts as a merge into whatever is there. */
  lemma StoreIsReplay(g: Config, n: nat, store: Store, labels: seq<Label>)
    requires IsCodec(g.codec, n) && GoodStore(g.codec, store) && FineLabels(g.codec, Anything(), labels)
    ensures var s := Run(g, Init(store), labels);
            && GoodStore(g.codec, s.store)
            && RecordsOf(g.codec, s.store) == Replay(RecordsOf(g.codec, store), s.log)
  {
    forall k | k in store ensures FineRow(g.codec, Anything(), k, store[k]) {
      RecordIsKnown(g.codec, n, store[k]);
    }
    RunLog(g, n, RecordsOf(g.codec, store), Init(store), labels);
  }

  /** A merge sets its own fields and keeps all others. */
  lemma MergeField(t: Table, w: Write, key: Bytes, f: Bytes)
    requires w.Merged?
    ensures var r := Lookup(Apply(t, w), key);
            if w.key == key && f in w.values then f in r && r[f] == w.values[f]
            else (f in r <==> f in Lookup(t, key)) && (f in r ==> r[f] == Lookup(t, key)[f])
  {
  }

  function FieldOf(r: Values, f: Bytes): Option<Blob> {
    if f in r then Some(r[f]) else None
  }

  /** What the last entry that merges field `f` into `key` wrote, or `initial`. */
  function LastMerged(log: seq<Write>, key: Bytes, f: Bytes, initial: Option<Blob>): Option<Blob> {
    if log == [] then initial
    else
      var w := log[|log| - 1];
      if w.Merged? && w.key == key && f in w.values then Some(w.values[f])
      else LastMerged(log[..|log| - 1], key, f, initial)
  }

  lemma {:induction false} MergesKeepFields(t: Table, log: seq<Write>, key: Bytes, f: Bytes)
    requires forall i :: 0 <= i < |log| ==> log[i].Merged?
    ensures FieldOf(Lookup(Replay(t, log), key), f) == LastMerged(log, key, f, FieldOf(Lookup(t, key), f))
    decreases |log|
  {
    if log != [] {
      var m := |log| - 1;
      MergesKeepFields(t, log[..m], key, f);
      MergeField(Replay(t, log[..m]), log[m], key, f);
    }
  }

  /** In runs where every write commits by a swap, no field is lost: each field of a record
      holds what the last commit that touched it wrote, and its initial value if none did. */
  lemma SwapsLoseNothing(g: Config, n: nat, store: Store, labels: seq<Label>, key: Bytes, f: Bytes)
    requires IsCodec(g.codec, n) && GoodStore(g.codec, store) && FineLabels(g.codec, Anything(), labels)
    requires forall i :: 0 <= i < |Run(g, Init(store), labels).log| ==> Run(g, Init(store), labels).log[i].Merged?
    ensures var s := Run(g, Init(store), labels);
            && GoodStore(g.codec, s.store)
            && FieldOf(Lookup(RecordsOf(g.codec, s.store), key), f) ==
               LastMerged(s.log, key, f, FieldOf(Lookup(RecordsOf(g.codec, store), key), f))
  {
    StoreIsReplay(g, n, store, labels);
    MergesKeepFields(RecordsOf(g.codec, store), Run(g, Init(store), labels).log, key, f);
  }

  lemma RunCons(g: Config, s: State, l: Label, labels: seq<Label>)
    ensures Run(g, s, [l] + labels) == Run(g, Step(g, s, l), labels)
  {
    assert ([l] + labels)[1..] == labels;
  }

  lemma RunPair(g: Config, s: State, a: Label, b: Label, rest: seq<Label>)
    ensures Run(g, s, [a] + ([b] + rest)) == Run(g, Step(g, Step(g, s, a), b), rest)
  {
    RunCons(g, s, a, [b] + rest);
    RunCons(g, Step(g, s, a), b, rest);
  }

  lemma RunFour(g: Config, s: State, a: Label, b: Label, c: Label, d: Label, rest: seq<Label>)
    ensures Run(g, s, [a, b, c, d] + rest) == Run(g, Step(g, Step(g, Step(g, Step(g, s, a), b), c), d), rest)
  {
    var last := [c] + ([d] + rest);
    FourLabels(a, b, c, d, rest);
    RunPair(g, s, a, b, last);
    RunPair(g, Step(g, Step(g, s, a), b), c, d, rest);
  }

  lemma FourLabels(a: Label, b: Label, c: Label, d: Label, rest: seq<Label>)
    ensures [a, b, c, d] + rest == [a] + ([b] + ([c] + ([d] + rest)))
  {
  }

  /** In plain mode an update goes to its fallback read. */
  lemma FallsBack(g: Config, s: State, t: Tid, pc: Pc, order: seq<Bytes>)
    requires pc == PcOf(s, t) && pc.Updating? && !g.casMode
    ensures Step(g, s, Go(t, order)) == Goto(s, t, Getting(pc.key, pc.values, pc.check))
  {
  }

  lemma AbsentDecodes(c: RowCodec, store: Store, key: Bytes)
    requires key !in store
    ensures DecodeFields(c, Fetch(store, key), []) == Ok(map[])
  {
    assert Fetch(store, key) == [];
  }

  /** The fallback read of an absent record starts from the empty record. */
  lemma GetAbsent(g: Config, s: State, t: Tid, pc: Pc)
    requires pc.Getting? && pc.key !in s.store
    ensures GetStep(g, s, t, pc) == Goto(s, t, Putting(pc.key, pc.values, pc.check))
  {
    AbsentDecodes(g.codec, s.store, pc.key);
    assert Merge(map[], pc.values) == pc.values;
  }

  lemma GoIsGet(g: Config, s: State, t: Tid, pc: Pc, order: seq<Bytes>)
    requires pc == PcOf(s, t) && pc.Getting?
    ensures GoStep(g, s, t, order) == GetStep(g, s, t, pc)
  {
  }

  lemma StepIsGet(g: Config, s: State, t: Tid, pc: Pc, order: seq<Bytes>)
    requires pc == PcOf(s, t) && pc.Getting?
    ensures Step(g, s, Go(t, order)) == GetStep(g, s, t, pc)
  {
    GoIsGet(g, s, t, pc, order);
  }

  /** A thread about to put a record puts it. */
  lemma StepIsPut(g: Config, s: State, t: Tid, pc: Pc, order: seq<Bytes>)
    requires pc == PcOf(s, t) && pc.Putting? && Enumerates(order, pc.values)
    ensures Step(g, s, Go(t, order)) == Goto(s, t, Verifying(pc.key, pc.check)).(
              store := s.store[pc.key := EncodeIn(g.codec, pc.values, order)],
              log := s.log + [Replaced(pc.key, pc.values)])
  {
  }

  /** Both threads at the given positions. */
  function BothAt(s: State, t: Tid, u: Tid, pc: Pc, pd: Pc): State {
    s.(pcs := s.pcs[t := pc][u := pd])
  }

  lemma BothFallBack(g: Config, s: State, t: Tid, u: Tid, pc: Pc, pd: Pc, o: seq<Bytes>, p: seq<Bytes>)
    requires t != u && pc.Updating? && pd.Updating? && !g.casMode
    ensures Step(g, Step(g, BothAt(s, t, u, pc, pd), Go(t, o)), Go(u, p))
         == BothAt(s, t, u, Getting(pc.key, pc.values, pc.check), Getting(pd.key, pd.values, pd.check))
  {
    var s1 := BothAt(s, t, u, pc, pd);
    FallsBack(g, s1, t, pc, o);
    FallsBack(g, Step(g, s1, Go(t, o)), u, pd, p);
  }

  lemma BothRead(g: Config, s: State, t: Tid, u: Tid, pc: Pc, pd: Pc, o: seq<Bytes>, p: seq<Bytes>)
    requires t != u && pc.Getting? && pd.Getting? && pc.key !in s.store && pd.key !in s.store
    ensures Step(g, Step(g, BothAt(s, t, u, pc, pd), Go(t, o)), Go(u, p))
         == BothAt(s, t, u, Putting(pc.key, pc.values, pc.check), Putting(pd.key, pd.values, pd.check))
  {
    var s1 := BothAt(s, t, u, pc, pd);
    StepIsGet(g, s1, t, pc, o);
    GetAbsent(g, s1, t, pc);
    var s2 := Step(g, s1, Go(t, o));
    StepIsGet(g, s2, u, pd, p);
    GetAbsent(g, s2, u, pd);
  }

  lemma BothWrite(g: Config, n: nat, s: State, t: Tid, u: Tid, pc: Pc, pd: Pc, o: seq<Bytes>, p: seq<Bytes>)
    requires t != u && pc.Putting? && pd.Putting? && pc.key == pd.key
    requires IsCodec(g.codec, n) && Known(g.codec, pd.values) && Enumerates(o, pc.values) && Enumerates(p, pd.values)
    ensures var e := Step(g, Step(g, BothAt(s, t, u, pc, pd), Go(t, o)), Go(u, p));
            && PcOf(e, t) == Verifying(pc.key, pc.check) && PcOf(e, u) == Verifying(pd.key, pd.check)
            && e.log == s.log + [Replaced(pc.key, pc.values), Replaced(pc.key, pd.values)]
            && pc.key in e.store && GoodRow(g.codec, e.store[pc.key]) && Record(g.codec, e.store[pc.key]) == pd.values
  {
    var s1 := BothAt(s, t, u, pc, pd);
    StepIsPut(g, s1, t, pc, o);
    StepIsPut(g, Step(g, s1, Go(t, o)), u, pd, p);
    EncodedRowIsGood(g.codec, n, pd.values, p);
  }

  /** The fallback can lose fields: from any state in which two threads are about to update
      the same absent record in plain mode, both may read before either writes; then both
      complete, and only the second one's values are left. */
  lemma FallbackMayLoseFields(g: Config, n: nat, s: State, t: Tid, u: Tid, pc: Pc, pd: Pc, o: seq<Bytes>, p: seq<Bytes>)
    requires t != u && pc.Updating? && pd.Updating? && pc.key == pd.key && pc.key !in s.store
    requires IsCodec(g.codec, n) && !g.casMode && Known(g.codec, pd.values)
    requires Enumerates(o, pc.values) && Enumerates(p, pd.values)
    ensures var labels := [Go(t, o), Go(u, p), Go(t, o), Go(u, p)] + [Go(t, o), Go(u, p)];
            var e := Run(g, BothAt(s, t, u, pc, pd), labels);
            && PcOf(e, t) == Verifying(pc.key, pc.check) && PcOf(e, u) == Verifying(pd.key, pd.check)
            && e.log == s.log + [Replaced(pc.key, pc.values), Replaced(pc.key, pd.values)]
            && pc.key in e.store && GoodRow(g.codec, e.store[pc.key]) && Record(g.codec, e.store[pc.key]) == pd.values
  {
    var pc1, pd1 := Getting(pc.key, pc.values, pc.check), Getting(pd.key, pd.values, pd.check);
    var pc2, pd2 := Putting(pc.key, pc.values, pc.check), Putting(pd.key, pd.values, pd.check);
    BothFallBack(g, s, t, u, pc, pd, o, p);
    BothRead(g, s, t, u, pc1, pd1, o, p);
    BothWrite(g, n, s, t, u, pc2, pd2, o, p);
    RunFour(g, BothAt(s, t, u, pc, pd), Go(t, o), Go(u, p), Go(t, o), Go(u, p), [Go(t, o), Go(u, p)]);
    RunTwo(g, BothAt(s, t, u, pc2, pd2), Go(t, o), Go(u, p));
  }

  lemma RunTwo(g: Config, s: State, a: Label, b: Label)
    ensures Run(g, s, [a, b]) == Step(g, Step(g, s, a), b)
  {
    assert [a, b] == [a] + ([b] + []);
    RunCons(g, s, a, [b] + []);
    RunCons(g, Step(g, s, a), b, []);
  }

  // ---------- A cached row is swapped at most once ----------

  /** The stamp in a thread's cache, -1 if it is empty. */
  function CacheStamp(s: State, t: Tid): int {
    if CacheOf(s, t).Filled? then CacheOf(s, t).stamp else -1
  }

  /** The stamp of the row a thread is about to swap, -1 if it is not. */
  function SwapStamp(s: State, t: Tid): int {
    if PcOf(s, t).Swapping? then PcOf(s, t).stamp else -1
  }

  ghost predicate Unspent(s: State, x: int) {
    -1 <= x < s.fills && x !in s.swaps
  }

  /** A fill is in one cache, or in one pending swap, or spent, and never in two of these. */
  ghost predicate StampInv(s: State) {
    && (forall i :: 0 <= i < |s.swaps| ==> s.swaps[i] < s.fills)
    && (forall i, j :: 0 <= i < j < |s.swaps| ==> s.swaps[i] != s.swaps[j])
    && (forall t :: Unspent(s, CacheStamp(s, t)))
    && (forall t :: Unspent(s, SwapStamp(s, t)))
    && (forall t, u :: CacheStamp(s, t) == CacheStamp(s, u) ==> t == u || CacheStamp(s, t) == -1)
    && (forall t, u :: SwapStamp(s, t) == SwapStamp(s, u) ==> t == u || SwapStamp(s, t) == -1)
    && (forall t, u :: CacheStamp(s, t) == SwapStamp(s, u) ==> CacheStamp(s, t) == -1)
  }

  ghost predicate OthersSame(s: State, s': State, t: Tid) {
    && (forall u :: u != t ==> CacheStamp(s', u) == CacheStamp(s, u))
    && (forall u :: u != t ==> SwapStamp(s', u) == SwapStamp(s, u))
  }

  /** The thread fills its cache with a new stamp. */
  ghost predicate Fills(s: State, s': State, t: Tid) {
    s'.fills == s.fills + 1 && s'.swaps == s.swaps && CacheStamp(s', t) == s.fills && SwapStamp(s', t) == -1
  }

  /** It empties its cache, and perhaps moves the stamp to its swap. */
  ghost predicate Takes(s: State, s': State, t: Tid) {
    && s'.fills == s.fills && s'.swaps == s.swaps && CacheStamp(s', t) == -1
    && (SwapStamp(s', t) == -1 || SwapStamp(s', t) == CacheStamp(s, t))
  }

  /** It spends the stamp of its swap. */
  ghost predicate Spends(s: State, s': State, t: Tid) {
    && s'.fills == s.fills && 0 <= SwapStamp(s, t) && s'.swaps == s.swaps + [SwapStamp(s, t)]
    && CacheStamp(s', t) == CacheStamp(s, t) && SwapStamp(s', t) == -1
  }

  /** It keeps what it holds, or drops its swap. */
  ghost predicate Keeps(s: State, s': State, t: Tid) {
    && s'.fills == s.fills && s'.swaps == s.swaps && CacheStamp(s', t) == CacheStamp(s, t)
    && (SwapStamp(s', t) == -1 || SwapStamp(s', t) == SwapStamp(s, t))
  }

  ghost predicate StampMove(s: State, s': State, t: Tid) {
    Fills(s, s', t) || Takes(s, s', t) || Spends(s, s', t) || Keeps(s, s', t)
  }

  lemma ReadMove(g: Config, s: State, t: Tid, pc: Pc)
    requires pc == PcOf(s, t) && pc.Reading?
    ensures StampMove(s, ReadStep(g, s, t, pc), t)
  {
  }

  lemma UpdateMove(g: Config, s: State, t: Tid, pc: Pc)
    requires pc == PcOf(s, t) && pc.Updating?
    ensures StampMove(s, UpdateStep(g, s, t, pc), t)
  {
  }

  lemma SwapMove(g: Config, s: State, t: Tid, pc: Pc, order: seq<Bytes>)
    requires pc == PcOf(s, t) && pc.Swapping? && DecodeFields(g.codec, pc.prev, []).Ok?
    ensures StampMove(s, SwapStep(g, s, t, pc, order), t)
  {
  }

  lemma GetMove(g: Config, s: State, t: Tid, pc: Pc)
    requires pc == PcOf(s, t) && pc.Getting?
    ensures StampMove(s, GetStep(g, s, t, pc), t)
  {
  }

  lemma PutMove(g: Config, s: State, t: Tid, key: Bytes, values: Values, order: seq<Bytes>, next: Pc)
    requires !PcOf(s, t).Swapping? && !next.Swapping?
    ensures StampMove(s, PutStep(g, s, t, key, values, order, next), t)
  {
  }

  lemma GoIsStampMove(g: Config, s: State, t: Tid, order: seq<Bytes>)
    ensures StampMove(s, GoStep(g, s, t, order), t)
  {
    var pc := PcOf(s, t);
    if pc.Reading? {
      ReadMove(g, s, t, pc);
    } else if pc.Updating? {
      UpdateMove(g, s, t, pc);
    } else if pc.Swapping? {
      if DecodeFields(g.codec, pc.prev, []).Ok? { SwapMove(g, s, t, pc, order); }
    } else if pc.Getting? {
      GetMove(g, s, t, pc);
    } else if pc.Putting? {
      PutMove(g, s, t, pc.key, pc.values, order, Verifying(pc.key, pc.check));
    } else if pc.PuttingBatch? && pc.rows != [] {
      PutMove(g, s, t, pc.rows[0].0, pc.rows[0].1, order, PuttingBatch(pc.rows[1..]));
    }
  }

  /** Giving up afterwards drops at most the swap. */
  lemma StepIsStampMove(g: Config, s: State, l: Label)
    ensures StampMove(s, Step(g, s, l), l.t)
  {
    if l.Go? {
      GoIsStampMove(g, s, l.t, l.order);
    } else if l.LoseReply? && Writes(PcOf(s, l.t)) {
      LostIsGo(g, s, l);
      GoIsStampMove(g, s, l.t, l.order);
      DropKeepsMove(s, GoStep(g, s, l.t, l.order), l.t);
    } else {
      assert Keeps(s, Step(g, s, l), l.t);
    }
  }

  lemma DropKeepsMove(s: State, s1: State, t: Tid)
    requires StampMove(s, s1, t)
    ensures StampMove(s, Goto(s1, t, Idle), t)
  {
  }

  lemma FillKeepsStamps(s: State, s': State, t: Tid)
    requires StampInv(s) && OthersSame(s, s', t) && Fills(s, s', t)
    ensures StampInv(s')
  {
    assert Unspent(s, CacheStamp(s, t)) && Unspent(s, SwapStamp(s, t));
    forall u | u != t ensures Unspent(s, CacheStamp(s', u)) && Unspent(s, SwapStamp(s', u)) {
      assert Unspent(s, CacheStamp(s, u)) && Unspent(s, SwapStamp(s, u));
    }
  }

  lemma TakeKeepsStamps(s: State, s': State, t: Tid)
    requires StampInv(s) && OthersSame(s, s', t) && Takes(s, s', t)
    ensures StampInv(s')
  {
    assert Unspent(s, CacheStamp(s, t)) && Unspent(s, SwapStamp(s, t));
    forall u | u != t ensures Unspent(s, CacheStamp(s', u)) && Unspent(s, SwapStamp(s', u)) {
      assert Unspent(s, CacheStamp(s, u)) && Unspent(s, SwapStamp(s, u));
    }
  }

  lemma SpendKeepsStamps(s: State, s': State, t: Tid)
    requires StampInv(s) && OthersSame(s, s', t) && Spends(s, s', t)
    ensures StampInv(s')
  {
    assert Unspent(s, CacheStamp(s, t)) && Unspent(s, SwapStamp(s, t));
    forall u | u != t ensures Unspent(s', CacheStamp(s', u)) && Unspent(s', SwapStamp(s', u)) {
      assert Unspent(s, CacheStamp(s, u)) && Unspent(s, SwapStamp(s, u));
    }
  }

  lemma KeepKeepsStamps(s: State, s': State, t: Tid)
    requires StampInv(s) && OthersSame(s, s', t) && Keeps(s, s', t)
    ensures StampInv(s')
  {
    assert Unspent(s, CacheStamp(s, t)) && Unspent(s, SwapStamp(s, t));
    forall u | u != t ensures Unspent(s, CacheStamp(s', u)) && Unspent(s, SwapStamp(s', u)) {
      assert Unspent(s, CacheStamp(s, u)) && Unspent(s, SwapStamp(s, u));
    }
  }

  lemma StepStamps(g: Config, s: State, l: Label)
    requires StampInv(s)
    ensures StampInv(Step(g, s, l))
  {
    var s' := Step(g, s, l);
    forall u | u != l.t
      ensures CacheStamp(s', u) == CacheStamp(s, u) && SwapStamp(s', u) == SwapStamp(s, u)
    {
      StepFrame(g, s, l, u);
    }
    StepIsStampMove(g, s, l);
    if Fills(s, s', l.t) {
      FillKeepsStamps(s, s', l.t);
    } else if Takes(s, s', l.t) {
      TakeKeepsStamps(s, s', l.t);
    } else if Spends(s, s', l.t) {
      SpendKeepsStamps(s, s', l.t);
    } else {
      KeepKeepsStamps(s, s', l.t);
    }
  }

  lemma {:induction false} RunStamps(g: Config, s: State, labels: seq<Label>)
    requires StampInv(s)
    ensures StampInv(Run(g, s, labels))
    decreases |labels|
  {
    if labels != [] {
      StepStamps(g, s, labels[0]);
      RunStamps(g, Step(g, s, labels[0]), labels[1..]);
    }
  }

  /** In every run, no two swaps offer the row of the same read. */
  lemma EachReadSwapsOnce(g: Config, store: Store, labels: seq<Label>)
    ensures var s := Run(g, Init(store), labels);
            forall i, j :: 0 <= i < j < |s.swaps| ==> s.swaps[i] != s.swaps[j]
  {
    RunStamps(g, Init(store), labels);
  }
}

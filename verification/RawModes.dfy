/** The two update paths of the raw driver under interference: exactly when the get-put
    fallback loses nothing, and CAS mode as a refinement of the plain mode. */
module RawModes {
  import opened ByteStrings
  import opened Options
  import opened RowCodecs
  import opened RawRows
  import opened RawSteps
  import opened RawAlone

  lemma {:induction false} RunConcat(g: Config, s: State, a: seq<Label>, b: seq<Label>)
    ensures Run(g, s, a + b) == Run(g, Run(g, s, a), b)
    decreases |a|
  {
    if a == [] {
      assert a + b == b;
    } else {
      assert (a + b)[1..] == a[1..] + b;
      RunConcat(g, Step(g, s, a[0]), a[1..], b);
    }
  }

  lemma RunOne(g: Config, s: State, l: Label)
    ensures Run(g, s, [l]) == Step(g, s, l)
  {
    RunCons(g, s, l, []);
    assert [l] + [] == [l];
  }

  // ---------- When the fallback loses nothing ----------

  ghost predicate Without(t: Tid, labels: seq<Label>) {
    forall i :: 0 <= i < |labels| ==> labels[i].t != t
  }

  /** Steps of other threads leave a thread's position and cache alone. */
  lemma {:induction false} OthersKeep(g: Config, s: State, labels: seq<Label>, t: Tid)
    requires Without(t, labels)
    ensures SameFor(s, Run(g, s, labels), t)
    decreases |labels|
  {
    if labels != [] {
      StepFrame(g, s, labels[0], t);
      OthersKeep(g, Step(g, s, labels[0]), labels[1..], t);
    }
  }

  /** The record agrees with the one read earlier on all fields that are not written. */
  ghost predicate UnwrittenAgree(read: Values, now: Values, values: Values) {
    forall f :: f !in values ==> FieldOf(now, f) == FieldOf(read, f)
  }

  lemma MergesAgreeIff(read: Values, now: Values, values: Values)
    ensures Merge(read, values) == Merge(now, values) <==> UnwrittenAgree(read, now, values)
  {
    var a, b := Merge(read, values), Merge(now, values);
    if a == b {
      forall f | f !in values ensures FieldOf(now, f) == FieldOf(read, f) {
        assert FieldOf(a, f) == FieldOf(read, f) && FieldOf(b, f) == FieldOf(now, f);
      }
    }
    if UnwrittenAgree(read, now, values) {
      forall f ensures FieldOf(a, f) == FieldOf(b, f) {
        assert f !in values ==> FieldOf(now, f) == FieldOf(read, f);
      }
      SameFields(a, b);
    }
  }

  lemma SameFields(a: Values, b: Values)
    requires forall f :: FieldOf(a, f) == FieldOf(b, f)
    ensures a == b
  {
    assert forall f :: f in a <==> FieldOf(a, f).Some?;
    assert forall f :: f in b <==> FieldOf(b, f).Some?;
    assert forall f :: f in a ==> FieldOf(a, f) == Some(a[f]);
    assert forall f :: f in b ==> FieldOf(b, f) == Some(b[f]);
  }

  /** What the put of a fallback leaves, from the record its get has read. */
  lemma FallbackPuts(g: Config, n: nat, s: State, t: Tid, pc: Pc, o: seq<Bytes>, others: seq<Label>, order: seq<Bytes>)
    requires Inv(g, n, Anything(), s) && pc == PcOf(s, t) && pc.Getting?
    requires FineLabels(g.codec, Anything(), others) && Without(t, others) && GoodStore(g.codec, s.store)
    requires Enumerates(order, Merge(Lookup(RecordsOf(g.codec, s.store), pc.key), pc.values))
    ensures var mid := Run(g, Step(g, s, Go(t, o)), others);
            var e := Step(g, mid, Go(t, order));
            && GoodStore(g.codec, mid.store) && GoodStore(g.codec, e.store)
            && PcOf(e, t) == Verifying(pc.key, pc.check)
            && RecordsOf(g.codec, e.store) == RecordsOf(g.codec, mid.store)[
                 pc.key := Merge(Lookup(RecordsOf(g.codec, s.store), pc.key), pc.values)]
  {
    var data := Merge(Lookup(RecordsOf(g.codec, s.store), pc.key), pc.values);
    var s1 := Step(g, s, Go(t, o));
    GetLands(g, n, s, t, pc, o);
    StepInv(g, n, Anything(), s, Go(t, o));
    var mid := Run(g, s1, others);
    RunInv(g, n, Anything(), s1, others);
    OthersKeep(g, s1, others, t);
    assert PcOf(mid, t) == Putting(pc.key, data, pc.check);
    assert FinePc(g.codec, Anything(), PcOf(mid, t));
    PutLands(g, n, mid, t, pc.key, data, order, Verifying(pc.key, pc.check));
  }

  /** A fallback update, with any steps of other threads between its get and its put, merges
      its values into the record in the store at the put if and only if the fields it does
      not write are still as its get has read them.  Any other change of the record since
      then is undone. */
  lemma FallbackMergesIff(g: Config, n: nat, s: State, t: Tid, o: seq<Bytes>, others: seq<Label>, order: seq<Bytes>)
    requires Inv(g, n, Anything(), s) && PcOf(s, t).Getting?
    requires FineLabels(g.codec, Anything(), others) && Without(t, others) && GoodStore(g.codec, s.store)
    requires Enumerates(order, Merge(Lookup(RecordsOf(g.codec, s.store), PcOf(s, t).key), PcOf(s, t).values))
    ensures var key, values := PcOf(s, t).key, PcOf(s, t).values;
            var mid := Run(g, s, [Go(t, o)] + others);
            var e := Run(g, s, [Go(t, o)] + others + [Go(t, order)]);
            && GoodStore(g.codec, mid.store) && GoodStore(g.codec, e.store)
            && PcOf(e, t) == Verifying(key, PcOf(s, t).check)
            && var read, now := RecordsOf(g.codec, s.store), RecordsOf(g.codec, mid.store);
               && RecordsOf(g.codec, e.store) == now[key := Merge(Lookup(read, key), values)]
               && (RecordsOf(g.codec, e.store) == MergeInto(now, key, values) <==>
                   UnwrittenAgree(Lookup(read, key), Lookup(now, key), values))
  {
    var pc := PcOf(s, t);
    FallbackPuts(g, n, s, t, pc, o, others, order);
    RunCons(g, s, Go(t, o), others);
    RunConcat(g, s, [Go(t, o)] + others, [Go(t, order)]);
    var mid := Run(g, s, [Go(t, o)] + others);
    RunOne(g, mid, Go(t, order));
    var read, now := Lookup(RecordsOf(g.codec, s.store), pc.key), Lookup(RecordsOf(g.codec, mid.store), pc.key);
    MergesAgreeIff(read, now, pc.values);
    PutsAgreeIff(RecordsOf(g.codec, mid.store), pc.key, Merge(read, pc.values), Merge(now, pc.values));
  }

  lemma PutsAgreeIff(t: Table, key: Bytes, a: Values, b: Values)
    ensures t[key := a] == t[key := b] <==> a == b
  {
    assert t[key := a][key] == a && t[key := b][key] == b;
  }

  // ---------- When a read-modify-write swaps ----------

  /** No write of the run from `s` to `e` names `key`. */
  ghost predicate NotWritten(s: State, e: State, key: Bytes) {
    |s.log| <= |e.log| && forall i :: |s.log| <= i < |e.log| ==> e.log[i].key != key
  }

  lemma StepExtendsLog(g: Config, n: nat, s: State, l: Label, key: Bytes)
    requires Inv(g, n, Anything(), s)
    ensures var s' := Step(g, s, l);
            && |s.log| <= |s'.log| && s'.log[..|s.log|] == s.log
            && (NotWritten(s, s', key) ==> Fetch(s'.store, key) == Fetch(s.store, key))
  {
    if Commits(s, l) {
      if l.LoseReply? { LostIsGo(g, s, l); }
      WriteTouchesKey(g, n, s, l.t, l.order, key);
    } else {
      StepKeepsStore(g, s, l);
    }
  }

  /** A write changes the row of the key it logs and no other. */
  lemma WriteTouchesKey(g: Config, n: nat, s: State, t: Tid, order: seq<Bytes>, key: Bytes)
    requires Inv(g, n, Anything(), s) && Writes(PcOf(s, t))
    ensures var s' := GoStep(g, s, t, order);
            && |s.log| <= |s'.log| && s'.log[..|s.log|] == s.log
            && (NotWritten(s, s', key) ==> Fetch(s'.store, key) == Fetch(s.store, key))
  {
    var pc := PcOf(s, t);
    assert FinePc(g.codec, Anything(), pc);
    match pc
    case Swapping(_, _, _, _, _) => SwapTouchesKey(g, s, t, pc, order, key);
    case Putting(k, values, check) => PutTouchesKey(g, s, t, k, values, order, Verifying(k, check), key);
    case PuttingBatch(rows) =>
      if rows != [] { PutTouchesKey(g, s, t, rows[0].0, rows[0].1, order, PuttingBatch(rows[1..]), key); }
    case Deleting(k) => assert (s.log + [Removed(k)])[|s.log|].key == k;
  }

  lemma SwapTouchesKey(g: Config, s: State, t: Tid, pc: Pc, order: seq<Bytes>, key: Bytes)
    requires pc.Swapping? && DecodeFields(g.codec, pc.prev, []).Ok?
    ensures var s' := SwapStep(g, s, t, pc, order);
            && |s.log| <= |s'.log| && s'.log[..|s.log|] == s.log
            && (NotWritten(s, s', key) ==> Fetch(s'.store, key) == Fetch(s.store, key))
  {
    assert (s.log + [Merged(pc.key, pc.values)])[|s.log|].key == pc.key;
  }

  lemma PutTouchesKey(g: Config, s: State, t: Tid, k: Bytes, values: Values, order: seq<Bytes>, next: Pc, key: Bytes)
    ensures var s' := PutStep(g, s, t, k, values, order, next);
            && |s.log| <= |s'.log| && s'.log[..|s.log|] == s.log
            && (NotWritten(s, s', key) ==> Fetch(s'.store, key) == Fetch(s.store, key))
  {
    assert (s.log + [Replaced(k, values)])[|s.log|].key == k;
  }

  lemma {:induction false} RunKeepsRow(g: Config, n: nat, s: State, labels: seq<Label>, key: Bytes)
    requires Inv(g, n, Anything(), s) && FineLabels(g.codec, Anything(), labels)
    ensures var e := Run(g, s, labels);
            && |s.log| <= |e.log| && e.log[..|s.log|] == s.log
            && (NotWritten(s, e, key) ==> Fetch(e.store, key) == Fetch(s.store, key))
    decreases |labels|
  {
    if labels != [] {
      var s1 := Step(g, s, labels[0]);
      StepExtendsLog(g, n, s, labels[0], key);
      StepInv(g, n, Anything(), s, labels[0]);
      RunKeepsRow(g, n, s1, labels[1..], key);
      var e := Run(g, s1, labels[1..]);
      assert forall i :: 0 <= i < |s1.log| ==> e.log[i] == e.log[..|s1.log|][i];
    }
  }

  /** Two steps after it was about to read a stored record, whatever others do in between,
      a read-modify-write in CAS mode stands before a swap of the row it has read. */
  lemma ReadLeadsToSwap(g: Config, n: nat, s: State, t: Tid, pc: Pc, o: seq<Bytes>, others: seq<Label>, p: seq<Bytes>)
    requires Inv(g, n, Anything(), s) && pc == PcOf(s, t) && pc.Reading? && pc.write.Some?
    requires g.casMode && pc.key in s.store && FineLabels(g.codec, Anything(), others) && Without(t, others)
    ensures var mid := Run(g, Step(g, s, Go(t, o)), others);
            var e := Step(g, mid, Go(t, p));
            && Inv(g, n, Anything(), e) && e.store == mid.store && e.log == mid.log
            && PcOf(e, t).Swapping? && PcOf(e, t).key == pc.key && PcOf(e, t).values == pc.write.value
            && PcOf(e, t).prev == s.store[pc.key]
  {
    var s1 := Step(g, s, Go(t, o));
    ReadLands(g, n, s, t, pc, o);
    ReadCaches(g, n, s, t, pc, o);
    StepInv(g, n, Anything(), s, Go(t, o));
    var mid := Run(g, s1, others);
    RunInv(g, n, Anything(), s1, others);
    OthersKeep(g, s1, others, t);
    UpdateOffers(g, n, mid, t, PcOf(mid, t), p);
    StepInv(g, n, Anything(), mid, Go(t, p));
  }

  /** Under interference: if no other thread writes the record between the read and the
      swap, the read-modify-write commits one merge of its values and puts nothing; if the
      row has changed, it commits nothing and goes on to its fallback. */
  lemma ReadModifyWriteSwapsIff(g: Config, n: nat, s: State, t: Tid, pc: Pc, o: seq<Bytes>, first: seq<Label>,
                                p: seq<Bytes>, second: seq<Label>, order: seq<Bytes>)
    requires Inv(g, n, Anything(), s) && pc == PcOf(s, t) && pc.Reading? && pc.write.Some?
    requires g.casMode && pc.key in s.store
    requires FineLabels(g.codec, Anything(), first) && Without(t, first)
    requires FineLabels(g.codec, Anything(), second) && Without(t, second)
    requires GoodRow(g.codec, s.store[pc.key])
    requires Enumerates(order, Merge(Record(g.codec, s.store[pc.key]), pc.write.value))
    ensures var read := Step(g, Run(g, Step(g, s, Go(t, o)), first), Go(t, p));
            var before := Run(g, read, second);
            var e := Step(g, before, Go(t, order));
            && (NotWritten(s, before, pc.key) ==> Fetch(before.store, pc.key) == s.store[pc.key])
            && if Fetch(before.store, pc.key) == s.store[pc.key]
               then e.log == before.log + [Merged(pc.key, pc.write.value)] && PcOf(e, t).Verifying?
               else e.log == before.log && e.store == before.store && PcOf(e, t).Getting?
  {
    var s1 := Step(g, s, Go(t, o));
    var mid := Run(g, s1, first);
    var read := Step(g, mid, Go(t, p));
    var before := Run(g, read, second);
    ReadLeadsToSwap(g, n, s, t, pc, o, first, p);
    RunInv(g, n, Anything(), read, second);
    OthersKeep(g, read, second, t);
    SwapSucceedsIff(g, n, before, t, PcOf(before, t), order);
    ReadLands(g, n, s, t, pc, o);
    ReadCaches(g, n, s, t, pc, o);
    StepInv(g, n, Anything(), s, Go(t, o));
    RunKeepsRow(g, n, s1, first, pc.key);
    RunKeepsRow(g, n, read, second, pc.key);
    RowsUnwritten(s, mid, read, before, pc.key);
  }

  lemma RowsUnwritten(s: State, mid: State, read: State, before: State, key: Bytes)
    requires |s.log| <= |mid.log| && read.log == mid.log && read.store == mid.store
    requires |read.log| <= |before.log| && before.log[..|read.log|] == read.log
    requires NotWritten(s, mid, key) ==> Fetch(mid.store, key) == Fetch(s.store, key)
    requires NotWritten(read, before, key) ==> Fetch(before.store, key) == Fetch(read.store, key)
    ensures NotWritten(s, before, key) ==> Fetch(before.store, key) == Fetch(s.store, key)
  {
    assert forall i :: 0 <= i < |read.log| ==> read.log[i] == before.log[i];
  }

  // ---------- CAS mode refines the plain mode ----------

  function Plain(g: Config): Config {
    g.(casMode := false)
  }

  /** A thread about to swap stands for one about to get. */
  ghost predicate StandsFor(pc: Pc, plain: Pc) {
    if pc.Swapping? then plain == Getting(pc.key, pc.values, pc.check) else plain == pc
  }

  /** The same store, byte for byte, and every thread of `s` standing for that of `p`. */
  ghost predicate Matches(s: State, p: State) {
    p.store == s.store && forall t :: StandsFor(PcOf(s, t), PcOf(p, t))
  }

  /** What can be seen of a run: operations issued, failures, lost replies, and records
      verified. */
  datatype Event = Issued(l: Label) | Verified(t: Tid, key: Bytes, check: Values)

  ghost function EventsOf(s: State, l: Label): seq<Event> {
    if !l.Go? then [Issued(l)]
    else if PcOf(s, l.t).Verifying? then [Verified(l.t, PcOf(s, l.t).key, PcOf(s, l.t).check)]
    else []
  }

  ghost function Events(g: Config, s: State, labels: seq<Label>): seq<Event>
    decreases |labels|
  {
    if labels == [] then [] else EventsOf(s, labels[0]) + Events(g, Step(g, s, labels[0]), labels[1..])
  }

  lemma {:induction false} EventsConcat(g: Config, s: State, a: seq<Label>, b: seq<Label>)
    ensures Events(g, s, a + b) == Events(g, s, a) + Events(g, Run(g, s, a), b)
    decreases |a|
  {
    if a == [] {
      assert a + b == b;
    } else {
      assert (a + b)[1..] == a[1..] + b;
      EventsConcat(g, Step(g, s, a[0]), a[1..], b);
    }
  }

  /** The stepping thread of the two runs stays matched. */
  ghost predicate OwnMatch(s: State, p: State, t: Tid) {
    p.store == s.store && StandsFor(PcOf(s, t), PcOf(p, t))
  }

  lemma ReadMatches(g: Config, n: nat, s: State, p: State, t: Tid, order: seq<Bytes>)
    requires Inv(g, n, Anything(), s) && Matches(s, p) && PcOf(s, t).Reading?
    ensures OwnMatch(Step(g, s, Go(t, order)), Step(Plain(g), p, Go(t, order)), t)
  {
    assert StandsFor(PcOf(s, t), PcOf(p, t));
    ReadLands(g, n, s, t, PcOf(s, t), order);
  }

  lemma UpdateMatches(g: Config, n: nat, s: State, p: State, t: Tid, order: seq<Bytes>)
    requires Inv(g, n, Anything(), s) && Matches(s, p) && PcOf(s, t).Updating?
    ensures OwnMatch(Step(g, s, Go(t, order)), Step(Plain(g), p, Go(t, order)), t)
  {
    assert StandsFor(PcOf(s, t), PcOf(p, t));
    UpdateLands(g, n, s, t, PcOf(s, t), order);
    FallsBack(Plain(g), p, t, PcOf(p, t), order);
  }

  /** Gets, puts, deletes and verifications do the same in both modes. */
  lemma SameMatches(g: Config, s: State, p: State, t: Tid, order: seq<Bytes>)
    requires Matches(s, p) && !PcOf(s, t).Reading? && !PcOf(s, t).Updating? && !PcOf(s, t).Swapping?
    ensures OwnMatch(Step(g, s, Go(t, order)), Step(Plain(g), p, Go(t, order)), t)
  {
    assert StandsFor(PcOf(s, t), PcOf(p, t));
  }

  /** A get and a put in a row do what a successful swap does. */
  lemma SwapMatches(g: Config, n: nat, s: State, p: State, t: Tid, pc: Pc, order: seq<Bytes>)
    requires Inv(g, n, Anything(), s) && Matches(s, p) && pc == PcOf(s, t) && pc.Swapping?
    requires Step(g, s, Go(t, order)).log != s.log
    ensures var p1 := Step(Plain(g), p, Go(t, order));
            && PcOf(p, t).Getting? && PcOf(p1, t).Putting?
            && OwnMatch(Step(g, s, Go(t, order)), Step(Plain(g), p1, Go(t, order)), t)
  {
    assert StandsFor(PcOf(s, t), PcOf(p, t)) && FinePc(g.codec, Anything(), pc);
    var plain := PcOf(p, t);
    assert pc.key in s.store && s.store[pc.key] == pc.prev;
    StepIsGet(Plain(g), p, t, plain, order);
    var p1 := Step(Plain(g), p, Go(t, order));
    var data := Merge(Record(g.codec, pc.prev), pc.values);
    assert p1 == Goto(p, t, Putting(pc.key, data, pc.check));
    StepIsPut(Plain(g), p1, t, PcOf(p1, t), order);
  }

  /** Steps by one thread on both sides keep the others matched. */
  lemma OthersMatch(g: Config, s: State, p: State, l: Label, labels: seq<Label>)
    requires Matches(s, p) && (forall i :: 0 <= i < |labels| ==> labels[i].t == l.t)
    requires OwnMatch(Step(g, s, l), Run(Plain(g), p, labels), l.t)
    ensures Matches(Step(g, s, l), Run(Plain(g), p, labels))
  {
    forall u | u != l.t ensures StandsFor(PcOf(Step(g, s, l), u), PcOf(Run(Plain(g), p, labels), u)) {
      StepFrame(g, s, l, u);
      OthersKeep(Plain(g), p, labels, u);
      assert StandsFor(PcOf(s, u), PcOf(p, u));
    }
  }

  /** The plain run of one label as itself. */
  lemma SameLabel(g: Config, s: State, p: State, l: Label)
    requires Matches(s, p) && OwnMatch(Step(g, s, l), Step(Plain(g), p, l), l.t)
    ensures Matches(Step(g, s, l), Run(Plain(g), p, [l])) && Events(Plain(g), p, [l]) == EventsOf(s, l)
  {
    RunOne(Plain(g), p, l);
    OthersMatch(g, s, p, l, [l]);
    assert StandsFor(PcOf(s, l.t), PcOf(p, l.t));
  }

  /** A swap that commits nothing is matched by nothing. */
  lemma SwapStays(g: Config, n: nat, s: State, p: State, l: Label)
    requires Inv(g, n, Anything(), s) && Matches(s, p) && l.Go? && PcOf(s, l.t).Swapping?
    requires Step(g, s, l).log == s.log
    ensures Matches(Step(g, s, l), p)
  {
    var t, pc := l.t, PcOf(s, l.t);
    assert FinePc(g.codec, Anything(), pc) && StandsFor(pc, PcOf(p, t));
    SwapLands(g, s, t, pc, l.order);
    forall u | u != t ensures StandsFor(PcOf(Step(g, s, l), u), PcOf(p, u)) {
      StepFrame(g, s, l, u);
      assert StandsFor(PcOf(s, u), PcOf(p, u));
    }
  }

  lemma SwapCommits(g: Config, n: nat, s: State, p: State, l: Label)
    requires Inv(g, n, Anything(), s) && Matches(s, p) && l.Go? && PcOf(s, l.t).Swapping?
    requires Step(g, s, l).log != s.log
    ensures Matches(Step(g, s, l), Run(Plain(g), p, [l, l])) && Events(Plain(g), p, [l, l]) == []
  {
    SwapMatches(g, n, s, p, l.t, PcOf(s, l.t), l.order);
    RunTwo(Plain(g), p, l, l);
    OthersMatch(g, s, p, l, [l, l]);
    TwoEvents(Plain(g), p, l, l);
  }

  lemma IssueMatches(g: Config, s: State, p: State, l: Label)
    requires Matches(s, p) && l.Start?
    ensures OwnMatch(Step(g, s, l), Step(Plain(g), p, l), l.t)
  {
    assert StandsFor(PcOf(s, l.t), PcOf(p, l.t));
  }

  lemma GiveUpMatches(g: Config, s: State, p: State, l: Label)
    requires Matches(s, p) && (l.Fail? || (l.LoseReply? && !Writes(PcOf(s, l.t))))
    ensures OwnMatch(Step(g, s, l), Step(Plain(g), p, l), l.t)
  {
    assert StandsFor(PcOf(s, l.t), PcOf(p, l.t));
    GiveUp(g, s, l);
    GiveUp(Plain(g), p, l);
  }

  lemma GoMatches(g: Config, n: nat, s: State, p: State, t: Tid, order: seq<Bytes>)
    requires Inv(g, n, Anything(), s) && Matches(s, p) && !PcOf(s, t).Swapping?
    ensures OwnMatch(Step(g, s, Go(t, order)), Step(Plain(g), p, Go(t, order)), t)
  {
    if PcOf(s, t).Reading? {
      ReadMatches(g, n, s, p, t, order);
    } else if PcOf(s, t).Updating? {
      UpdateMatches(g, n, s, p, t, order);
    } else {
      SameMatches(g, s, p, t, order);
    }
  }

  /** A write whose reply is lost does the same in both modes. */
  lemma LostMatches(g: Config, n: nat, s: State, p: State, l: Label)
    requires Inv(g, n, Anything(), s) && Matches(s, p)
    requires l.LoseReply? && Writes(PcOf(s, l.t)) && !PcOf(s, l.t).Swapping?
    ensures OwnMatch(Step(g, s, l), Step(Plain(g), p, l), l.t)
  {
    assert StandsFor(PcOf(s, l.t), PcOf(p, l.t));
    GoMatches(g, n, s, p, l.t, l.order);
    LostIsGo(g, s, l);
    LostIsGo(Plain(g), p, l);
  }

  /** The label makes a thread swap. */
  predicate Swaps(s: State, l: Label) {
    (l.Go? || l.LoseReply?) && PcOf(s, l.t).Swapping?
  }

  /** All labels but those of swaps stand for themselves. */
  lemma LabelMatches(g: Config, n: nat, s: State, p: State, l: Label)
    requires Inv(g, n, Anything(), s) && Matches(s, p) && !Swaps(s, l)
    ensures OwnMatch(Step(g, s, l), Step(Plain(g), p, l), l.t)
  {
    match l
    case Start(_, _) => IssueMatches(g, s, p, l);
    case Go(t, order) => GoMatches(g, n, s, p, t, order);
    case Fail(_) => GiveUpMatches(g, s, p, l);
    case LoseReply(t, _) => if Writes(PcOf(s, t)) { LostMatches(g, n, s, p, l); } else { GiveUpMatches(g, s, p, l); }
  }

  lemma NoEvents(g: Config, s: State, l: Label)
    requires l.Go? && PcOf(s, l.t).Swapping?
    ensures EventsOf(s, l) == []
  {
  }

  /** A swap that fails or waits and whose reply is lost: the thread gives up. */
  lemma LostStays(g: Config, s: State, p: State, l: Label)
    requires Matches(s, p) && l.LoseReply? && PcOf(s, l.t).Swapping?
    requires GoStep(g, s, l.t, l.order).store == s.store
    ensures OwnMatch(Step(g, s, l), Step(Plain(g), p, l), l.t)
  {
    assert StandsFor(PcOf(s, l.t), PcOf(p, l.t));
    LostIsGo(g, s, l);
    GiveUp(Plain(g), p, l);
  }

  /** One that succeeds: a get, and a put whose reply is lost. */
  lemma LostCommits(g: Config, n: nat, s: State, p: State, l: Label)
    requires Inv(g, n, Anything(), s) && Matches(s, p) && l.LoseReply? && PcOf(s, l.t).Swapping?
    requires GoStep(g, s, l.t, l.order).log != s.log
    ensures var plain := [Go(l.t, l.order), l];
            Matches(Step(g, s, l), Run(Plain(g), p, plain)) && Events(Plain(g), p, plain) == EventsOf(s, l)
  {
    var go := Go(l.t, l.order);
    SwapMatches(g, n, s, p, l.t, PcOf(s, l.t), l.order);
    var p1 := Step(Plain(g), p, go);
    LostIsGo(g, s, l);
    LostIsGo(Plain(g), p1, l);
    RunTwo(Plain(g), p, go, l);
    OthersMatch(g, s, p, l, [go, l]);
    TwoEvents(Plain(g), p, go, l);
  }

  lemma TwoEvents(g: Config, p: State, a: Label, b: Label)
    ensures Events(g, p, [a, b]) == EventsOf(p, a) + EventsOf(Step(g, p, a), b)
  {
    var none: seq<Label> := [];
    assert [a, b][1..] == [b] && [b][1..] == none;
    assert Events(g, Step(g, p, a), [b]) == EventsOf(Step(g, p, a), b) + Events(g, Step(g, Step(g, p, a), b), none);
  }

  lemma LostSwapLabel(g: Config, n: nat, s: State, p: State, l: Label) returns (labels: seq<Label>)
    requires Inv(g, n, Anything(), s) && Matches(s, p) && l.LoseReply? && PcOf(s, l.t).Swapping?
    ensures Matches(Step(g, s, l), Run(Plain(g), p, labels)) && Events(Plain(g), p, labels) == EventsOf(s, l)
  {
    SwapCommitsMerge(g, n, s, l.t, l.order);
    if GoStep(g, s, l.t, l.order).log == s.log {
      labels := [l];
      LostStays(g, s, p, l);
      SameLabel(g, s, p, l);
    } else {
      labels := [Go(l.t, l.order), l];
      LostCommits(g, n, s, p, l);
    }
  }

  lemma SwapLabel(g: Config, n: nat, s: State, p: State, l: Label) returns (labels: seq<Label>)
    requires Inv(g, n, Anything(), s) && Matches(s, p) && l.Go? && PcOf(s, l.t).Swapping?
    ensures Matches(Step(g, s, l), Run(Plain(g), p, labels)) && Events(Plain(g), p, labels) == []
  {
    if Step(g, s, l).log == s.log {
      labels := [];
      SwapStays(g, n, s, p, l);
    } else {
      labels := [l, l];
      SwapCommits(g, n, s, p, l);
    }
  }

  lemma StepMatches(g: Config, n: nat, s: State, p: State, l: Label) returns (labels: seq<Label>)
    requires Inv(g, n, Anything(), s) && Matches(s, p)
    ensures Matches(Step(g, s, l), Run(Plain(g), p, labels)) && Events(Plain(g), p, labels) == EventsOf(s, l)
  {
    if !Swaps(s, l) {
      labels := [l];
      LabelMatches(g, n, s, p, l);
      SameLabel(g, s, p, l);
    } else if l.Go? {
      NoEvents(g, s, l);
      labels := SwapLabel(g, n, s, p, l);
    } else {
      labels := LostSwapLabel(g, n, s, p, l);
    }
  }

  /** Every run in CAS mode is matched by a run in plain mode: a thread about to swap stands
      for one about to get, a successful swap for its get and its put with nothing in
      between, a failed one for nothing.  Both issue the same operations, see the same
      failures and lost replies and verify the same records in the same order, and the
      stores are equal. */
  lemma {:induction false} CasRefinesPlain(g: Config, n: nat, s: State, p: State, labels: seq<Label>)
    returns (plain: seq<Label>)
    requires Inv(g, n, Anything(), s) && Matches(s, p) && FineLabels(g.codec, Anything(), labels)
    ensures Matches(Run(g, s, labels), Run(Plain(g), p, plain))
    ensures Events(Plain(g), p, plain) == Events(g, s, labels)
    decreases |labels|
  {
    if labels == [] {
      plain := [];
    } else {
      var first := StepMatches(g, n, s, p, labels[0]);
      StepInv(g, n, Anything(), s, labels[0]);
      var rest := CasRefinesPlain(g, n, Step(g, s, labels[0]), Run(Plain(g), p, first), labels[1..]);
      plain := first + rest;
      RunConcat(Plain(g), p, first, rest);
      EventsConcat(Plain(g), p, first, rest);
    }
  }

  /** From the same store, before any operation. */
  lemma CasRunsRefinePlain(g: Config, n: nat, store: Store, labels: seq<Label>) returns (plain: seq<Label>)
    requires IsCodec(g.codec, n) && GoodStore(g.codec, store) && FineLabels(g.codec, Anything(), labels)
    ensures Run(Plain(g), Init(store), plain).store == Run(g, Init(store), labels).store
    ensures Events(Plain(g), Init(store), plain) == Events(g, Init(store), labels)
    ensures forall t :: StandsFor(PcOf(Run(g, Init(store), labels), t), PcOf(Run(Plain(g), Init(store), plain), t))
  {
    forall k | k in store ensures FineRow(g.codec, Anything(), k, store[k]) {
      RecordIsKnown(g.codec, n, store[k]);
    }
    plain := CasRefinesPlain(g, n, Init(store), Init(store), labels);
  }
}

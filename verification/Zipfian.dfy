/** The incrementally maintained zeta of the zipfian generator (pkg/generator/zipfian.go),
    shared by concurrent callers.  Floating point enters only through its addition and the
    term of each index, both arbitrary here: no law of arithmetic is used. */
module Zipfian {

  type Tid = nat

  /** How sums are formed: zero, addition and 1/(i+1)^theta. */
  datatype Arith<!F> = Arith(zero: F, add: (F, F) -> F, term: int -> F)

  /** zetaStatic(st, n, theta, initialSum), a left fold. */
  function ZetaFold<F>(a: Arith<F>, st: int, n: int, sum: F): F
    decreases n - st
  {
    if st < n then ZetaFold(a, st + 1, n, a.add(sum, a.term(st))) else sum
  }

  /** The sum from scratch. */
  function Zeta<F>(a: Arith<F>, n: int): F {
    ZetaFold(a, 0, n, a.zero)
  }

  method ZetaStatic<F>(a: Arith<F>, st: int, n: int, initialSum: F) returns (sum: F)
    ensures sum == ZetaFold(a, st, n, initialSum)
  {
    sum := initialSum;
    var i := st;
    while i < n
      invariant ZetaFold(a, i, n, sum) == ZetaFold(a, st, n, initialSum)
      decreases n - i
    {
      sum := a.add(sum, a.term(i));
      i := i + 1;
    }
  }

  /** Continuing a sum at `m` is summing from the start, whatever addition does. */
  lemma {:induction false} FoldSplit<F>(a: Arith<F>, st: int, m: int, n: int, sum: F)
    requires st <= m <= n
    ensures ZetaFold(a, m, n, ZetaFold(a, st, m, sum)) == ZetaFold(a, st, n, sum)
    decreases m - st
  {
    if st < m { FoldSplit(a, st + 1, m, n, a.add(sum, a.term(st))); }
  }

  /** A sum of no terms is where it started, and one more index adds the term of that index
      last: this determines every sum. */
  lemma {:induction false} FoldSnoc<F>(a: Arith<F>, st: int, n: int, sum: F)
    ensures n <= st ==> ZetaFold(a, st, n, sum) == sum
    ensures st <= n ==> ZetaFold(a, st, n + 1, sum) == a.add(ZetaFold(a, st, n, sum), a.term(n))
    decreases n - st
  {
    if st < n { FoldSnoc(a, st + 1, n, a.add(sum, a.term(st))); }
  }

  // ---------- Concurrent callers ----------

  /** A call next(itemCount), one access to a shared field at a time. */
  datatype Pc<F> =
    | Idle
    | Comparing(items: int)                        // itemCount != countForZeta, without the lock
    | Spinning(items: int)                         // lock.Lock()
    | Deciding(items: int)                         // holds the lock, about to compare again
    | Counting(items: int, from: int, sum: F)      // zeta: about to store countForZeta
    | Summing(items: int, from: int, sum: F)       // about to compute and store zetan
    | Unlocking(items: int)
    | Drawing(items: int)                          // about to read zetan for the result

  /** `summed`, the item count whose sum zetan holds, records history. */
  datatype State<F> = State(zetan: F, countForZeta: int, locked: bool, pcs: map<Tid, Pc<F>>, summed: int)

  datatype Label = Call(t: Tid, items: int) | Go(t: Tid)

  /** NewZipfianWithRange: the sum of all items, and their number. */
  function Init<F>(a: Arith<F>, items: int): State<F> {
    State(Zeta(a, items), items, false, map[], items)
  }

  function PcOf<F>(s: State<F>, t: Tid): Pc<F> {
    if t in s.pcs then s.pcs[t] else Idle
  }

  function Goto<F>(s: State<F>, t: Tid, pc: Pc<F>): State<F> {
    s.(pcs := s.pcs[t := pc])
  }

  /** `shrink` is allowItemCountDecrease.  A recomputation starts from 0, an extension from
      the current count and sum; both store the new count before the new sum. */
  function GoStep<F>(a: Arith<F>, shrink: bool, s: State<F>, t: Tid): State<F> {
    match PcOf(s, t)
    case Idle => s
    case Comparing(items) => Goto(s, t, if items != s.countForZeta then Spinning(items) else Drawing(items))
    case Spinning(items) => if s.locked then s else Goto(s, t, Deciding(items)).(locked := true)
    case Deciding(items) =>
      if items > s.countForZeta then Goto(s, t, Counting(items, s.countForZeta, s.zetan))
      else if items < s.countForZeta && shrink then Goto(s, t, Counting(items, 0, a.zero))
      else Goto(s, t, Unlocking(items))
    case Counting(items, from, sum) => Goto(s, t, Summing(items, from, sum)).(countForZeta := items)
    case Summing(items, from, sum) =>
      Goto(s, t, Unlocking(items)).(zetan := ZetaFold(a, from, items, sum), summed := items)
    case Unlocking(items) => Goto(s, t, Drawing(items)).(locked := false)
    case Drawing(_) => Goto(s, t, Idle)
  }

  function Step<F>(a: Arith<F>, shrink: bool, s: State<F>, l: Label): State<F> {
    match l
    case Call(t, items) => if PcOf(s, t) == Idle then Goto(s, t, Comparing(items)) else s
    case Go(t) => GoStep(a, shrink, s, t)
  }

  function Run<F>(a: Arith<F>, shrink: bool, s: State<F>, labels: seq<Label>): State<F>
    decreases |labels|
  {
    if labels == [] then s else Run(a, shrink, Step(a, shrink, s, labels[0]), labels[1..])
  }

  predicate Critical<F>(pc: Pc<F>) {
    pc.Deciding? || pc.Counting? || pc.Summing? || pc.Unlocking?
  }

  /** Item counts of a shrinking generator are not negative. */
  ghost predicate LabelsOk(shrink: bool, labels: seq<Label>) {
    shrink ==> forall i :: 0 <= i < |labels| && labels[i].Call? ==> 0 <= labels[i].items
  }

  ghost predicate PcInv<F>(a: Arith<F>, shrink: bool, s: State<F>, pc: Pc<F>) {
    && (Critical(pc) ==> s.locked)
    && (shrink && !pc.Idle? ==> 0 <= pc.items)
    && match pc
       case Deciding(_) => s.summed == s.countForZeta
       case Counting(items, from, sum) =>
         && s.summed == s.countForZeta != items && 0 <= items
         && (!shrink ==> from == s.countForZeta < items)
         && ZetaFold(a, from, items, sum) == Zeta(a, items)
       case Summing(items, from, sum) =>
         && s.countForZeta == items != s.summed && (!shrink ==> from == s.summed)
         && ZetaFold(a, from, items, sum) == Zeta(a, items)
       case Unlocking(items) => s.summed == s.countForZeta && (!shrink ==> items <= s.countForZeta)
       case Drawing(items) => !shrink ==> items <= s.countForZeta
       case _ => true
  }

  ghost predicate Inv<F>(a: Arith<F>, shrink: bool, s: State<F>) {
    && s.zetan == Zeta(a, s.summed)
    && 0 <= s.countForZeta && 0 <= s.summed
    && (!s.locked ==> s.summed == s.countForZeta)
    && (s.summed != s.countForZeta ==> exists t :: PcOf(s, t).Summing?)
    && (forall t :: PcInv(a, shrink, s, PcOf(s, t)))
    && (forall t, u :: Critical(PcOf(s, t)) && Critical(PcOf(s, u)) ==> t == u)
  }

  lemma OwnStep<F>(a: Arith<F>, shrink: bool, s: State<F>, t: Tid)
    requires Inv(a, shrink, s)
    ensures var s' := GoStep(a, shrink, s, t);
            && PcInv(a, shrink, s', PcOf(s', t))
            && s'.zetan == Zeta(a, s'.summed) && 0 <= s'.countForZeta && 0 <= s'.summed
            && (!s'.locked ==> s'.summed == s'.countForZeta)
            && (!shrink ==> s.countForZeta <= s'.countForZeta)
  {
    var pc := PcOf(s, t);
    assert PcInv(a, shrink, s, pc);
    if pc.Deciding? && pc.items > s.countForZeta {
      FoldSplit(a, 0, s.countForZeta, pc.items, a.zero);
    }
  }

  lemma OtherStep<F>(a: Arith<F>, shrink: bool, s: State<F>, t: Tid, u: Tid)
    requires Inv(a, shrink, s) && u != t
    ensures var s' := GoStep(a, shrink, s, t);
            && PcOf(s', u) == PcOf(s, u) && PcInv(a, shrink, s', PcOf(s, u))
            && !(Critical(PcOf(s', t)) && Critical(PcOf(s, u)))
  {
    assert PcInv(a, shrink, s, PcOf(s, t)) && PcInv(a, shrink, s, PcOf(s, u));
    assert !(Critical(PcOf(s, t)) && Critical(PcOf(s, u)));
  }

  lemma StepInv<F>(a: Arith<F>, shrink: bool, s: State<F>, l: Label)
    requires Inv(a, shrink, s) && (shrink && l.Call? ==> 0 <= l.items)
    ensures Inv(a, shrink, Step(a, shrink, s, l))
    ensures !shrink ==> s.countForZeta <= Step(a, shrink, s, l).countForZeta
  {
    var s' := Step(a, shrink, s, l);
    match l
    case Call(t, items) =>
      forall u
        ensures PcInv(a, shrink, s', PcOf(s', u))
        ensures Critical(PcOf(s', u)) ==> Critical(PcOf(s, u))
      {
        assert PcInv(a, shrink, s, PcOf(s, u));
        assert PcOf(s, u).Summing? ==> PcOf(s', u).Summing?;
      }
    case Go(t) =>
      OwnStep(a, shrink, s, t);
      forall u | u != t
        ensures PcOf(s', u) == PcOf(s, u) && PcInv(a, shrink, s', PcOf(s, u))
        ensures !(Critical(PcOf(s', t)) && Critical(PcOf(s, u)))
      {
        OtherStep(a, shrink, s, t, u);
      }
      StaleHasWriter(a, shrink, s, t);
  }

  /** A sum that lags behind its count has a caller about to store the new one. */
  lemma StaleHasWriter<F>(a: Arith<F>, shrink: bool, s: State<F>, t: Tid)
    requires Inv(a, shrink, s)
    ensures var s' := GoStep(a, shrink, s, t);
            s'.summed != s'.countForZeta ==> exists u :: PcOf(s', u).Summing?
  {
    var s' := GoStep(a, shrink, s, t);
    assert PcInv(a, shrink, s, PcOf(s, t));
    if PcOf(s, t).Counting? {
      assert PcOf(s', t).Summing?;
    } else if !PcOf(s, t).Summing? && s.summed != s.countForZeta {
      var u :| PcOf(s, u).Summing?;
      assert PcOf(s', u).Summing?;
    }
  }

  lemma {:induction false} RunInv<F>(a: Arith<F>, shrink: bool, s: State<F>, labels: seq<Label>)
    requires Inv(a, shrink, s) && LabelsOk(shrink, labels)
    ensures Inv(a, shrink, Run(a, shrink, s, labels))
    ensures !shrink ==> s.countForZeta <= Run(a, shrink, s, labels).countForZeta
    decreases |labels|
  {
    if labels != [] {
      StepInv(a, shrink, s, labels[0]);
      RunInv(a, shrink, Step(a, shrink, s, labels[0]), labels[1..]);
    }
  }

  lemma {:induction false} RunConcat<F>(a: Arith<F>, shrink: bool, s: State<F>, xs: seq<Label>, ys: seq<Label>)
    ensures Run(a, shrink, s, xs + ys) == Run(a, shrink, Run(a, shrink, s, xs), ys)
    decreases |xs|
  {
    if xs == [] {
      assert xs + ys == ys;
    } else {
      assert (xs + ys)[1..] == xs[1..] + ys;
      RunConcat(a, shrink, Step(a, shrink, s, xs[0]), xs[1..], ys);
    }
  }

  /** In every interleaving of calls with any item counts, for any addition: whenever the
      lock is free, zetan is the sum from scratch for countForZeta; at every moment it is
      the sum from scratch for some count; one caller recomputes at a time; and without
      shrinking countForZeta never decreases. */
  lemma ZetaIsExact<F>(a: Arith<F>, shrink: bool, items: int, earlier: seq<Label>, later: seq<Label>)
    requires 0 <= items && LabelsOk(shrink, earlier + later)
    ensures var s := Run(a, shrink, Init(a, items), earlier + later);
            && (!s.locked ==> s.zetan == Zeta(a, s.countForZeta))
            && s.zetan == Zeta(a, s.summed)
            && (forall t, u :: Critical(PcOf(s, t)) && Critical(PcOf(s, u)) ==> t == u)
            && (!shrink ==> Run(a, shrink, Init(a, items), earlier).countForZeta <= s.countForZeta)
  {
    assert forall i :: 0 <= i < |earlier| ==> earlier[i] == (earlier + later)[i];
    assert forall i :: 0 <= i < |later| ==> later[i] == (earlier + later)[|earlier| + i];
    RunInv(a, shrink, Init(a, items), earlier);
    RunInv(a, shrink, Run(a, shrink, Init(a, items), earlier), later);
    RunConcat(a, shrink, Init(a, items), earlier, later);
  }

  function Alone(t: Tid, n: nat): seq<Label> {
    seq(n, _ => Go(t))
  }

  lemma AloneStep<F>(a: Arith<F>, shrink: bool, s: State<F>, t: Tid, n: nat)
    requires 0 < n
    ensures Run(a, shrink, s, Alone(t, n)) == Run(a, shrink, GoStep(a, shrink, s, t), Alone(t, n - 1))
  {
    assert Alone(t, n)[1..] == Alone(t, n - 1);
  }

  /** The item count after a call: it follows upwards, and downwards if shrinking. */
  function After(shrink: bool, count: int, items: int): int {
    if shrink || count < items then items else count
  }

  /** Release the lock, draw, return. */
  lemma LeaveAlone<F>(a: Arith<F>, shrink: bool, s: State<F>, t: Tid)
    requires PcOf(s, t).Unlocking?
    ensures var e := Run(a, shrink, s, Alone(t, 2));
            PcOf(e, t) == Idle && !e.locked && e.zetan == s.zetan && e.countForZeta == s.countForZeta
  {
    AloneStep(a, shrink, s, t, 2);
    AloneStep(a, shrink, GoStep(a, shrink, s, t), t, 1);
  }

  /** From the second comparison to the return. */
  lemma DecideAlone<F>(a: Arith<F>, shrink: bool, s: State<F>, t: Tid) returns (n: nat)
    requires PcOf(s, t).Deciding?
    ensures var e := Run(a, shrink, s, Alone(t, n));
            && PcOf(e, t) == Idle && !e.locked
            && e.countForZeta == After(shrink, s.countForZeta, PcOf(s, t).items)
  {
    var s1 := GoStep(a, shrink, s, t);
    if PcOf(s1, t).Unlocking? {
      n := 3;
      AloneStep(a, shrink, s, t, 3);
      LeaveAlone(a, shrink, s1, t);
    } else {
      n := 5;
      var s2 := GoStep(a, shrink, s1, t);
      var s3 := GoStep(a, shrink, s2, t);
      AloneStep(a, shrink, s, t, 5);
      AloneStep(a, shrink, s1, t, 4);
      AloneStep(a, shrink, s2, t, 3);
      LeaveAlone(a, shrink, s3, t);
    }
  }

  /** A call that runs alone from a state with the lock free returns with the lock free and
      the sum for its own item count, if that is larger or the generator may shrink. */
  lemma CallAlone<F>(a: Arith<F>, shrink: bool, s: State<F>, t: Tid, items: int) returns (n: nat)
    requires Inv(a, shrink, s) && !s.locked && PcOf(s, t) == Idle && (shrink ==> 0 <= items)
    ensures var e := Run(a, shrink, s, [Call(t, items)] + Alone(t, n));
            && PcOf(e, t) == Idle && !e.locked
            && e.countForZeta == After(shrink, s.countForZeta, items)
            && e.zetan == Zeta(a, e.countForZeta)
  {
    var s1 := Step(a, shrink, s, Call(t, items));
    var s2 := GoStep(a, shrink, s1, t);
    if items == s.countForZeta {
      n := 2;
      AloneStep(a, shrink, s1, t, 2);
      AloneStep(a, shrink, s2, t, 1);
    } else {
      var s3 := GoStep(a, shrink, s2, t);
      var m := DecideAlone(a, shrink, s3, t);
      n := m + 2;
      AloneStep(a, shrink, s1, t, n);
      AloneStep(a, shrink, s2, t, n - 1);
    }
    assert ([Call(t, items)] + Alone(t, n))[1..] == Alone(t, n);
    assert LabelsOk(shrink, [Call(t, items)] + Alone(t, n));
    RunInv(a, shrink, s, [Call(t, items)] + Alone(t, n));
  }

  // ---------- What an unlocked draw sees ----------

  /** In every reachable state zetan belongs to countForZeta if and only if no caller stands
      between its two stores. */
  lemma SumLagsIff<F>(a: Arith<F>, shrink: bool, items: int, labels: seq<Label>)
    requires 0 <= items && LabelsOk(shrink, labels)
    ensures var s := Run(a, shrink, Init(a, items), labels);
            && (s.summed == s.countForZeta <==> forall t :: !PcOf(s, t).Summing?)
            && s.zetan == Zeta(a, s.summed)
  {
    RunInv(a, shrink, Init(a, items), labels);
    var s := Run(a, shrink, Init(a, items), labels);
    forall t ensures PcOf(s, t).Summing? ==> s.summed != s.countForZeta {
      assert PcInv(a, shrink, s, PcOf(s, t));
    }
  }

  /** Some caller is about to store the sum that continues the one for `from`. */
  ghost predicate Extending<F>(s: State<F>, from: int) {
    exists u :: PcOf(s, u).Summing? && PcOf(s, u).from == from
  }

  ghost predicate Storing<F>(s: State<F>) {
    exists u :: PcOf(s, u).Summing?
  }

  /** A draw combines its own item count with whatever sum zetan holds at that moment,
      without the lock.  In every reachable state of a generator that never shrinks, a
      caller about to draw has a count of at most countForZeta, and it draws from the sum
      for its own count if and only if either no caller stands between its two stores and
      the generator has not grown past that count, or the caller between its two stores is
      just now extending the sum for that count.  A negative count has the sum for 0. */
  lemma DrawIsExactIff<F>(a: Arith<F>, items: int, labels: seq<Label>, t: Tid)
    requires 0 <= items && Distinct(a) && PcOf(Run(a, false, Init(a, items), labels), t).Drawing?
    ensures var s := Run(a, false, Init(a, items), labels);
            var own := PcOf(s, t).items;
            var terms := if own < 0 then 0 else own;
            && own <= s.countForZeta
            && (s.zetan == Zeta(a, own) <==> if Storing(s) then Extending(s, terms) else terms == s.countForZeta)
  {
    RunInv(a, false, Init(a, items), labels);
    var s := Run(a, false, Init(a, items), labels);
    assert PcInv(a, false, s, PcOf(s, t));
    var own := PcOf(s, t).items;
    var terms := if own < 0 then 0 else own;
    assert Zeta(a, own) == Zeta(a, terms);
    assert Zeta(a, s.summed) == Zeta(a, terms) <==> s.summed == terms;
    forall u ensures PcOf(s, u).Summing? ==> PcOf(s, u).from == s.summed != s.countForZeta {
      assert PcInv(a, false, s, PcOf(s, u));
    }
  }

  /** Sums of different counts differ. */
  ghost predicate Distinct<F>(a: Arith<F>) {
    forall m, n :: 0 <= m && 0 <= n && Zeta(a, m) == Zeta(a, n) ==> m == n
  }

  /** One caller extends the sum to `n`; another one with the same count passes the unlocked
      comparison between the two stores, and draws from the old sum. */
  lemma StaleDraw<F>(a: Arith<F>, shrink: bool, items: int, n: int, t: Tid, u: Tid)
    requires items < n && t != u
    ensures var s := Run(a, shrink, Init(a, items), [Call(t, n)] + Alone(t, 4) + [Call(u, n), Go(u)]);
            PcOf(s, u) == Drawing(n) && s.countForZeta == n && s.zetan == Zeta(a, items)
  {
    var s := Init(a, items);
    var s1 := Step(a, shrink, s, Call(t, n));
    RunConcat(a, shrink, s, [Call(t, n)] + Alone(t, 4), [Call(u, n), Go(u)]);
    assert ([Call(t, n)] + Alone(t, 4))[1..] == Alone(t, 4);
    var s5 := FourSteps(a, shrink, s1, t);
    RunTwo(a, shrink, s5, Call(u, n), Go(u));
  }

  /** The other way round: a caller passes the unlocked comparison, another one extends the
      sum to `n` and returns, and the first draws with its own, smaller count from the sum
      for `n`, with the lock free and no store under way. */
  lemma LateDraw<F>(a: Arith<F>, shrink: bool, items: int, n: int, t: Tid, u: Tid)
    requires 0 <= items < n && t != u
    ensures var s := Run(a, shrink, Init(a, items), [Call(u, items), Go(u)] + ([Call(t, n)] + Alone(t, 4)) + Alone(t, 3));
            PcOf(s, u) == Drawing(items) && !s.locked && !Storing(s) && s.countForZeta == n && s.zetan == Zeta(a, n)
  {
    var s := Init(a, items);
    var s2 := Step(a, shrink, Step(a, shrink, s, Call(u, items)), Go(u));
    var before := [Call(u, items), Go(u)];
    var extend := [Call(t, n)] + Alone(t, 4);
    RunTwo(a, shrink, s, Call(u, items), Go(u));
    RunConcat(a, shrink, s, before, extend);
    RunConcat(a, shrink, s, before + extend, Alone(t, 3));
    assert extend[1..] == Alone(t, 4);
    var s7 := FourSteps(a, shrink, Step(a, shrink, s2, Call(t, n)), t);
    StoreAndLeave(a, shrink, s7, t);
    FoldSplit(a, 0, items, n, a.zero);
  }

  /** Store the sum, release the lock, draw, return. */
  lemma StoreAndLeave<F>(a: Arith<F>, shrink: bool, s: State<F>, t: Tid)
    requires PcOf(s, t).Summing?
    ensures var pc := PcOf(s, t);
            Run(a, shrink, s, Alone(t, 3)) ==
            Goto(s, t, Idle).(zetan := ZetaFold(a, pc.from, pc.items, pc.sum), summed := pc.items, locked := false)
  {
    var s1 := GoStep(a, shrink, s, t);
    AloneStep(a, shrink, s, t, 3);
    AloneStep(a, shrink, s1, t, 2);
    AloneStep(a, shrink, GoStep(a, shrink, s1, t), t, 1);
  }

  lemma RunTwo<F>(a: Arith<F>, shrink: bool, s: State<F>, k: Label, l: Label)
    ensures Run(a, shrink, s, [k, l]) == Step(a, shrink, Step(a, shrink, s, k), l)
  {
    var none: seq<Label> := [];
    assert [k, l][1..] == [l] && [l][1..] == none;
    assert Run(a, shrink, Step(a, shrink, s, k), [l]) == Run(a, shrink, Step(a, shrink, Step(a, shrink, s, k), l), none);
  }

  /** From the first comparison to the store of the count. */
  lemma FourSteps<F>(a: Arith<F>, shrink: bool, s: State<F>, t: Tid) returns (e: State<F>)
    requires PcOf(s, t).Comparing? && PcOf(s, t).items > s.countForZeta && !s.locked
    ensures e == Run(a, shrink, s, Alone(t, 4))
    ensures e == Goto(s, t, Summing(PcOf(s, t).items, s.countForZeta, s.zetan)).(
                   countForZeta := PcOf(s, t).items, locked := true)
  {
    var s1 := GoStep(a, shrink, s, t);
    var s2 := GoStep(a, shrink, s1, t);
    var s3 := GoStep(a, shrink, s2, t);
    e := GoStep(a, shrink, s3, t);
    AloneStep(a, shrink, s, t, 4);
    AloneStep(a, shrink, s1, t, 3);
    AloneStep(a, shrink, s2, t, 2);
    AloneStep(a, shrink, s3, t, 1);
  }

  // ---------- Negative item counts ----------

  lemma {:induction false} StaysInfinite<F(!new)>(a: Arith<F>, finite: F -> bool, st: int, n: int, sum: F)
    requires FiniteSums(a, finite) && !finite(sum)
    ensures !finite(ZetaFold(a, st, n, sum))
    decreases n - st
  {
    if st < n { StaysInfinite(a, finite, st + 1, n, a.add(sum, a.term(st))); }
  }

  /** A finite sum has finite operands, as in IEEE 754 arithmetic. */
  ghost predicate FiniteSums<F(!new)>(a: Arith<F>, finite: F -> bool) {
    forall x, y :: finite(a.add(x, y)) ==> finite(x) && finite(y)
  }

  /** 1/(i+1)^theta is infinite or not a number for a negative index, as it is for the
      default theta of 0.99. */
  ghost predicate NegativeTermsBad<F(!new)>(a: Arith<F>, finite: F -> bool) {
    forall i :: i < 0 ==> !finite(a.term(i))
  }

  /** A generator over a negative number of items is not exact: extending its sum adds the
      terms of the negative indices.  An extension from `items` to `n` gives the sum from
      scratch, a finite number, if and only if `items` is not negative. */
  lemma ExtensionExactIff<F(!new)>(a: Arith<F>, finite: F -> bool, items: int, n: int)
    requires items < n && FiniteSums(a, finite) && NegativeTermsBad(a, finite) && finite(Zeta(a, n))
    ensures ZetaFold(a, items, n, Zeta(a, items)) == Zeta(a, n) <==> 0 <= items
  {
    if 0 <= items {
      FoldSplit(a, 0, items, n, a.zero);
    } else {
      var sum := a.add(a.zero, a.term(items));
      assert !finite(sum);
      StaysInfinite(a, finite, items + 1, n, sum);
      assert ZetaFold(a, items, n, a.zero) == ZetaFold(a, items + 1, n, sum);
    }
  }

  /** So the first larger call on a new generator leaves the exact sum if and only if the
      generator was made for a number of items that is not negative. */
  lemma FirstCallExactIff<F(!new)>(a: Arith<F>, finite: F -> bool, shrink: bool, items: int, t: Tid, n: int)
    requires items < n && FiniteSums(a, finite) && NegativeTermsBad(a, finite) && finite(Zeta(a, n))
    ensures var e := Run(a, shrink, Init(a, items), [Call(t, n)] + Alone(t, 4) + Alone(t, 3));
            && PcOf(e, t) == Idle && !e.locked && e.countForZeta == n
            && (e.zetan == Zeta(a, n) <==> 0 <= items)
  {
    var s := Init(a, items);
    var s1 := Step(a, shrink, s, Call(t, n));
    RunConcat(a, shrink, s, [Call(t, n)] + Alone(t, 4), Alone(t, 3));
    assert ([Call(t, n)] + Alone(t, 4))[1..] == Alone(t, 4);
    var s5 := FourSteps(a, shrink, s1, t);
    StoreAndLeave(a, shrink, s5, t);
    ExtensionExactIff(a, finite, items, n);
  }

  // ---------- An arithmetic that meets all conditions ----------

  /** The arithmetic that records which terms were added. */
  function Trace(): Arith<seq<int>> {
    Arith([], (x, y) => x + y, i => [i])
  }

  predicate NoNegative(xs: seq<int>) {
    forall i :: 0 <= i < |xs| ==> 0 <= xs[i]
  }

  lemma {:induction false} TraceFold(st: int, n: int, sum: seq<int>)
    requires 0 <= st && NoNegative(sum)
    ensures NoNegative(ZetaFold(Trace(), st, n, sum))
    ensures |ZetaFold(Trace(), st, n, sum)| == |sum| + if st < n then n - st else 0
    decreases n - st
  {
    if st < n { TraceFold(st + 1, n, sum + [st]); }
  }

  /** A sum adds the terms of exactly the indices st .. n - 1, each once and in order. */
  lemma {:induction false} TraceTerms(st: int, n: int, sum: seq<int>)
    requires st <= n
    ensures ZetaFold(Trace(), st, n, sum) == sum + seq(n - st, i => st + i)
    decreases n - st
  {
    if st < n {
      TraceTerms(st + 1, n, sum + [st]);
      assert seq(n - st, i => st + i) == [st] + seq(n - st - 1, i => st + 1 + i);
    }
  }

  /** The conditions of ExtensionExactIff and of DrawIsExactIff can be met together. */
  lemma TraceMeetsConditions(n: int)
    ensures FiniteSums(Trace(), NoNegative) && NegativeTermsBad(Trace(), NoNegative)
    ensures NoNegative(Zeta(Trace(), n)) && Distinct(Trace())
  {
    forall x, y | NoNegative(Trace().add(x, y)) ensures NoNegative(x) && NoNegative(y) {
      assert Trace().add(x, y) == x + y;
      assert forall i :: 0 <= i < |x| ==> x[i] == (x + y)[i];
      assert forall i :: 0 <= i < |y| ==> y[i] == (x + y)[|x| + i];
    }
    forall i | i < 0 ensures !NoNegative(Trace().term(i)) {
      assert Trace().term(i)[0] == i;
    }
    TraceFold(0, n, []);
    forall j, k | 0 <= j && 0 <= k && Zeta(Trace(), j) == Zeta(Trace(), k) ensures j == k {
      TraceFold(0, j, []);
      TraceFold(0, k, []);
    }
  }
}

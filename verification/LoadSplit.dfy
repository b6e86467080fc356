/** How a load is split over the workers (pkg/client/client.go) and which key numbers they
    draw from the shared counter (pkg/generator/counter.go), in every interleaving. */
module LoadSplit {

  // ---------- newWorker ----------

  /** The operations of one worker; a total below the thread count ends the program. */
  function OpCount(total: nat, threads: nat, id: nat): nat
    requires 0 < threads <= total && id < threads
  {
    Share(total / threads, total % threads, id)
  }

  function Share(quotient: nat, remainder: nat, id: nat): nat {
    quotient + (if id < remainder then 1 else 0)
  }

  function Shares(total: nat, threads: nat): seq<nat>
    requires 0 < threads <= total
  {
    seq(threads, i requires 0 <= i < threads => OpCount(total, threads, i))
  }

  function Sum(xs: seq<int>): int {
    if xs == [] then 0 else Sum(xs[..|xs| - 1]) + xs[|xs| - 1]
  }

  lemma {:induction false} SumOfShares(xs: seq<nat>, q: nat, r: nat)
    requires forall i :: 0 <= i < |xs| ==> xs[i] == Share(q, r, i)
    ensures Sum(xs) == |xs| * q + if |xs| < r then |xs| else r
    decreases |xs|
  {
    if xs != [] {
      SumOfShares(xs[..|xs| - 1], q, r);
      assert |xs| * q == (|xs| - 1) * q + q;
    }
  }

  /** The workers' shares add up to the total and differ by at most one; none is zero. */
  lemma SplitIsExact(total: nat, threads: nat)
    requires 0 < threads <= total
    ensures Sum(Shares(total, threads)) == total
    ensures forall i, j :: 0 <= i < threads && 0 <= j < threads ==>
              1 <= OpCount(total, threads, i) <= OpCount(total, threads, j) + 1
  {
    SumOfShares(Shares(total, threads), total / threads, total % threads);
    assert total == threads * (total / threads) + total % threads;
    assert 1 <= total / threads by { QuotientPositive(total, threads); }
  }

  lemma QuotientPositive(total: nat, threads: nat)
    requires 0 < threads <= total
    ensures 1 <= total / threads
  {
    var q := total / threads;
    assert total == threads * q + total % threads;
    assert q <= 0 ==> threads * q <= 0;
  }

  // ---------- The load ----------

  /** A worker: operations counted so far, and draws left in the batch under way. */
  datatype Worker = Worker(opsDone: nat, pending: nat)

  /** `log` lists who drew which key number. */
  datatype State = State(counter: int, workers: seq<Worker>, log: seq<(nat, int)>)

  function Init(start: int, threads: nat): State {
    State(start, seq(threads, _ => Worker(0, 0)), [])
  }

  /** One step of worker `t`: begin a batch of `b` inserts, or draw one key number; the
      last draw of a batch counts the whole batch.  An insert without batching has b == 1. */
  function Step(shares: seq<nat>, b: nat, s: State, t: nat): State {
    if t >= |s.workers| || t >= |shares| then s
    else
      var w := s.workers[t];
      if w.pending > 0 then
        var w' := Worker(if w.pending == 1 then w.opsDone + b else w.opsDone, w.pending - 1);
        State(s.counter + 1, s.workers[t := w'], s.log + [(t, s.counter)])
      else if w.opsDone < shares[t] then s.(workers := s.workers[t := w.(pending := b)])
      else s
  }

  function Run(shares: seq<nat>, b: nat, s: State, schedule: seq<nat>): State
    decreases |schedule|
  {
    if schedule == [] then s else Run(shares, b, Step(shares, b, s, schedule[0]), schedule[1..])
  }

  /** Every worker has done its share. */
  predicate Complete(shares: seq<nat>, s: State) {
    && |s.workers| == |shares|
    && forall t :: 0 <= t < |shares| ==> s.workers[t].pending == 0 && shares[t] <= s.workers[t].opsDone
  }

  // ---------- Invariant ----------

  /** The key numbers a worker has drawn. */
  function Drawn(b: nat, w: Worker): int {
    w.opsDone + (if w.pending > 0 then b - w.pending else 0)
  }

  function AllDrawn(b: nat, ws: seq<Worker>): seq<int> {
    seq(|ws|, i requires 0 <= i < |ws| => Drawn(b, ws[i]))
  }

  lemma {:induction false} SumUpdate(xs: seq<int>, t: nat, x: int)
    requires t < |xs|
    ensures Sum(xs[t := x]) == Sum(xs) - xs[t] + x
    decreases |xs|
  {
    var n := |xs| - 1;
    if t == n {
      assert xs[t := x][..n] == xs[..n];
    } else {
      assert xs[t := x][..n] == xs[..n][t := x];
      SumUpdate(xs[..n], t, x);
    }
  }

  ghost predicate WorkerInv(share: nat, b: nat, w: Worker) {
    w.pending <= b && w.opsDone < share + b && (w.pending > 0 ==> w.opsDone < share)
  }

  ghost predicate Inv(shares: seq<nat>, b: nat, start: int, s: State) {
    && |s.workers| == |shares| && 0 < b
    && s.counter == start + |s.log|
    && (forall i :: 0 <= i < |s.log| ==> s.log[i].1 == start + i)
    && |s.log| == Sum(AllDrawn(b, s.workers))
    && (forall t :: 0 <= t < |shares| ==> WorkerInv(shares[t], b, s.workers[t]))
  }

  lemma {:induction false} SumOfZeros(xs: seq<int>)
    requires forall i :: 0 <= i < |xs| ==> xs[i] == 0
    ensures Sum(xs) == 0
    decreases |xs|
  {
    if xs != [] { SumOfZeros(xs[..|xs| - 1]); }
  }

  lemma StepInv(shares: seq<nat>, b: nat, start: int, s: State, t: nat)
    requires Inv(shares, b, start, s)
    ensures Inv(shares, b, start, Step(shares, b, s, t))
  {
    var s' := Step(shares, b, s, t);
    if t < |shares| {
      assert WorkerInv(shares[t], b, s.workers[t]);
      SumUpdate(AllDrawn(b, s.workers), t, Drawn(b, s'.workers[t]));
      assert AllDrawn(b, s'.workers) == AllDrawn(b, s.workers)[t := Drawn(b, s'.workers[t])];
    }
  }

  lemma {:induction false} RunInv(shares: seq<nat>, b: nat, start: int, s: State, schedule: seq<nat>)
    requires Inv(shares, b, start, s)
    ensures Inv(shares, b, start, Run(shares, b, s, schedule))
    decreases |schedule|
  {
    if schedule != [] {
      StepInv(shares, b, start, s, schedule[0]);
      RunInv(shares, b, start, Step(shares, b, s, schedule[0]), schedule[1..]);
    }
  }

  lemma {:induction false} SumBetween(lo: seq<int>, xs: seq<int>, slack: nat)
    requires |lo| == |xs| && forall i :: 0 <= i < |xs| ==> lo[i] <= xs[i] <= lo[i] + slack
    ensures Sum(lo) <= Sum(xs) <= Sum(lo) + |xs| * slack
    decreases |xs|
  {
    if xs != [] {
      SumBetween(lo[..|lo| - 1], xs[..|xs| - 1], slack);
      assert |xs| * slack == (|xs| - 1) * slack + slack;
    }
  }

  /** In every interleaving of a complete load, the key numbers drawn are consecutive from
      the insert start, each drawn once, at least the total; without batching exactly the
      total, with batches of b at most threads * (b - 1) more. */
  lemma LoadDrawsEachKeyOnce(total: nat, threads: nat, b: nat, start: int, schedule: seq<nat>)
    requires 0 < threads <= total && 0 < b
    requires Complete(Shares(total, threads), Run(Shares(total, threads), b, Init(start, threads), schedule))
    ensures var s := Run(Shares(total, threads), b, Init(start, threads), schedule);
            && (forall i :: 0 <= i < |s.log| ==> s.log[i].1 == start + i)
            && s.counter == start + |s.log|
            && total <= |s.log| <= total + threads * (b - 1)
            && (b == 1 ==> |s.log| == total)
  {
    var shares := Shares(total, threads);
    InitInv(total, threads, b, start);
    RunInv(shares, b, start, Init(start, threads), schedule);
    CompleteDraws(shares, b, start, Run(shares, b, Init(start, threads), schedule));
    SplitIsExact(total, threads);
  }

  lemma InitInv(total: nat, threads: nat, b: nat, start: int)
    requires 0 < threads <= total && 0 < b
    ensures Inv(Shares(total, threads), b, start, Init(start, threads))
  {
    SplitIsExact(total, threads);
    SumOfZeros(AllDrawn(b, Init(start, threads).workers));
  }

  lemma CompleteDraws(shares: seq<nat>, b: nat, start: int, s: State)
    requires Inv(shares, b, start, s) && Complete(shares, s)
    ensures Sum(shares) <= |s.log| <= Sum(shares) + |shares| * (b - 1)
  {
    forall t | 0 <= t < |shares| ensures shares[t] <= AllDrawn(b, s.workers)[t] <= shares[t] + (b - 1) {
      assert WorkerInv(shares[t], b, s.workers[t]);
    }
    SumBetween(shares, AllDrawn(b, s.workers), b - 1);
  }

  // ---------- The load completes ----------

  /** What a worker still has to do, in steps of all its batches. */
  function Left(share: nat, b: nat, w: Worker): int {
    (if w.opsDone < share then share - w.opsDone else 0) * (b + 1)
      - (if w.pending > 0 then b + 1 - w.pending else 0)
  }

  function AllLeft(shares: seq<nat>, b: nat, ws: seq<Worker>): seq<int>
    requires |shares| == |ws|
  {
    seq(|ws|, i requires 0 <= i < |ws| => Left(shares[i], b, ws[i]))
  }

  /** Every step of a worker that is not done brings the load closer to its end. */
  lemma StepMakesProgress(shares: seq<nat>, b: nat, start: int, s: State, t: nat)
    requires Inv(shares, b, start, s) && t < |shares|
    requires s.workers[t].pending > 0 || s.workers[t].opsDone < shares[t]
    ensures |Step(shares, b, s, t).workers| == |shares|
    ensures Sum(AllLeft(shares, b, Step(shares, b, s, t).workers)) < Sum(AllLeft(shares, b, s.workers))
    ensures 0 <= Sum(AllLeft(shares, b, s.workers))
  {
    var s', w := Step(shares, b, s, t), s.workers[t];
    assert WorkerInv(shares[t], b, w);
    LeftDecreases(shares[t], b, w, s'.workers[t]);
    SumUpdate(AllLeft(shares, b, s.workers), t, Left(shares[t], b, s'.workers[t]));
    assert AllLeft(shares, b, s'.workers) == AllLeft(shares, b, s.workers)[t := Left(shares[t], b, s'.workers[t])];
    forall i | 0 <= i < |shares| ensures 0 <= AllLeft(shares, b, s.workers)[i] {
      assert WorkerInv(shares[i], b, s.workers[i]);
      LeftNonNegative(shares[i], b, s.workers[i]);
    }
    SumNonNegative(AllLeft(shares, b, s.workers));
  }

  lemma LeftDecreases(share: nat, b: nat, w: Worker, w': Worker)
    requires 0 < b && w.pending <= b && w.opsDone < share
    requires if w.pending > 0
             then w' == Worker(if w.pending == 1 then w.opsDone + b else w.opsDone, w.pending - 1)
             else w' == w.(pending := b)
    ensures Left(share, b, w') < Left(share, b, w)
  {
    if w.pending == 1 {
      var d := share - w.opsDone;
      var d' := if w'.opsDone < share then share - w'.opsDone else 0;
      FewerTimes(d', d, b + 1);
    }
  }

  lemma FewerTimes(c: nat, d: nat, m: nat)
    requires c <= d - 1
    ensures c * m <= d * m - m
  {
    assert (d - 1 - c) * m >= 0;
    assert d * m == c * m + (d - 1 - c) * m + m;
  }

  lemma LeftNonNegative(share: nat, b: nat, w: Worker)
    requires WorkerInv(share, b, w)
    ensures 0 <= Left(share, b, w)
  {
    if w.opsDone < share { AtLeastOnce(share - w.opsDone, b + 1); }
  }

  lemma AtLeastOnce(d: nat, m: nat)
    requires 1 <= d
    ensures m <= d * m
  {
    assert d * m == (d - 1) * m + m;
  }

  lemma {:induction false} SumNonNegative(xs: seq<int>)
    requires forall i :: 0 <= i < |xs| ==> 0 <= xs[i]
    ensures 0 <= Sum(xs)
    decreases |xs|
  {
    if xs != [] { SumNonNegative(xs[..|xs| - 1]); }
  }
}

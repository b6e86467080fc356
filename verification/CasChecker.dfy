/** The conflict checker of cas_conflict_check.go: threads take tickets from a shared
    counter and flip the first byte of a randomly chosen key by Get and CompareAndSwap. */
module CasChecker {
  import opened ByteStrings

  type Tid = int

  /** A value of the checker: never empty. */
  type Payload = v: Bytes | v != [] witness [0]

  datatype Pc =
    | Looping                                   // about to take a ticket
    | Choosing(ticket: int)                     // about to Get some key
    | Swapping(ticket: int, key: Bytes, prev: Bytes)
    | Refilling(ticket: int, key: Bytes)        // the key was missing: about to Put
    | Finished

  /** The shared counters and the store; `refills` counts successful Puts of missing keys,
      `completed` collects worked tickets and `swaps` counts successes per key. */
  datatype State = State(
    doneCnt: nat, successCnt: nat, conflictCnt: nat, errCnt: nat,
    store: map<Bytes, Bytes>, pcs: map<Tid, Pc>,
    refills: nat, completed: set<int>, swaps: map<Bytes, nat>)

  datatype Config = Config(numOps: nat, threads: nat, value: Payload)

  /** Thread `t` steps; `key` is what its generator yields, `fails` whether its RPC fails
      (a failed RPC has no effect). */
  datatype Label = Label(t: Tid, key: Bytes, fails: bool)

  function Init(store: map<Bytes, Bytes>): State {
    State(0, 0, 0, 0, store, map[], 0, {}, map[])
  }

  function PcOf(s: State, t: Tid): Pc {
    if t in s.pcs then s.pcs[t] else Looping
  }

  function Goto(s: State, t: Tid, pc: Pc): State {
    s.(pcs := s.pcs[t := pc])
  }

  /** make([]byte, size); copy(newVal, prev) */
  function Resize(prev: Bytes, size: nat): (v: Bytes)
    ensures |v| == size && (|prev| == size ==> v == prev)
  {
    seq(size, i requires 0 <= i < size => if i < |prev| then prev[i] else 0)
  }

  /** newVal[0] ^= 0xFF */
  function Flip(v: Payload): (w: Payload)
    ensures |w| == |v|
  {
    v[0 := 255 - v[0]]
  }

  function SwapsOf(s: State, key: Bytes): nat {
    if key in s.swaps then s.swaps[key] else 0
  }

  function Finish(s: State, t: Tid, ticket: int): State {
    Goto(s, t, Looping).(completed := s.completed + {ticket})
  }

  function Step(g: Config, s: State, l: Label): State {
    if !(0 <= l.t < g.threads) then s
    else match PcOf(s, l.t)
      case Looping =>
        var n := s.doneCnt + 1;
        Goto(s, l.t, if n > g.numOps then Finished else Choosing(n)).(doneCnt := n)
      case Choosing(n) =>
        if l.fails then Finish(s, l.t, n).(errCnt := s.errCnt + 1)
        else if l.key !in s.store then Goto(s, l.t, Refilling(n, l.key))
        else Goto(s, l.t, Swapping(n, l.key, s.store[l.key]))
      case Refilling(n, key) =>
        if l.fails then Finish(s, l.t, n).(errCnt := s.errCnt + 1)
        else Finish(s, l.t, n).(store := s.store[key := g.value], refills := s.refills + 1)
      case Swapping(n, key, prev) =>
        var newVal := Flip(Resize(prev, |g.value|));
        if l.fails then Finish(s, l.t, n).(errCnt := s.errCnt + 1)
        else if key in s.store && s.store[key] == prev then
          Finish(s, l.t, n).(store := s.store[key := newVal], successCnt := s.successCnt + 1,
                             swaps := s.swaps[key := SwapsOf(s, key) + 1])
        else Finish(s, l.t, n).(conflictCnt := s.conflictCnt + 1)
      case Finished => s
  }

  function Run(g: Config, s: State, labels: seq<Label>): State
    decreases |labels|
  {
    if labels == [] then s else Run(g, Step(g, s, labels[0]), labels[1..])
  }

  // ---------- Tickets ----------

  predicate Working(pc: Pc) {
    pc.Choosing? || pc.Swapping? || pc.Refilling?
  }

  predicate Holds(s: State, t: Tid, n: int) {
    Working(PcOf(s, t)) && PcOf(s, t).ticket == n
  }

  ghost predicate PcInv(g: Config, s: State, t: Tid, pc: Pc) {
    && (Working(pc) ==> 0 <= t < g.threads && 1 <= pc.ticket <= s.doneCnt && pc.ticket <= g.numOps
                        && pc.ticket !in s.completed)
    && (pc == Finished ==> g.numOps < s.doneCnt)
  }

  /** Every ticket up to numOps that was taken is completed or held by one running thread. */
  ghost predicate TicketInv(g: Config, s: State) {
    && s.successCnt + s.conflictCnt + s.errCnt + s.refills == |s.completed|
    && (forall n :: n in s.completed ==> 1 <= n <= s.doneCnt && n <= g.numOps)
    && (forall t :: PcInv(g, s, t, PcOf(s, t)))
    && (forall t, u, n :: Holds(s, t, n) && Holds(s, u, n) ==> t == u)
    && (forall n :: 1 <= n <= s.doneCnt && n <= g.numOps && n !in s.completed ==>
          exists t :: Holds(s, t, n))
  }

  lemma StepFrame(g: Config, s: State, l: Label, u: Tid)
    requires u != l.t
    ensures PcOf(Step(g, s, l), u) == PcOf(s, u)
  {
  }

  /** A step takes a new ticket, keeps the one held, or completes it. */
  lemma OwnTicket(g: Config, s: State, l: Label)
    requires 0 <= l.t < g.threads
    ensures var pc, s' := PcOf(s, l.t), Step(g, s, l);
            match pc
            case Looping =>
              && s'.doneCnt == s.doneCnt + 1 && s'.completed == s.completed
              && PcOf(s', l.t) == if s'.doneCnt > g.numOps then Finished else Choosing(s'.doneCnt)
            case Finished => s' == s
            case _ =>
              && s'.doneCnt == s.doneCnt
              && ((Holds(s', l.t, pc.ticket) && s'.completed == s.completed
                   && s'.successCnt + s'.conflictCnt + s'.errCnt + s'.refills
                      == s.successCnt + s.conflictCnt + s.errCnt + s.refills)
                  || (PcOf(s', l.t) == Looping && s'.completed == s.completed + {pc.ticket}
                      && s'.successCnt + s'.conflictCnt + s'.errCnt + s'.refills
                         == s.successCnt + s.conflictCnt + s.errCnt + s.refills + 1))
  {
  }

  lemma StepTickets(g: Config, s: State, l: Label)
    requires TicketInv(g, s)
    ensures TicketInv(g, Step(g, s, l))
  {
    if 0 <= l.t < g.threads {
      var s', pc := Step(g, s, l), PcOf(s, l.t);
      OwnTicket(g, s, l);
      assert PcInv(g, s, l.t, pc);
      if Working(pc) { assert Holds(s, l.t, pc.ticket); }
      forall u ensures PcInv(g, s', u, PcOf(s', u)) {
        if u != l.t {
          StepFrame(g, s, l, u);
          assert PcInv(g, s, u, PcOf(s, u));
          if Working(PcOf(s, u)) { assert Holds(s, u, PcOf(s, u).ticket); }
        }
      }
      forall u, n | u != l.t ensures Holds(s', u, n) <==> Holds(s, u, n) { StepFrame(g, s, l, u); }
      forall u, n | u != l.t && Holds(s, u, n) ensures !Holds(s', l.t, n) {
        assert PcInv(g, s, u, PcOf(s, u));
      }
      forall n | 1 <= n <= s'.doneCnt && n <= g.numOps && n !in s'.completed ensures exists t :: Holds(s', t, n) {
        if n == s'.doneCnt && pc.Looping? {
          assert Holds(s', l.t, n);
        } else {
          var t :| Holds(s, t, n);
          assert Holds(s', t, n);
        }
      }
    }
  }

  // ---------- Values ----------

  /** A value after `n` flips of its first byte. */
  function Flipped(v: Payload, n: nat): Payload {
    if n % 2 == 0 then v else Flip(v)
  }

  /** Every key holds its initial value, flipped once per successful swap; pending swaps
      carry values of the right size. */
  ghost predicate ValueInv(g: Config, initial: map<Bytes, Payload>, s: State) {
    && s.refills == 0 && s.store.Keys == initial.Keys
    && (forall k :: k in initial ==> |initial[k]| == |g.value| && s.store[k] == Flipped(initial[k], SwapsOf(s, k)))
    && (forall t :: PcOf(s, t).Swapping? ==> |PcOf(s, t).prev| == |g.value|)
    && (forall t :: !PcOf(s, t).Refilling?)
  }

  lemma FlipTwice(v: Payload)
    ensures Flip(Flip(v)) == v
  {
  }

  lemma FlipOnceMore(v: Payload, n: nat)
    ensures Flip(Flipped(v, n)) == Flipped(v, n + 1)
  {
    FlipTwice(v);
  }

  /** A swap succeeds only against the current value, so it flips that value. */
  lemma SwapFlips(g: Config, initial: map<Bytes, Payload>, s: State, l: Label)
    requires ValueInv(g, initial, s) && 0 <= l.t < g.threads && PcOf(s, l.t).Swapping?
    ensures var s' := Step(g, s, l);
            && s'.store.Keys == initial.Keys
            && forall k :: k in initial ==> s'.store[k] == Flipped(initial[k], SwapsOf(s', k))
  {
    var pc := PcOf(s, l.t);
    if pc.key in initial { FlipOnceMore(initial[pc.key], SwapsOf(s, pc.key)); }
  }

  /** Any other step leaves the values alone and goes to no refill. */
  lemma QuietValues(g: Config, initial: map<Bytes, Payload>, s: State, l: Label)
    requires ValueInv(g, initial, s) && l.key in initial && !PcOf(s, l.t).Swapping?
    ensures var s' := Step(g, s, l);
            && s'.store == s.store && s'.swaps == s.swaps && s'.refills == s.refills
            && !PcOf(s', l.t).Refilling?
            && (PcOf(s', l.t).Swapping? ==> |PcOf(s', l.t).prev| == |g.value|)
  {
    assert s.store[l.key] == Flipped(initial[l.key], SwapsOf(s, l.key));
    assert !PcOf(s, l.t).Refilling?;
  }

  lemma AfterSwap(g: Config, s: State, l: Label)
    requires PcOf(s, l.t).Swapping?
    ensures var s' := Step(g, s, l);
            s'.refills == s.refills && (PcOf(s', l.t) == Looping || s' == s)
  {
  }

  lemma StepValues(g: Config, initial: map<Bytes, Payload>, s: State, l: Label)
    requires ValueInv(g, initial, s) && l.key in initial
    ensures ValueInv(g, initial, Step(g, s, l))
  {
    var s', pc := Step(g, s, l), PcOf(s, l.t);
    forall u | u != l.t ensures PcOf(s', u) == PcOf(s, u) { StepFrame(g, s, l, u); }
    if pc.Swapping? {
      AfterSwap(g, s, l);
      if 0 <= l.t < g.threads { SwapFlips(g, initial, s, l); }
    } else {
      QuietValues(g, initial, s, l);
    }
  }

  /** Choices of the generators are preloaded keys. */
  ghost predicate KeysIn(keys: set<Bytes>, labels: seq<Label>) {
    forall i :: 0 <= i < |labels| ==> labels[i].key in keys
  }

  lemma {:induction false} RunInv(g: Config, initial: map<Bytes, Payload>, s: State, labels: seq<Label>)
    requires TicketInv(g, s)
    ensures TicketInv(g, Run(g, s, labels))
    ensures ValueInv(g, initial, s) && KeysIn(initial.Keys, labels) ==> ValueInv(g, initial, Run(g, s, labels))
    decreases |labels|
  {
    if labels != [] {
      StepTickets(g, s, labels[0]);
      if ValueInv(g, initial, s) && KeysIn(initial.Keys, labels) { StepValues(g, initial, s, labels[0]); }
      RunInv(g, initial, Step(g, s, labels[0]), labels[1..]);
    }
  }

  lemma {:induction false} RangeSize(c: set<int>, n: nat)
    requires forall i :: i in c <==> 1 <= i <= n
    ensures |c| == n
    decreases n
  {
    if n == 0 {
      assert forall i :: i in c ==> i in {};
      assert c <= {};
    } else {
      assert n in c;
      RangeSize(c - {n}, n - 1);
    }
  }

  /** In every interleaving, when all threads have finished: exactly the tickets 1..numOps
      were worked, and every one of them is a success, a conflict, an error or a refill. */
  lemma TicketsAccountedFor(g: Config, store: map<Bytes, Payload>, labels: seq<Label>)
    requires 0 < g.threads
    requires forall t :: 0 <= t < g.threads ==> PcOf(Run(g, Init(store), labels), t) == Finished
    ensures var s := Run(g, Init(store), labels);
            && (forall n :: n in s.completed <==> 1 <= n <= g.numOps)
            && s.successCnt + s.conflictCnt + s.errCnt + s.refills == g.numOps
  {
    RunInv(g, store, Init(store), labels);
    var s := Run(g, Init(store), labels);
    assert PcOf(s, 0) == Finished && PcInv(g, s, 0, PcOf(s, 0));
    forall t, n ensures !Holds(s, t, n) { assert PcInv(g, s, t, PcOf(s, t)); }
    forall n ensures n in s.completed <==> 1 <= n <= g.numOps {
      assert 1 <= n <= g.numOps ==> n in s.completed || exists t :: Holds(s, t, n);
    }
    RangeSize(s.completed, g.numOps);
  }

  /** With all keys preloaded, in every reachable state nothing was refilled and every key
      holds its initial value with the first byte flipped iff its number of successful swaps
      is odd, although values recur. */
  lemma FlipsCountSwaps(g: Config, store: map<Bytes, Payload>, labels: seq<Label>)
    requires KeysIn(store.Keys, labels)
    requires forall k :: k in store ==> |store[k]| == |g.value|
    ensures var s := Run(g, Init(store), labels);
            && s.refills == 0 && s.store.Keys == store.Keys
            && forall k :: k in store ==>
                 s.store[k] == if SwapsOf(s, k) % 2 == 0 then store[k] else store[k][0 := 255 - store[k][0]]
  {
    RunInv(g, store, Init(store), labels);
  }

  // ---------- Missing keys ----------

  lemma ResizeCopies(prev: Bytes, size: nat)
    ensures |prev| <= size ==> Resize(prev, size) == prev + seq(size - |prev|, _ => 0)
    ensures size <= |prev| ==> Resize(prev, size) == prev[..size]
  {
  }

  /** What a key holds before any swap: its initial value, or the one it is refilled with. */
  function Base(g: Config, initial: map<Bytes, Payload>, key: Bytes): Payload {
    if key in initial then initial[key] else g.value
  }

  ghost predicate BaseStore(g: Config, initial: map<Bytes, Payload>, store: map<Bytes, Bytes>) {
    && (forall k :: k in initial ==> k in store && |initial[k]| == |g.value|)
    && (forall k :: k in store ==> store[k] == Base(g, initial, k) || store[k] == Flip(Base(g, initial, k)))
  }

  ghost predicate BaseInv(g: Config, initial: map<Bytes, Payload>, s: State) {
    BaseStore(g, initial, s.store) && forall t :: PcOf(s, t).Refilling? ==> PcOf(s, t).key !in initial
  }

  lemma PutBase(g: Config, initial: map<Bytes, Payload>, store: map<Bytes, Bytes>, key: Bytes, v: Bytes)
    requires BaseStore(g, initial, store) && (v == Base(g, initial, key) || v == Flip(Base(g, initial, key)))
    ensures BaseStore(g, initial, store[key := v])
  {
  }

  /** The store after a step: as it was, with the checker's value put under a missing key, or
      with the value of a key flipped. */
  lemma StepStore(g: Config, s: State, l: Label)
    ensures var pc, store' := PcOf(s, l.t), Step(g, s, l).store;
            || store' == s.store
            || (pc.Refilling? && store' == s.store[pc.key := g.value])
            || (pc.Swapping? && pc.key in s.store && s.store[pc.key] == pc.prev
                && store' == s.store[pc.key := Flip(Resize(pc.prev, |g.value|))])
  {
  }

  lemma FlipOfBase(g: Config, initial: map<Bytes, Payload>, store: map<Bytes, Bytes>, key: Bytes)
    requires BaseStore(g, initial, store) && key in store
    ensures var v := Flip(Resize(store[key], |g.value|));
            v == Base(g, initial, key) || v == Flip(Base(g, initial, key))
  {
    FlipTwice(Base(g, initial, key));
    assert Resize(store[key], |g.value|) == store[key];
  }

  lemma StepBaseStore(g: Config, initial: map<Bytes, Payload>, s: State, l: Label)
    requires BaseInv(g, initial, s)
    ensures BaseStore(g, initial, Step(g, s, l).store)
  {
    var pc := PcOf(s, l.t);
    StepStore(g, s, l);
    if pc.Refilling? {
      PutBase(g, initial, s.store, pc.key, g.value);
    } else if pc.Swapping? && pc.key in s.store && s.store[pc.key] == pc.prev {
      FlipOfBase(g, initial, s.store, pc.key);
      PutBase(g, initial, s.store, pc.key, Flip(Resize(pc.prev, |g.value|)));
    }
  }

  lemma OwnRefill(g: Config, s: State, l: Label)
    ensures var pc' := PcOf(Step(g, s, l), l.t);
            pc'.Refilling? ==> pc' == PcOf(s, l.t) || pc'.key !in s.store
  {
  }

  lemma StepBase(g: Config, initial: map<Bytes, Payload>, s: State, l: Label)
    requires BaseInv(g, initial, s)
    ensures BaseInv(g, initial, Step(g, s, l))
  {
    StepBaseStore(g, initial, s, l);
    OwnRefill(g, s, l);
    forall u | PcOf(Step(g, s, l), u).Refilling? ensures PcOf(Step(g, s, l), u).key !in initial {
      if u != l.t { StepFrame(g, s, l, u); }
    }
  }

  lemma {:induction false} RunBase(g: Config, initial: map<Bytes, Payload>, s: State, labels: seq<Label>)
    requires BaseInv(g, initial, s)
    ensures BaseInv(g, initial, Run(g, s, labels))
    decreases |labels|
  {
    if labels != [] {
      StepBase(g, initial, s, labels[0]);
      RunBase(g, initial, Step(g, s, labels[0]), labels[1..]);
    }
  }

  /** Whatever keys the generators yield and however refills and swaps of a missing key
      interleave: no key is ever removed, and every key holds its initial value or, if it was
      missing, the checker's value, possibly with the first byte flipped. */
  lemma OnlyTwoValues(g: Config, store: map<Bytes, Payload>, labels: seq<Label>)
    requires forall k :: k in store ==> |store[k]| == |g.value|
    ensures var s := Run(g, Init(store), labels);
            && (forall k :: k in store ==> k in s.store)
            && (forall k :: k in s.store ==>
                  var base := if k in store then store[k] else g.value;
                  s.store[k] == base || s.store[k] == base[0 := 255 - base[0]])
  {
    RunBase(g, store, Init(store), labels);
  }

  // ---------- Successes ----------

  /** The swaps of the listed keys. */
  function SwapsOver(s: State, keys: seq<Bytes>): nat
    decreases |keys|
  {
    if keys == [] then 0 else SwapsOf(s, keys[0]) + SwapsOver(s, keys[1..])
  }

  ghost predicate Distinct(keys: seq<Bytes>) {
    forall i, j :: 0 <= i < j < |keys| ==> keys[i] != keys[j]
  }

  lemma {:induction false} OneMoreSwap(s: State, s': State, keys: seq<Bytes>, key: Bytes)
    requires Distinct(keys) && s'.swaps == s.swaps[key := SwapsOf(s, key) + 1]
    ensures SwapsOver(s', keys) == SwapsOver(s, keys) + if key in keys then 1 else 0
    decreases |keys|
  {
    if keys != [] {
      OneMoreSwap(s, s', keys[1..], key);
      assert keys == [keys[0]] + keys[1..];
    }
  }

  lemma {:induction false} SameSwaps(s: State, s': State, keys: seq<Bytes>)
    requires s'.swaps == s.swaps
    ensures SwapsOver(s', keys) == SwapsOver(s, keys)
    decreases |keys|
  {
    if keys != [] { SameSwaps(s, s', keys[1..]); }
  }

  ghost predicate SuccessInv(s: State, keys: seq<Bytes>) {
    && s.successCnt == SwapsOver(s, keys)
    && (forall t :: PcOf(s, t).Swapping? ==> PcOf(s, t).key in keys)
  }

  /** A step counts a success exactly if it counts a swap of one key. */
  lemma StepCounts(g: Config, s: State, l: Label)
    ensures var s' := Step(g, s, l);
            || (s'.successCnt == s.successCnt && s'.swaps == s.swaps)
            || (PcOf(s, l.t).Swapping? && s'.successCnt == s.successCnt + 1
                && s'.swaps == s.swaps[PcOf(s, l.t).key := SwapsOf(s, PcOf(s, l.t).key) + 1])
    ensures PcOf(Step(g, s, l), l.t).Swapping? ==>
              PcOf(Step(g, s, l), l.t) == PcOf(s, l.t) || PcOf(Step(g, s, l), l.t).key == l.key
  {
  }

  lemma StepSuccesses(g: Config, s: State, l: Label, keys: seq<Bytes>)
    requires SuccessInv(s, keys) && Distinct(keys) && l.key in keys
    ensures SuccessInv(Step(g, s, l), keys)
  {
    var s' := Step(g, s, l);
    StepCounts(g, s, l);
    if s'.swaps == s.swaps {
      SameSwaps(s, s', keys);
    } else {
      OneMoreSwap(s, s', keys, PcOf(s, l.t).key);
    }
    forall u | PcOf(s', u).Swapping? ensures PcOf(s', u).key in keys {
      if u != l.t { StepFrame(g, s, l, u); }
    }
  }

  lemma {:induction false} RunSuccesses(g: Config, s: State, labels: seq<Label>, keys: seq<Bytes>)
    requires SuccessInv(s, keys) && Distinct(keys) && forall i :: 0 <= i < |labels| ==> labels[i].key in keys
    ensures SuccessInv(Run(g, s, labels), keys)
    decreases |labels|
  {
    if labels != [] {
      StepSuccesses(g, s, labels[0], keys);
      RunSuccesses(g, Step(g, s, labels[0]), labels[1..], keys);
    }
  }

  lemma {:induction false} NoSwapsYet(store: map<Bytes, Bytes>, keys: seq<Bytes>)
    ensures SwapsOver(Init(store), keys) == 0
    decreases |keys|
  {
    if keys != [] { NoSwapsYet(store, keys[1..]); }
  }

  /** In every interleaving the successes reported are the swaps that took effect, over all
      keys the generators may yield. */
  lemma SuccessesAreSwaps(g: Config, store: map<Bytes, Bytes>, labels: seq<Label>, keys: seq<Bytes>)
    requires Distinct(keys) && forall i :: 0 <= i < |labels| ==> labels[i].key in keys
    ensures Run(g, Init(store), labels).successCnt == SwapsOver(Run(g, Init(store), labels), keys)
  {
    NoSwapsYet(store, keys);
    RunSuccesses(g, Init(store), labels, keys);
  }

  // ---------- Which outcome ----------

  lemma {:induction false} NoFailureNoError(g: Config, s: State, labels: seq<Label>)
    requires forall i :: 0 <= i < |labels| ==> !labels[i].fails
    ensures Run(g, s, labels).errCnt == s.errCnt
    decreases |labels|
  {
    if labels != [] { NoFailureNoError(g, Step(g, s, labels[0]), labels[1..]); }
  }

  /** With one thread a pending swap always matches the store. */
  ghost predicate SoloInv(s: State) {
    && s.conflictCnt == 0
    && (PcOf(s, 0).Swapping? ==> PcOf(s, 0).key in s.store && s.store[PcOf(s, 0).key] == PcOf(s, 0).prev)
  }

  lemma {:induction false} OneThreadNeverConflicts(g: Config, s: State, labels: seq<Label>)
    requires g.threads == 1 && SoloInv(s)
    ensures SoloInv(Run(g, s, labels))
    decreases |labels|
  {
    if labels != [] { OneThreadNeverConflicts(g, Step(g, s, labels[0]), labels[1..]); }
  }

  /** One thread, all keys preloaded, no RPC failure: every operation is a success. */
  lemma OneThreadAllSucceed(g: Config, store: map<Bytes, Payload>, labels: seq<Label>)
    requires g.threads == 1 && KeysIn(store.Keys, labels)
    requires forall k :: k in store ==> |store[k]| == |g.value|
    requires forall i :: 0 <= i < |labels| ==> !labels[i].fails
    requires PcOf(Run(g, Init(store), labels), 0) == Finished
    ensures Run(g, Init(store), labels).successCnt == g.numOps
  {
    NoFailureNoError(g, Init(store), labels);
    OneThreadNeverConflicts(g, Init(store), labels);
    FlipsCountSwaps(g, store, labels);
    TicketsAccountedFor(g, store, labels);
  }

  // ---------- The run ends ----------

  /** How far a thread is from its next loop head or its end. */
  function Stage(pc: Pc): nat {
    match pc
    case Finished => 0
    case Looping => 1
    case Swapping(_, _, _) => 2
    case Refilling(_, _) => 2
    case Choosing(_) => 3
  }

  function Stages(s: State, threads: nat): nat {
    if threads == 0 then 0 else Stages(s, threads - 1) + Stage(PcOf(s, threads - 1))
  }

  lemma {:induction false} StagesChange(s: State, s': State, threads: nat, t: Tid)
    requires forall u :: u != t ==> PcOf(s', u) == PcOf(s, u)
    ensures Stages(s', threads) == Stages(s, threads)
              + if 0 <= t < threads then Stage(PcOf(s', t)) - Stage(PcOf(s, t)) else 0
    decreases threads
  {
    if threads != 0 { StagesChange(s, s', threads - 1, t); }
  }

  /** Three steps for each ticket left, and what the threads have under way. */
  function Work(g: Config, s: State): nat {
    Stages(s, g.threads) + if s.doneCnt < g.numOps then 3 * (g.numOps - s.doneCnt) else 0
  }

  /** Every step of an unfinished thread brings the run closer to its end, so every schedule
      that keeps running unfinished threads ends with all of them finished. */
  lemma StepMakesProgress(g: Config, s: State, l: Label)
    requires 0 <= l.t < g.threads && PcOf(s, l.t) != Finished
    ensures Work(g, Step(g, s, l)) < Work(g, s)
  {
    var s' := Step(g, s, l);
    forall u | u != l.t ensures PcOf(s', u) == PcOf(s, u) { StepFrame(g, s, l, u); }
    StagesChange(s, s', g.threads, l.t);
    OwnTicket(g, s, l);
  }
}

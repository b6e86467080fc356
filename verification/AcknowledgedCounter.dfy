/** The acknowledged counter as an object: each method runs to completion. */
module AcknowledgedCounters {
  import opened AckWindow

  /** Slot `k` belongs to one of the values lo+1 .. hi. */
  ghost predicate InDrained(k: int, lo: int, hi: int) {
    exists j :: lo < j <= hi && Slot(j) == k
  }

  /** What the drain makes of window `w` and `limit`: the values limit+1 .. limit' are
      those whose slots are set, up to the first that is not, the guard, or once around;
      their slots are cleared and no other slot changes. */
  ghost predicate DrainEffect(w: seq<bool>, limit: int, w': seq<bool>, limit': int)
    requires |w| == |w'| == WINDOW_SIZE
  {
    && limit <= limit' <= limit + WINDOW_SIZE
    && (forall j :: limit < j <= limit' ==> w[Slot(j)])
    && !(limit < Slot(limit) <= limit')
    && (limit' + 1 == Slot(limit) || limit' == limit + WINDOW_SIZE || !w[Slot(limit' + 1)])
    && (forall k :: 0 <= k < WINDOW_SIZE ==> w'[k] == (w[k] && !InDrained(k, limit, limit')))
  }

  /** The window holds exactly the acknowledged values above `limit`, all of them within
      one window of it, and everything up to `limit` is acknowledged. */
  ghost predicate Consistent(w: seq<bool>, limit: int, start: int, acked: set<int>)
    requires |w| == WINDOW_SIZE
  {
    && start <= limit + 1
    && (forall v :: v in acked ==> start <= v <= limit + WINDOW_SIZE)
    && AllAcked(acked, start, limit)
    && (forall v :: v in acked && limit < v ==> w[Slot(v)])
    && (forall k :: 0 <= k < WINDOW_SIZE && w[k] ==> Marked(acked, limit, k))
  }

  ghost predicate Marked(acked: set<int>, limit: int, k: int) {
    exists v :: v in acked && limit < v && Slot(v) == k
  }

  class AcknowledgedCounter {
    var counter: int
    const window: array<bool>
    var limit: int
    ghost const start: int
    ghost var acked: set<int>

    ghost predicate Valid()
      reads this, window
    {
      window.Length == WINDOW_SIZE && Consistent(window[..], limit, start, acked)
    }

    constructor (start: int)
      ensures Valid() && fresh(window)
      ensures counter == start && limit == start - 1 && this.start == start && acked == {}
    {
      counter := start;
      window := new bool[WINDOW_SIZE](_ => false);
      limit := start - 1;
      this.start := start;
      acked := {};
    }

    method Next() returns (value: int)
      modifies this`counter
      ensures value == old(counter) && counter == value + 1
    {
      counter := counter + 1;
      value := counter - 1;
    }

    method Last() returns (value: int)
      requires Valid()
      ensures value == limit && AllAcked(acked, start, value)
    {
      value := limit;
    }

    /** The panic is reported as a result.  The effect on window and limit is stated for
        every value; for an unacknowledged value within one window of Last() there is no
        panic and Last() becomes the end of the longest acknowledged prefix, exactly
        unless the guard fires. */
    method Acknowledge(value: int) returns (panicked: bool)
      requires window.Length == WINDOW_SIZE
      modifies window, this`limit, this`acked
      ensures panicked == old(window[Slot(value)])
      ensures panicked ==> window[..] == old(window[..]) && limit == old(limit) && acked == old(acked)
      ensures !panicked ==> acked == old(acked) + {value}
      ensures !panicked ==> DrainEffect(old(window[..])[Slot(value) := true], old(limit), window[..], limit)
      ensures old(Valid()) && value !in old(acked) && old(limit) < value <= old(limit) + WINDOW_SIZE ==>
                && !panicked && Valid()
                && (IsLongestPrefix(acked, start, limit) <==> !GuardFires(acked, old(limit)))
    {
      var currentSlot := Slot(value);
      if window[currentSlot] {
        if Consistent(window[..], limit, start, acked) && limit < value <= limit + WINDOW_SIZE {
          CollisionIsDouble(window[..], limit, start, acked, value);
        }
        return true;
      }
      panicked := false;
      ghost var w, oldLimit := window[..], limit;
      window[currentSlot] := true;
      acked := acked + {value};
      assert window[..] == w[Slot(value) := true];
      Drain();
      if Consistent(w, oldLimit, start, old(acked)) && value !in old(acked) && oldLimit < value <= oldLimit + WINDOW_SIZE {
        AckKeepsConsistent(w, oldLimit, start, old(acked), value, window[..], limit);
      }
    }

    /** The loop under the lock: moves a contiguous sequence from the window to `limit`.
        It ends for every window and limit. */
    method Drain()
      requires window.Length == WINDOW_SIZE
      modifies window, this`limit
      ensures DrainEffect(old(window[..]), old(limit), window[..], limit)
    {
      ghost var w := window[..];
      var beforeFirstSlot := Slot(limit);
      var index := limit + 1;
      DrainBegins(w, limit);
      while index != beforeFirstSlot
        invariant limit == old(limit)
        invariant Draining(w, limit, window[..], index)
        decreases limit + WINDOW_SIZE + 1 - index
      {
        var slot := Slot(index);
        if !window[slot] {
          DrainStops(w, limit, window[..], index);
          break;
        }
        DrainAdvances(w, limit, window[..], index);
        window[slot] := false;
        index := index + 1;
      }
      limit := index - 1;
    }
  }

  /** The loop invariant of the drain at `index`, with `now` the current window. */
  ghost predicate Draining(w: seq<bool>, limit: int, now: seq<bool>, index: int) {
    && |w| == |now| == WINDOW_SIZE
    && limit < index <= limit + WINDOW_SIZE + 1
    && !(limit < Slot(limit) < index)
    && (forall j :: limit < j < index ==> w[Slot(j)])
    && (forall k :: 0 <= k < WINDOW_SIZE ==> now[k] == (w[k] && !InDrained(k, limit, index - 1)))
  }

  lemma DrainBegins(w: seq<bool>, limit: int)
    requires |w| == WINDOW_SIZE
    ensures Draining(w, limit, w, limit + 1)
  {
  }

  /** Once around, the slot is one that has been cleared. */
  lemma NotOnceAround(w: seq<bool>, limit: int, now: seq<bool>, index: int)
    requires Draining(w, limit, now, index) && now[Slot(index)]
    ensures index <= limit + WINDOW_SIZE
  {
    assert Slot(limit + 1) == Slot(limit + WINDOW_SIZE + 1);
    assert limit + 1 <= index - 1 ==> InDrained(Slot(limit + 1), limit, index - 1);
  }

  /** A set slot can be cleared and the index advanced. */
  lemma DrainAdvances(w: seq<bool>, limit: int, now: seq<bool>, index: int)
    requires Draining(w, limit, now, index) && index != Slot(limit) && now[Slot(index)]
    ensures Draining(w, limit, now[Slot(index) := false], index + 1)
  {
    NotOnceAround(w, limit, now, index);
    forall k | 0 <= k < WINDOW_SIZE
      ensures InDrained(k, limit, index) <==> InDrained(k, limit, index - 1) || k == Slot(index)
    {
      DrainedExtends(k, limit, index);
    }
  }

  /** An unset one ends the drain, because the value is unmarked or the loop has gone once
      around. */
  lemma DrainStops(w: seq<bool>, limit: int, now: seq<bool>, index: int)
    requires Draining(w, limit, now, index) && index != Slot(limit) && !now[Slot(index)]
    ensures DrainEffect(w, limit, now, index - 1)
  {
    if index <= limit + WINDOW_SIZE && InDrained(Slot(index), limit, index - 1) {
      var j :| limit < j <= index - 1 && Slot(j) == Slot(index);
      SlotInjectiveInWindow(limit, j, index);
    }
  }

  lemma DrainedExtends(k: int, lo: int, hi: int)
    requires lo < hi
    ensures InDrained(k, lo, hi) <==> InDrained(k, lo, hi - 1) || k == Slot(hi)
  {
    if k == Slot(hi) { assert lo < hi <= hi && Slot(hi) == k; }
  }

  lemma CollisionIsDouble(w: seq<bool>, limit: int, start: int, acked: set<int>, value: int)
    requires |w| == WINDOW_SIZE && Consistent(w, limit, start, acked)
    requires limit < value <= limit + WINDOW_SIZE && w[Slot(value)]
    ensures value in acked
  {
    assert Marked(acked, limit, Slot(value));
    var v :| v in acked && limit < v && Slot(v) == Slot(value);
    SlotInjectiveInWindow(limit, v, value);
  }

  /** Within one window of `limit`, a slot is set exactly for the acknowledged values and
      for the value congruent to the one just marked. */
  lemma SetIffAcked(w: seq<bool>, limit: int, start: int, acked: set<int>, value: int, j: int)
    requires |w| == WINDOW_SIZE && Consistent(w, limit, start, acked)
    requires limit < j <= limit + WINDOW_SIZE
    ensures w[Slot(value) := true][Slot(j)] <==> j in acked || Slot(j) == Slot(value)
  {
    if w[Slot(j)] { CollisionIsDouble(w, limit, start, acked, j); }
  }

  /** Acknowledging a new value within the window keeps the window consistent and makes
      limit' the end of the longest acknowledged prefix, exactly unless the guard fires. */
  lemma AckKeepsConsistent(w: seq<bool>, limit: int, start: int, acked: set<int>, value: int,
                           w': seq<bool>, limit': int)
    requires |w| == |w'| == WINDOW_SIZE && Consistent(w, limit, start, acked)
    requires limit < value <= limit + WINDOW_SIZE && value !in acked
    requires DrainEffect(w[Slot(value) := true], limit, w', limit')
    ensures Consistent(w', limit', start, acked + {value})
    ensures IsLongestPrefix(acked + {value}, start, limit') <==> !GuardFires(acked + {value}, limit)
  {
    var acked' := acked + {value};
    var w1 := w[Slot(value) := true];
    forall j | limit < j <= limit + WINDOW_SIZE
      ensures w1[Slot(j)] <==> j in acked'
    {
      SetIffAcked(w, limit, start, acked, value, j);
      if Slot(j) == Slot(value) { SlotInjectiveInWindow(limit, j, value); }
    }
    AckPrefix(w1, limit, start, acked', w', limit');
    forall v | v in acked' && limit' < v ensures w'[Slot(v)] {
      if InDrained(Slot(v), limit, limit') {
        var j :| limit < j <= limit' && Slot(j) == Slot(v);
        SlotInjectiveInWindow(limit, j, v);
      }
    }
    forall k | 0 <= k < WINDOW_SIZE && w'[k] ensures Marked(acked', limit', k) {
      var v := MarkOf(w, limit, start, acked, value, k);
      assert !(limit < v <= limit' && Slot(v) == k);
    }
  }

  lemma MarkOf(w: seq<bool>, limit: int, start: int, acked: set<int>, value: int, k: int) returns (v: int)
    requires |w| == WINDOW_SIZE && Consistent(w, limit, start, acked) && limit < value
    requires 0 <= k < WINDOW_SIZE && w[Slot(value) := true][k]
    ensures v in acked + {value} && limit < v && Slot(v) == k
  {
    if k == Slot(value) {
      v := value;
    } else {
      assert Marked(acked, limit, k);
      v :| v in acked && limit < v && Slot(v) == k;
    }
  }

  lemma AckPrefix(w1: seq<bool>, limit: int, start: int, acked: set<int>, w': seq<bool>, limit': int)
    requires |w1| == |w'| == WINDOW_SIZE && start <= limit + 1 && AllAcked(acked, start, limit)
    requires forall v :: v in acked ==> v <= limit + WINDOW_SIZE
    requires forall j :: limit < j <= limit + WINDOW_SIZE ==> (w1[Slot(j)] <==> j in acked)
    requires DrainEffect(w1, limit, w', limit')
    ensures AllAcked(acked, start, limit')
    ensures limit' + 1 !in acked <==> !GuardFires(acked, limit)
  {
    var top := limit + WINDOW_SIZE;
    GuardPosition(limit, top);
    forall j | limit < j <= limit' ensures j in acked { assert w1[Slot(j)]; }
    if limit' < top {
      GuardPosition(limit, limit' + 1);
      if limit' + 1 in acked {
        assert w1[Slot(limit' + 1)];
        assert AllAcked(acked, limit + 1, top);
      }
    }
  }

  /** The value within one window of `limit` that shares its slot with `value`. */
  function Alias(limit: int, value: int): (u: int)
    ensures limit < u <= limit + WINDOW_SIZE && Slot(u) == Slot(value)
  {
    AliasSlot(limit, value);
    limit + 1 + (value - limit - 1) % WINDOW_SIZE
  }

  lemma AliasSlot(limit: int, value: int)
    ensures Slot(limit + 1 + (value - limit - 1) % WINDOW_SIZE) == Slot(value)
  {
    var d := value - limit - 1;
    assert d == WINDOW_SIZE * (d / WINDOW_SIZE) + d % WINDOW_SIZE;
    assert value == limit + 1 + d % WINDOW_SIZE + WINDOW_SIZE * (d / WINDOW_SIZE);
  }

  /** Without the window hypothesis the panic is not a sufficient check.  Acknowledging a
      value more than one window ahead of Last() without a panic leaves Last() sound if
      and only if the drain does not run up to the pending value with the same slot. */
  lemma OverrunIsSafeIff(w: seq<bool>, limit: int, start: int, acked: set<int>, value: int,
                         w': seq<bool>, limit': int)
    requires |w| == |w'| == WINDOW_SIZE && Consistent(w, limit, start, acked)
    requires limit + WINDOW_SIZE < value && !w[Slot(value)]
    requires DrainEffect(w[Slot(value) := true], limit, w', limit')
    ensures var u := Alias(limit, value);
            AllAcked(acked + {value}, start, limit') <==>
            (!AllAcked(acked, limit + 1, u - 1) || u == Slot(limit))
  {
    var u := Alias(limit, value);
    var w1 := w[Slot(value) := true];
    forall j | limit < j <= limit + WINDOW_SIZE
      ensures w1[Slot(j)] <==> j in acked || j == u
    {
      SetIffAcked(w, limit, start, acked, value, j);
      if Slot(j) == Slot(u) { SlotInjectiveInWindow(limit, j, u); }
    }
    assert u !in acked;
    GuardPosition(limit, u);
    if limit' < limit + WINDOW_SIZE { GuardPosition(limit, limit' + 1); }
    if AllAcked(acked, limit + 1, u - 1) && u != Slot(limit) {
      assert start <= u <= limit' && u !in acked + {value};
    } else if u == Slot(limit) {
      assert limit' < u;
    } else {
      var g :| limit + 1 <= g <= u - 1 && g !in acked;
      assert !w1[Slot(g)];
      assert limit' < g;
    }
  }

  /** The failing family is not empty: with 1 .. WINDOW_SIZE + 1 drawn and nothing
      acknowledged, acknowledging the last one makes Last() report the pending key 1. */
  lemma OverrunReportsPendingKey(w: seq<bool>, w': seq<bool>, limit': int)
    requires |w| == |w'| == WINDOW_SIZE && Consistent(w, 0, 1, {})
    requires DrainEffect(w[Slot(WINDOW_SIZE + 1) := true], 0, w', limit')
    ensures !w[Slot(WINDOW_SIZE + 1)] && 1 <= limit' && 1 !in {WINDOW_SIZE + 1}
  {
    assert !Marked({}, 0, Slot(WINDOW_SIZE + 1));
    OverrunIsSafeIff(w, 0, 1, {}, WINDOW_SIZE + 1, w', limit');
    assert Alias(0, WINDOW_SIZE + 1) == 1;
  }

  /** The guard does fire: with 1 .. WINDOW_SIZE - 1 acknowledged from a start at 0,
      acknowledging 0 stops one key short of the acknowledged prefix. */
  lemma GuardStopsShort(w: seq<bool>, acked: set<int>, w': seq<bool>, limit': int)
    requires |w| == |w'| == WINDOW_SIZE
    requires (forall v :: v in acked <==> 1 <= v < WINDOW_SIZE) && Consistent(w, -1, 0, acked)
    requires DrainEffect(w[Slot(0) := true], -1, w', limit')
    ensures !w[Slot(0)] && GuardFires(acked + {0}, -1)
    ensures limit' == WINDOW_SIZE - 2 && IsLongestPrefix(acked + {0}, 0, limit' + 1)
  {
    if w[Slot(0)] { CollisionIsDouble(w, -1, 0, acked, 0); }
    forall j | -1 < j <= -1 + WINDOW_SIZE ensures w[Slot(0) := true][Slot(j)] {
      SetIffAcked(w, -1, 0, acked, 0, j);
    }
    GuardPosition(-1, WINDOW_SIZE - 1);
    if limit' < WINDOW_SIZE - 2 { GuardPosition(-1, limit' + 1); }
  }

  /** Such a window exists. */
  lemma FullButOne() returns (w: seq<bool>, acked: set<int>)
    ensures |w| == WINDOW_SIZE
    ensures (forall v :: v in acked <==> 1 <= v < WINDOW_SIZE) && Consistent(w, -1, 0, acked)
  {
    w := seq(WINDOW_SIZE, k => k != 0);
    acked := set v | 1 <= v < WINDOW_SIZE && Slot(v) == v;
    forall k | 0 <= k < WINDOW_SIZE && w[k] ensures Marked(acked, -1, k) {
      assert k in acked && Slot(k) == k;
    }
  }
}

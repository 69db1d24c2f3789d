/** The arithmetic of round-robin selection: which position of a pool of
    `n` servers a call made with cursor value `cursor` picks, and which
    positions a run of consecutive calls picks. */
module RoundRobinSchedule {

  /** The position picked by one round-robin call made while the cursor is
      `cursor`, in a pool of `n` servers (the source's `Current % len`). */
  function Slot(cursor: nat, n: nat): (i: nat)
    requires n > 0
    ensures i < n
    ensures i <= cursor
    ensures cursor < n ==> i == cursor
  {
    cursor % n
  }

  /** Advancing the cursor by one moves the picked position one step
      forward, wrapping from the last position to the first. */
  lemma SlotNext(cursor: nat, n: nat)
    requires n > 0
    ensures Slot(cursor + 1, n) == if Slot(cursor, n) == n - 1 then 0 else Slot(cursor, n) + 1
  {
    var q, r := cursor / n, cursor % n;
    assert cursor == q * n + r;
    if r == n - 1 {
      DivModUnique(cursor + 1, n, q + 1, 0);
    } else {
      DivModUnique(cursor + 1, n, q, r + 1);
    }
  }

  lemma {:induction false} MulAtLeast(d: int, n: int)
    requires d >= 1 && n > 0
    ensures d * n >= n
    decreases d
  {
    if d > 1 {
      MulAtLeast(d - 1, n);
      assert d * n == (d - 1) * n + n;
    }
  }

  /** Quotient and remainder are the only pair with x == q * n + r and 0 <= r < n. */
  lemma DivModUnique(x: int, n: int, q: int, r: int)
    requires n > 0 && 0 <= r < n && x == q * n + r
    ensures x / n == q && x % n == r
  {
    var q', r' := x / n, x % n;
    assert x == q' * n + r' && 0 <= r' < n;
    var d := q - q';
    assert d * n == r' - r;
    if d >= 1 {
      MulAtLeast(d, n);
    } else if d <= -1 {
      MulAtLeast(-d, n);
    }
  }

  /** The positions picked by `m` consecutive round-robin calls, the first
      made while the cursor is `cursor`; every call moves the cursor by one. */
  function Positions(cursor: nat, n: nat, m: nat): (ps: seq<nat>)
    requires n > 0
    ensures |ps| == m
    ensures forall j :: 0 <= j < m ==> ps[j] < n
    decreases m
  {
    if m == 0 then [] else [Slot(cursor, n)] + Positions(cursor + 1, n, m - 1)
  }

  /** The ascending run of positions lo, lo + 1, ..., hi - 1. */
  function Range(lo: nat, hi: nat): (s: seq<nat>)
    requires lo <= hi
    ensures |s| == hi - lo
    ensures forall j :: 0 <= j < |s| ==> s[j] == lo + j
    decreases hi - lo
  {
    if lo == hi then [] else [lo] + Range(lo + 1, hi)
  }

  /** The j-th call of a run is the call made with cursor `cursor + j`. */
  lemma {:induction false} PositionsAt(cursor: nat, n: nat, m: nat, j: nat)
    requires n > 0 && j < m
    ensures Positions(cursor, n, m)[j] == Slot(cursor + j, n)
    decreases m
  {
    if j > 0 {
      PositionsAt(cursor + 1, n, m - 1, j - 1);
    }
  }

  /** A run of a + b calls is a run of a calls followed by a run of b calls
      that starts where the first one left the cursor. */
  lemma {:induction false} PositionsSplit(cursor: nat, n: nat, a: nat, b: nat)
    requires n > 0
    ensures Positions(cursor, n, a + b) == Positions(cursor, n, a) + Positions(cursor + a, n, b)
    decreases a
  {
    if a > 0 {
      PositionsSplit(cursor + 1, n, a - 1, b);
      assert Positions(cursor, n, a + b) == [Slot(cursor, n)] + Positions(cursor + 1, n, (a - 1) + b);
    }
  }

  /** As long as no wrap-around happens, consecutive calls pick consecutive
      positions, and the cursor afterwards points just past them. */
  lemma {:induction false} PositionsAscending(cursor: nat, n: nat, m: nat)
    requires n > 0 && Slot(cursor, n) + m <= n
    ensures Positions(cursor, n, m) == Range(Slot(cursor, n), Slot(cursor, n) + m)
    ensures Slot(cursor + m, n) == if Slot(cursor, n) + m == n then 0 else Slot(cursor, n) + m
    decreases m
  {
    var r := Slot(cursor, n);
    if m == 0 {
    } else {
      SlotNext(cursor, n);
      if r + 1 == n {
        assert m == 1;
        assert Positions(cursor, n, 1) == [r];
      } else {
        PositionsAscending(cursor + 1, n, m - 1);
        assert cursor + 1 + (m - 1) == cursor + m;
      }
    }
  }

  /** A window of n consecutive calls over a pool of n servers visits the
      positions in cyclic order, starting at the position the cursor points
      to: Slot, Slot + 1, ..., n - 1, 0, 1, ..., Slot - 1. */
  lemma FullWindowRotation(cursor: nat, n: nat)
    requires n > 0
    ensures Positions(cursor, n, n) == Range(Slot(cursor, n), n) + Range(0, Slot(cursor, n))
  {
    var r := Slot(cursor, n);
    PositionsSplit(cursor, n, n - r, r);
    PositionsAscending(cursor, n, n - r);
    var next := cursor + (n - r);
    assert Slot(next, n) == 0;
    PositionsAscending(next, n, r);
  }

  /** Each value of lo..hi-1 occurs once in Range(lo, hi), and nothing else does. */
  lemma {:induction false} RangeCount(lo: nat, hi: nat, p: nat)
    requires lo <= hi
    ensures multiset(Range(lo, hi))[p] == if lo <= p < hi then 1 else 0
    decreases hi - lo
  {
    if lo < hi {
      RangeCount(lo + 1, hi, p);
      assert multiset(Range(lo, hi)) == multiset([lo]) + multiset(Range(lo + 1, hi));
    }
  }

  /** Over any window of n consecutive calls, every position of a pool of n
      servers is picked exactly once, whatever the cursor at the start. */
  lemma FullWindowExactlyOnce(cursor: nat, n: nat, p: nat)
    requires n > 0 && p < n
    ensures multiset(Positions(cursor, n, n))[p] == 1
  {
    var r := Slot(cursor, n);
    FullWindowRotation(cursor, n);
    RangeCount(r, n, p);
    RangeCount(0, r, p);
  }

  /** A window of m <= n calls picks no position twice. */
  lemma ShortWindowAtMostOnce(cursor: nat, n: nat, m: nat, p: nat)
    requires n > 0 && m <= n && p < n
    ensures multiset(Positions(cursor, n, m))[p] <= 1
  {
    PositionsSplit(cursor, n, m, n - m);
    FullWindowExactlyOnce(cursor, n, p);
    assert m + (n - m) == n;
  }

  /** Counting form of fairness: a window of q * n + r calls (r < n) picks
      every position q or q + 1 times, and exactly q times when r == 0. */
  lemma {:induction false} WindowCount(cursor: nat, n: nat, q: nat, r: nat, p: nat)
    requires r < n && p < n
    ensures q <= multiset(Positions(cursor, n, q * n + r))[p] <= q + 1
    ensures r == 0 ==> multiset(Positions(cursor, n, q * n + r))[p] == q
    decreases q
  {
    if q == 0 {
      ShortWindowAtMostOnce(cursor, n, r, p);
      if r == 0 {
        assert Positions(cursor, n, 0) == [];
      }
    } else {
      var rest := (q - 1) * n + r;
      MulStep(q, n);
      CountSplit(cursor, n, n, rest, p);
      FullWindowExactlyOnce(cursor, n, p);
      WindowCount(cursor + n, n, q - 1, r, p);
    }
  }

  lemma MulStep(q: nat, n: nat)
    requires q > 0
    ensures q * n == (q - 1) * n + n
  {
  }

  /** The count of p over a run of a + b calls adds up over its two parts. */
  lemma CountSplit(cursor: nat, n: nat, a: nat, b: nat, p: nat)
    requires n > 0
    ensures multiset(Positions(cursor, n, a + b))[p]
         == multiset(Positions(cursor, n, a))[p] + multiset(Positions(cursor + a, n, b))[p]
  {
    PositionsSplit(cursor, n, a, b);
    var first, second := Positions(cursor, n, a), Positions(cursor + a, n, b);
    assert multiset(first + second) == multiset(first) + multiset(second);
  }

  /** Fairness over any window of m consecutive calls: every position of a
      pool of n servers is picked either floor(m / n) or floor(m / n) + 1
      times, and exactly m / n times when n divides m. */
  lemma WindowFairness(cursor: nat, n: nat, m: nat, p: nat)
    requires n > 0 && p < n
    ensures m / n <= multiset(Positions(cursor, n, m))[p] <= m / n + 1
    ensures m % n == 0 ==> multiset(Positions(cursor, n, m))[p] == m / n
  {
    var q, r := m / n, m % n;
    assert m == q * n + r;
    WindowCount(cursor, n, q, r, p);
  }
}

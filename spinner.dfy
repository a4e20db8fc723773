/** The spinning display of src/components/StringSpinner.tsx: a counter
    that advances by one modulo the number of entries on every timer tick,
    and a window of `drawCount` consecutive positions from the counter on,
    wrapping around the end of the list. JavaScript's `%` agrees with
    Dafny's on the non-negative operands used here. */
module Spinner {
  import opened Quests

  /** The step of the interval callback: one further, back to 0 after the
      last position. */
  function Advance(prev: nat, n: nat): (r: nat)
    requires n > 0
    ensures r < n
    ensures prev < n ==> r == (if prev == n - 1 then 0 else prev + 1)
  {
    (prev + 1) % n
  }

  /** The counter after `k` ticks from `start`. */
  function Ticks(start: nat, k: nat, n: nat): (r: nat)
    requires n > 0
    ensures k > 0 ==> r < n
  {
    if k == 0 then start else Advance(Ticks(start, k - 1, n), n)
  }

  lemma MulStep(k: nat, n: nat)
    ensures (k + 1) * n == k * n + n
  {
  }

  lemma {:induction false} MulMono(k1: nat, k2: nat, n: nat)
    requires k1 < k2
    ensures k1 * n + n <= k2 * n
    decreases k2
  {
    MulStep(k2 - 1, n);
    if k1 < k2 - 1 {
      MulMono(k1, k2 - 1, n);
    }
  }

  /** Quotient and remainder are determined by the division equation. */
  lemma DivModUnique(a: nat, n: nat, q: nat, r: nat)
    requires n > 0 && r < n && a == q * n + r
    ensures a % n == r && a / n == q
  {
    var q0, r0 := a / n, a % n;
    assert a == q0 * n + r0;
    if q0 < q {
      MulMono(q0, q, n);
    } else if q < q0 {
      MulMono(q, q0, n);
    }
  }

  /** Adding a multiple of `n` does not change the remainder. */
  lemma ModShift(x: nat, q: nat, n: nat)
    requires n > 0
    ensures (x + q * n) % n == x % n
  {
    assert x == (x / n) * n + x % n;
    assert x + q * n == (q + x / n) * n + x % n;
    DivModUnique(x + q * n, n, q + x / n, x % n);
  }

  /** Reducing the first summand first does not change the remainder. */
  lemma ModAdd(a: nat, b: nat, n: nat)
    requires n > 0
    ensures ((a % n) + b) % n == (a + b) % n
  {
    var q := a / n;
    assert a == a % n + q * n;
    ModShift(a % n + b, q, n);
    assert a + b == (a % n + b) + q * n;
  }

  /** After `k` ticks from a position of the list the counter is
      `(start + k) % n`. */
  lemma {:induction false} TicksMod(start: nat, k: nat, n: nat)
    requires n > 0 && start < n
    ensures Ticks(start, k, n) == (start + k) % n
  {
    if k > 0 {
      TicksMod(start, k - 1, n);
      ModAdd(start + k - 1, 1, n);
    }
  }

  /** Periodicity: `n` ticks bring the counter back to where it started,
      in particular from 0 back to 0. */
  lemma Periodic(start: nat, n: nat)
    requires n > 0 && start < n
    ensures Ticks(start, n, n) == start
  {
    TicksMod(start, n, n);
    assert start + n == 1 * n + start;
    DivModUnique(start + n, n, 1, start);
  }

  /** `itemIndexesToShow`: `drawCount` positions, the i-th being
      `(index + i) % n`. */
  function Window(index: nat, drawCount: nat, n: nat): (r: seq<nat>)
    requires n > 0
    ensures |r| == drawCount
    ensures IndexesBelow(r, n)
    ensures forall i :: 0 <= i < |r| ==> r[i] == (index + i) % n
  {
    seq(drawCount, i requires 0 <= i => (index + i) % n)
  }

  /** The window starts at the counter and every next position is one
      advance step further, wrapping after the last position. */
  lemma WindowWraps(index: nat, drawCount: nat, n: nat)
    requires n > 0
    ensures var w := Window(index, drawCount, n);
            && (drawCount > 0 ==> w[0] == index % n)
            && forall i :: 0 <= i < drawCount - 1 ==> w[i + 1] == Advance(w[i], n)
  {
    var w := Window(index, drawCount, n);
    forall i | 0 <= i < drawCount - 1 ensures w[i + 1] == Advance(w[i], n) {
      ModAdd(index + i, 1, n);
    }
  }

  /** Two numbers with the same remainder differ by at least `n`. */
  lemma SameRemainderFar(a: nat, b: nat, n: nat)
    requires n > 0 && a < b && a % n == b % n
    ensures b - a >= n
  {
    var qa, qb := a / n, b / n;
    assert a == qa * n + a % n;
    assert b == qb * n + b % n;
    if qa < qb {
      MulMono(qa, qb, n);
    }
  }

  /** A window no longer than the list shows no position twice. */
  lemma WindowDistinct(index: nat, drawCount: nat, n: nat)
    requires n > 0 && drawCount <= n
    ensures Distinct(Window(index, drawCount, n))
  {
    var w := Window(index, drawCount, n);
    forall i, j | 0 <= i < j < drawCount ensures w[i] != w[j] {
      if w[i] == w[j] {
        SameRemainderFar(index + i, index + j, n);
      }
    }
  }

  /** A tick scrolls the window by one: what was shown at place `i + 1` is
      shown at place `i` afterwards. */
  lemma WindowAfterTick(index: nat, drawCount: nat, n: nat)
    requires n > 0
    ensures forall i :: 0 <= i < drawCount - 1 ==>
              Window(Advance(index, n), drawCount, n)[i] == Window(index, drawCount, n)[i + 1]
  {
    forall i | 0 <= i < drawCount - 1
      ensures Window(Advance(index, n), drawCount, n)[i] == Window(index, drawCount, n)[i + 1]
    {
      ModAdd(index + 1, i, n);
    }
  }

  /** `itemsToShow`: the entries at the window's positions. */
  function ItemsToShow(strings: seq<Quest>, index: nat, drawCount: nat): (r: seq<Quest>)
    requires |strings| > 0
    ensures |r| == drawCount
    ensures forall i :: 0 <= i < drawCount ==> r[i] == strings[(index + i) % |strings|]
  {
    Pick(strings, Window(index, drawCount, |strings|))
  }

  /** With unique identifiers and a window no longer than the list, no
      entry is shown twice. */
  lemma ItemsDistinct(strings: seq<Quest>, index: nat, drawCount: nat)
    requires |strings| > 0 && drawCount <= |strings| && UniqueIds(strings)
    ensures forall i, j :: 0 <= i < j < drawCount ==> ItemsToShow(strings, index, drawCount)[i] != ItemsToShow(strings, index, drawCount)[j]
  {
    var w := Window(index, drawCount, |strings|);
    WindowDistinct(index, drawCount, |strings|);
    forall i, j | 0 <= i < j < drawCount
      ensures ItemsToShow(strings, index, drawCount)[i] != ItemsToShow(strings, index, drawCount)[j]
    {
      assert w[i] != w[j];
      if w[i] < w[j] {
        assert strings[w[i]].id != strings[w[j]].id;
      } else {
        assert strings[w[j]].id != strings[w[i]].id;
      }
    }
  }

  /** The component's state: its props and the counter. The props are
      replaced on every render of the parent; the counter survives. */
  class StringSpinner {
    var strings: seq<Quest>
    var drawCount: nat
    var index: nat

    /** First render: the counter starts at 0; `drawCount` defaults to 3
        (the parent passes none). */
    constructor (strings: seq<Quest>)
      ensures this.strings == strings && drawCount == 3 && index == 0
    {
      this.strings := strings;
      drawCount := 3;
      index := 0;
    }

    /** A re-render with new entries, for example after the draw marked
        some of them. */
    method SetStrings(strings: seq<Quest>)
      modifies this`strings
      ensures this.strings == strings
    {
      this.strings := strings;
    }

    /** One interval tick. */
    method Tick()
      requires |strings| > 0
      modifies this`index
      ensures index == Advance(old(index), |strings|)
      ensures index < |strings|
    {
      index := (index + 1) % |strings|;
    }

    /** What the component renders: `drawCount` entries, the i-th
        being the entry `i` places after the counter, wrapping around. */
    function Shown(): (r: seq<Quest>)
      reads this
      requires |strings| > 0
      ensures |r| == drawCount
      ensures forall i :: 0 <= i < |r| ==> r[i] == strings[(index + i) % |strings|]
    {
      ItemsToShow(strings, index, drawCount)
    }
  }
}

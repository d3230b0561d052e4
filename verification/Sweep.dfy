/** A walk over a list with a saved successor, during which every visited element may
    append further ones at the tail: the job pass. `adds(k)` is what the `k`-th visited
    element appends. */
module Sweep {

  /** Everything appended by the visits `k` to `n - 1`, in order. */
  function AppendedBetween<T>(adds: nat -> seq<T>, k: nat, n: nat): seq<T>
    requires k <= n
    decreases n - k
  {
    if k == n then [] else adds(k) + AppendedBetween(adds, k + 1, n)
  }

  // ----- when a walk ends -----

  /** The walk makes more than `m` visits. The successor is saved before the element
      appends anything, so a walk that stands on the last element ends there, whatever
      that element appends. */
  predicate GoesOn<T>(ahead: seq<T>, adds: nat -> seq<T>, k: nat, m: nat)
    decreases m
  {
    if m == 0 then ahead != []
    else |ahead| > 1 && GoesOn(ahead[1..] + adds(k), adds, k + 1, m - 1)
  }

  ghost predicate Ends<T>(ahead: seq<T>, adds: nat -> seq<T>, k: nat) {
    exists m: nat :: !GoesOn(ahead, adds, k, m)
  }

  /** Everything there at the start and appended by the first `n - 1` visits was visited
      by then: the walk has caught up. */
  ghost predicate CaughtUp<T>(ahead: seq<T>, adds: nat -> seq<T>, k: nat, n: nat) {
    n >= 1 && |ahead| + |AppendedBetween(adds, k, k + n - 1)| == n
  }

  lemma CaughtUpLater<T>(ahead: seq<T>, adds: nat -> seq<T>, k: nat, n: nat)
    requires ahead != [] && n >= 1
    ensures CaughtUp(ahead, adds, k, n + 1) <==> CaughtUp(ahead[1..] + adds(k), adds, k + 1, n)
  {
  }

  /** A walk makes more than `m` visits exactly when it did not catch up by then. */
  lemma {:induction false} GoesOnUntilCaughtUp<T>(ahead: seq<T>, adds: nat -> seq<T>, k: nat, m: nat)
    requires ahead != []
    ensures GoesOn(ahead, adds, k, m) <==> forall n: nat :: 1 <= n <= m ==> !CaughtUp(ahead, adds, k, n)
    decreases m
  {
    assert CaughtUp(ahead, adds, k, 1) <==> |ahead| == 1;
    if m > 0 && |ahead| > 1 {
      var rest := ahead[1..] + adds(k);
      GoesOnUntilCaughtUp(rest, adds, k + 1, m - 1);
      if GoesOn(rest, adds, k + 1, m - 1) {
        forall n: nat | 2 <= n <= m
          ensures !CaughtUp(ahead, adds, k, n)
        {
          CaughtUpLater(ahead, adds, k, n - 1);
        }
      } else {
        var n: nat :| 1 <= n <= m - 1 && CaughtUp(rest, adds, k + 1, n);
        CaughtUpLater(ahead, adds, k, n);
      }
    }
  }

  /** A walk ends exactly when it catches up. */
  lemma EndsIffCaughtUp<T>(ahead: seq<T>, adds: nat -> seq<T>, k: nat)
    ensures Ends(ahead, adds, k) <==> ahead == [] || exists n :: CaughtUp(ahead, adds, k, n)
  {
    if ahead == [] {
      assert !GoesOn(ahead, adds, k, 0);
    } else {
      if n :| CaughtUp(ahead, adds, k, n) {
        GoesOnUntilCaughtUp(ahead, adds, k, n);
      }
      if m: nat :| !GoesOn(ahead, adds, k, m) {
        GoesOnUntilCaughtUp(ahead, adds, k, m);
      }
    }
  }

  /** Every visited element appends one more. */
  function Another<T>(x: T): nat -> seq<T> {
    _ => [x]
  }

  lemma {:induction false} AnotherEach<T>(x: T, k: nat, n: nat)
    requires k <= n
    ensures |AppendedBetween(Another(x), k, n)| == n - k
    decreases n - k
  {
    if k < n {
      AnotherEach(x, k + 1, n);
    }
  }

  /** When every visited element appends one more, a walk ends exactly when there is at
      most one element at its start; over two it goes on for ever. */
  lemma AnotherEnds<T>(ahead: seq<T>, x: T)
    ensures Ends(ahead, Another(x), 0) <==> |ahead| <= 1
  {
    forall n: nat
      ensures CaughtUp(ahead, Another(x), 0, n) <==> n >= 1 && |ahead| == 1
    {
      if n >= 1 {
        AnotherEach(x, 0, n - 1);
      }
    }
    EndsIffCaughtUp(ahead, Another(x), 0);
    assert |ahead| == 1 ==> CaughtUp(ahead, Another(x), 0, 1);
  }

  // ----- what a walk does -----

  lemma {:induction false} NoLonger<T>(ahead: seq<T>, adds: nat -> seq<T>, k: nat, m: nat, n: nat)
    requires m <= n && !GoesOn(ahead, adds, k, m)
    ensures !GoesOn(ahead, adds, k, n)
    decreases m
  {
    if m > 0 && |ahead| > 1 {
      NoLonger(ahead[1..] + adds(k), adds, k + 1, m - 1, n - 1);
    }
  }

  ghost predicate IsLength<T>(ahead: seq<T>, adds: nat -> seq<T>, k: nat, n: nat) {
    !GoesOn(ahead, adds, k, n) && forall m: nat :: m < n ==> GoesOn(ahead, adds, k, m)
  }

  lemma {:induction false} HasLength<T>(ahead: seq<T>, adds: nat -> seq<T>, k: nat, m: nat) returns (n: nat)
    requires !GoesOn(ahead, adds, k, m)
    ensures IsLength(ahead, adds, k, n)
    decreases m
  {
    if m == 0 || GoesOn(ahead, adds, k, m - 1) {
      n := m;
      forall i: nat | i < m
        ensures GoesOn(ahead, adds, k, i)
      {
        if !GoesOn(ahead, adds, k, i) {
          NoLonger(ahead, adds, k, i, m - 1);
        }
      }
    } else {
      n := HasLength(ahead, adds, k, m - 1);
    }
  }

  /** The number of visits of a walk that ends. */
  ghost function Length<T>(ahead: seq<T>, adds: nat -> seq<T>, k: nat): (n: nat)
    requires Ends(ahead, adds, k)
    ensures IsLength(ahead, adds, k, n)
  {
    var m: nat :| !GoesOn(ahead, adds, k, m);
    assert exists n: nat :: IsLength(ahead, adds, k, n) by {
      var n := HasLength(ahead, adds, k, m);
    }
    var n: nat :| IsLength(ahead, adds, k, n);
    n
  }

  lemma OneShorter<T>(ahead: seq<T>, adds: nat -> seq<T>, k: nat)
    requires Ends(ahead, adds, k) && |ahead| > 1
    ensures Ends(ahead[1..] + adds(k), adds, k + 1)
    ensures Length(ahead, adds, k) == 1 + Length(ahead[1..] + adds(k), adds, k + 1)
  {
    var rest, n := ahead[1..] + adds(k), Length(ahead, adds, k);
    assert GoesOn(ahead, adds, k, 0);
    assert !GoesOn(rest, adds, k + 1, n - 1);
    var r := Length(rest, adds, k + 1);
    assert !GoesOn(ahead, adds, k, r + 1);
  }

  ghost function Visited<T>(ahead: seq<T>, adds: nat -> seq<T>, k: nat): (v: seq<T>)
    requires Ends(ahead, adds, k)
    ensures |v| > 0 <==> |ahead| > 0
    decreases Length(ahead, adds, k)
  {
    if |ahead| <= 1 then ahead
    else
      OneShorter(ahead, adds, k);
      [ahead[0]] + Visited(ahead[1..] + adds(k), adds, k + 1)
  }

  /** The appended elements the walk did not reach. */
  ghost function Left<T>(ahead: seq<T>, adds: nat -> seq<T>, k: nat): seq<T>
    requires Ends(ahead, adds, k)
    decreases Length(ahead, adds, k)
  {
    if ahead == [] then []
    else if |ahead| == 1 then adds(k)
    else
      OneShorter(ahead, adds, k);
      Left(ahead[1..] + adds(k), adds, k + 1)
  }

  /** One iteration of the walk. */
  lemma OneMoreVisited<T>(executed: seq<T>, ahead: seq<T>, adds: nat -> seq<T>, k: nat)
    requires Ends(ahead, adds, k) && ahead != []
    ensures var rest := ahead[1..] + adds(k);
            if |ahead| == 1 then
              executed + Visited(ahead, adds, k) == executed + [ahead[0]] && Left(ahead, adds, k) == rest
            else
              && Ends(rest, adds, k + 1) && Length(rest, adds, k + 1) < Length(ahead, adds, k)
              && executed + Visited(ahead, adds, k) == executed + [ahead[0]] + Visited(rest, adds, k + 1)
              && Left(ahead, adds, k) == Left(rest, adds, k + 1)
  {
    if |ahead| > 1 {
      OneShorter(ahead, adds, k);
      var v := Visited(ahead[1..] + adds(k), adds, k + 1);
      assert executed + ([ahead[0]] + v) == executed + [ahead[0]] + v;
    }
  }

  /** Nothing is lost, doubled or reordered: the visited elements followed by those
      left are the ones there at the start followed by those appended, in order. */
  lemma {:induction false} SweepConserves<T>(ahead: seq<T>, adds: nat -> seq<T>, k: nat)
    requires Ends(ahead, adds, k)
    ensures var n := |Visited(ahead, adds, k)|;
            Visited(ahead, adds, k) + Left(ahead, adds, k) == ahead + AppendedBetween(adds, k, k + n)
    decreases Length(ahead, adds, k)
  {
    var n := |Visited(ahead, adds, k)|;
    if |ahead| == 1 {
      assert AppendedBetween(adds, k + 1, k + 1) == [];
    } else if |ahead| > 1 {
      OneShorter(ahead, adds, k);
      var x, rest, add := ahead[0], ahead[1..], adds(k);
      SweepConserves(rest + add, adds, k + 1);
      var v, l := Visited(rest + add, adds, k + 1), Left(rest + add, adds, k + 1);
      var more := AppendedBetween(adds, k + 1, k + n);
      assert [x] + v + l == [x] + (v + l);
      assert [x] + (rest + add + more) == ahead + (add + more);
    }
  }

  /** A walk reaches everything that was there at the start, and what it leaves is exactly
      what the last visited element appended: it catches up for the first time there. */
  lemma {:induction false} SweepLeavesLast<T>(ahead: seq<T>, adds: nat -> seq<T>, k: nat)
    requires Ends(ahead, adds, k) && ahead != []
    ensures var n := |Visited(ahead, adds, k)|;
            && n >= |ahead| && n == Length(ahead, adds, k) && Left(ahead, adds, k) == adds(k + n - 1)
    decreases Length(ahead, adds, k)
  {
    if |ahead| > 1 {
      OneShorter(ahead, adds, k);
      SweepLeavesLast(ahead[1..] + adds(k), adds, k + 1);
    } else {
      assert GoesOn(ahead, adds, k, 0) && !GoesOn(ahead, adds, k, 1);
    }
  }

  /** The number of visits is the first one by which the walk has caught up. */
  lemma LengthIsFirstCaughtUp<T>(ahead: seq<T>, adds: nat -> seq<T>, k: nat)
    requires Ends(ahead, adds, k) && ahead != []
    ensures var n := |Visited(ahead, adds, k)|;
            CaughtUp(ahead, adds, k, n) && forall m :: 1 <= m < n ==> !CaughtUp(ahead, adds, k, m)
  {
    SweepLeavesLast(ahead, adds, k);
    var n := Length(ahead, adds, k);
    GoesOnUntilCaughtUp(ahead, adds, k, n);
    assert GoesOn(ahead, adds, k, n - 1);
    GoesOnUntilCaughtUp(ahead, adds, k, n - 1);
  }
}

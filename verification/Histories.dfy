/** What a history says about the present: something began and nothing has ended it since. */
module Histories {
  /** Some step before `n` starts it, and no later step before `n` stops it. */
  ghost predicate Since(starts: nat -> bool, stops: nat -> bool, n: nat) {
    exists m: nat {:trigger starts(m)} ::
      m < n && starts(m) && forall j: nat {:trigger stops(j)} :: m < j < n ==> !stops(j)
  }

  lemma SinceNever(starts: nat -> bool, stops: nat -> bool)
    ensures !Since(starts, stops, 0)
  {
  }

  lemma SinceNext(starts: nat -> bool, stops: nat -> bool, n: nat)
    ensures Since(starts, stops, n + 1) <==> starts(n) || (Since(starts, stops, n) && !stops(n))
  {
    if Since(starts, stops, n + 1) {
      var m: nat :| m < n + 1 && starts(m) && forall j: nat {:trigger stops(j)} :: m < j < n + 1 ==> !stops(j);
      if m < n {
        assert !stops(n);
        assert Since(starts, stops, n);
      }
    }
    if starts(n) {
      assert forall j: nat {:trigger stops(j)} :: n < j < n + 1 ==> !stops(j);
    }
    if Since(starts, stops, n) && !stops(n) {
      var m: nat :| m < n && starts(m) && forall j: nat {:trigger stops(j)} :: m < j < n ==> !stops(j);
      assert forall j: nat {:trigger stops(j)} :: m < j < n + 1 ==> !stops(j);
    }
  }

  ghost predicate LatchedAt(holds: nat -> bool, starts: nat -> bool, stops: nat -> bool, i: nat) {
    holds(i + 1) <==> starts(i) || (holds(i) && !stops(i))
  }

  /** What each step starts or stops, and leaves alone otherwise, holds exactly since its start. */
  lemma {:induction false} Latched(holds: nat -> bool, starts: nat -> bool, stops: nat -> bool, n: nat)
    requires !holds(0)
    requires forall i: nat {:trigger LatchedAt(holds, starts, stops, i)} :: i < n ==> LatchedAt(holds, starts, stops, i)
    ensures holds(n) <==> Since(starts, stops, n)
  {
    if n == 0 {
      SinceNever(starts, stops);
    } else {
      Latched(holds, starts, stops, n - 1);
      assert LatchedAt(holds, starts, stops, n - 1);
      SinceNext(starts, stops, n - 1);
    }
  }
}

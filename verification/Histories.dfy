/** A fact that some steps of a history establish and others end. */
module Histories {

  /** No step from `from` up to `n` ends it. */
  ghost predicate NoneFrom(ends: nat -> bool, from: nat, n: nat) {
    forall i: nat | from <= i < n :: !ends(i)
  }

  /** Step `i` establishes it and no later one ends it. */
  ghost predicate EstablishedBy(starts: nat -> bool, ends: nat -> bool, i: nat, n: nat) {
    i < n && starts(i) && NoneFrom(ends, i + 1, n)
  }

  /** How the fact changes with step `i`. */
  ghost predicate Changes(holds: nat -> bool, starts: nat -> bool, ends: nat -> bool, i: nat) {
    holds(i + 1) <==> starts(i) || (holds(i) && !ends(i))
  }

  /** It held at first and nothing ended it, or something established it and nothing has ended it since. */
  ghost predicate HoldsByHistory(first: bool, starts: nat -> bool, ends: nat -> bool, n: nat) {
    (first && NoneFrom(ends, 0, n)) || exists i: nat :: EstablishedBy(starts, ends, i, n)
  }

  /** It holds exactly if it held at first and nothing ended it, or if something established it and nothing has
      ended it since. */
  lemma {:induction false} HoldsExactly(holds: nat -> bool, starts: nat -> bool, ends: nat -> bool, n: nat)
    requires forall i: nat | i < n :: Changes(holds, starts, ends, i)
    ensures holds(n) <==> HoldsByHistory(holds(0), starts, ends, n)
  {
    if n > 0 {
      HoldsExactly(holds, starts, ends, n - 1);
      assert Changes(holds, starts, ends, n - 1);
      if starts(n - 1) {
        assert EstablishedBy(starts, ends, n - 1, n);
      }
      if holds(n - 1) && !ends(n - 1) && !(holds(0) && NoneFrom(ends, 0, n)) {
        var i: nat :| EstablishedBy(starts, ends, i, n - 1);
        assert EstablishedBy(starts, ends, i, n);
      }
      if exists i: nat :: EstablishedBy(starts, ends, i, n) {
        var i: nat :| EstablishedBy(starts, ends, i, n);
        if i < n - 1 {
          assert !ends(n - 1);
          assert EstablishedBy(starts, ends, i, n - 1);
        }
      }
      if NoneFrom(ends, 0, n) {
        assert !ends(n - 1);
        assert NoneFrom(ends, 0, n - 1);
      }
    }
  }
}

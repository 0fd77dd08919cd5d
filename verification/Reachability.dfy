// States that any number of steps of a machine lead to, for any machine. Reaching goes on from
// state to state, and what every step keeps holds of every state that is reached.
module Reachability {

  ghost predicate ReachesIn<S(!new)>(step: (S, S) -> bool, s: S, t: S, n: nat)
    decreases n
  {
    if n == 0 then s == t else exists m :: ReachesIn(step, s, m, n - 1) && step(m, t)
  }

  ghost predicate Reaches<S(!new)>(step: (S, S) -> bool, s: S, t: S) {
    exists n: nat :: ReachesIn(step, s, t, n)
  }

  lemma Stays<S(!new)>(step: (S, S) -> bool, s: S)
    ensures Reaches(step, s, s)
  {
    assert ReachesIn(step, s, s, 0);
  }

  lemma GoesOn<S(!new)>(step: (S, S) -> bool, s: S, m: S, t: S)
    requires Reaches(step, s, m) && step(m, t)
    ensures Reaches(step, s, t)
  {
    var n: nat :| ReachesIn(step, s, m, n);
    assert ReachesIn(step, s, t, n + 1);
  }

  lemma {:induction false} GoesThroughIn<S(!new)>(step: (S, S) -> bool, s: S, m: S, t: S, n: nat)
    requires Reaches(step, s, m) && ReachesIn(step, m, t, n)
    ensures Reaches(step, s, t)
    decreases n
  {
    if n > 0 {
      var last :| ReachesIn(step, m, last, n - 1) && step(last, t);
      GoesThroughIn(step, s, m, last, n - 1);
      GoesOn(step, s, last, t);
    }
  }

  lemma GoesThrough<S(!new)>(step: (S, S) -> bool, s: S, m: S, t: S)
    requires Reaches(step, s, m) && Reaches(step, m, t)
    ensures Reaches(step, s, t)
  {
    var n: nat :| ReachesIn(step, m, t, n);
    GoesThroughIn(step, s, m, t, n);
  }

  // What every step keeps holds of every state that is reached.
  lemma {:induction false} KeptIn<S(!new)>(step: (S, S) -> bool, inv: S -> bool, s: S, t: S, n: nat)
    requires inv(s) && ReachesIn(step, s, t, n)
    requires forall a, b :: inv(a) && step(a, b) ==> inv(b)
    ensures inv(t)
    decreases n
  {
    if n > 0 {
      var m :| ReachesIn(step, s, m, n - 1) && step(m, t);
      KeptIn(step, inv, s, m, n - 1);
    }
  }

  lemma Kept<S(!new)>(step: (S, S) -> bool, inv: S -> bool, s: S, t: S)
    requires inv(s) && Reaches(step, s, t)
    requires forall a, b :: inv(a) && step(a, b) ==> inv(b)
    ensures inv(t)
  {
    var n: nat :| ReachesIn(step, s, t, n);
    KeptIn(step, inv, s, t, n);
  }
}

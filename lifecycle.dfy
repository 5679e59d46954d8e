/** The life of one student thread (student_routine): it fetches food, announces
    that it is ready to eat, is seated, announces that it is ready to leave, and
    departs. Each student is always in exactly one of these phases; the monitor's
    counters are counts of students per phase. */
module Lifecycle {

  datatype Phase =
    | NotArrived      // still getting food (or not started): has not called readyToEat
    | WaitingToEat    // inside readyToEat, counted in ready_to_eat
    | Eating          // seated and dining, counted in eating
    | WaitingToLeave  // inside readyToLeave, counted in both eating and ready_to_leave
    | Left            // readyToLeave returned

  /** The number of students of `ps` that are in phase `p`. */
  function Count(ps: seq<Phase>, p: Phase): (n: nat)
    ensures n <= |ps|
    ensures n > 0 <==> p in ps
  {
    if ps == [] then 0
    else (if ps[0] == p then 1 else 0) + Count(ps[1..], p)
  }

  /** The moves a student in phase `p` still has to make before it has left. */
  function MovesLeft(p: Phase): nat
  {
    match p
    case NotArrived => 4
    case WaitingToEat => 3
    case Eating => 2
    case WaitingToLeave => 1
    case Left => 0
  }

  /** The moves all students together still have to make. */
  function Pending(ps: seq<Phase>): nat
  {
    4 * Count(ps, NotArrived) + 3 * Count(ps, WaitingToEat) + 2 * Count(ps, Eating)
    + Count(ps, WaitingToLeave)
  }

  /** Moving one student to another phase changes each count by at most one:
      the old phase loses it and the new phase gains it. */
  lemma {:induction false} CountUpdate(ps: seq<Phase>, i: nat, q: Phase, p: Phase)
    requires i < |ps|
    ensures Count(ps[i := q], p)
            == Count(ps, p) - (if ps[i] == p then 1 else 0) + (if q == p then 1 else 0)
  {
    if i == 0 {
      assert ps[i := q][1..] == ps[1..];
    } else {
      assert ps[i := q][1..] == ps[1..][i - 1 := q];
      CountUpdate(ps[1..], i - 1, q, p);
    }
  }

  /** Conservation: every student is counted in exactly one phase. */
  lemma {:induction false} CountAll(ps: seq<Phase>)
    ensures Count(ps, NotArrived) + Count(ps, WaitingToEat) + Count(ps, Eating)
            + Count(ps, WaitingToLeave) + Count(ps, Left) == |ps|
  {
    if ps != [] {
      var t := ps[1..];
      CountAll(t);
      var h := ps[0];
      assert Count(ps, NotArrived) == (if h == NotArrived then 1 else 0) + Count(t, NotArrived);
      assert Count(ps, WaitingToEat) == (if h == WaitingToEat then 1 else 0) + Count(t, WaitingToEat);
      assert Count(ps, Eating) == (if h == Eating then 1 else 0) + Count(t, Eating);
      assert Count(ps, WaitingToLeave) == (if h == WaitingToLeave then 1 else 0) + Count(t, WaitingToLeave);
      assert Count(ps, Left) == (if h == Left then 1 else 0) + Count(t, Left);
    }
  }

  /** When all students share one phase, that phase counts them all and every
      other phase counts none. */
  lemma {:induction false} CountUniform(n: nat, q: Phase, p: Phase)
    ensures Count(seq(n, _ => q), p) == if p == q then n else 0
  {
    if n > 0 {
      assert seq(n, _ => q)[1..] == seq(n - 1, _ => q);
      CountUniform(n - 1, q, p);
    }
  }

  /** Count agrees with the multiplicity of the phase in the multiset of phases. */
  lemma {:induction false} CountIsMultiplicity(ps: seq<Phase>, p: Phase)
    ensures Count(ps, p) == multiset(ps)[p]
  {
    if ps != [] {
      assert ps == [ps[0]] + ps[1..];
      assert multiset(ps) == multiset{ps[0]} + multiset(ps[1..]);
      CountIsMultiplicity(ps[1..], p);
    }
  }

  /** Pending is the sum of the moves every student still has to make, so one
      student moving one phase forward lowers it by exactly one. */
  lemma PendingUpdate(ps: seq<Phase>, i: nat, q: Phase)
    requires i < |ps|
    ensures Pending(ps[i := q]) == Pending(ps) - MovesLeft(ps[i]) + MovesLeft(q)
  {
    CountUpdate(ps, i, q, NotArrived);
    CountUpdate(ps, i, q, WaitingToEat);
    CountUpdate(ps, i, q, Eating);
    CountUpdate(ps, i, q, WaitingToLeave);
  }

  /** Before anybody has arrived, each of `n` students has four moves to make. */
  lemma PendingInitially(n: nat)
    ensures Pending(seq(n, _ => NotArrived)) == 4 * n
  {
    CountUniform(n, NotArrived, NotArrived);
    CountUniform(n, NotArrived, WaitingToEat);
    CountUniform(n, NotArrived, Eating);
    CountUniform(n, NotArrived, WaitingToLeave);
  }

  /** Nothing is pending exactly when every student has left. */
  lemma NothingPending(ps: seq<Phase>)
    ensures Pending(ps) == 0 <==> forall i :: 0 <= i < |ps| ==> ps[i] == Left
  {
    if Pending(ps) != 0 {
      var p :| p != Left && Count(ps, p) > 0;
      var i :| 0 <= i < |ps| && ps[i] == p;
    }
  }
}

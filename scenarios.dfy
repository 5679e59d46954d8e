/** Concrete runs of the monitor. Students 0, 1, 2 stand for the threads the driver
    creates with ids 1, 2, 3. Longer runs are put together from short segments
    with RunAppend. */
module Scenarios {
  import opened Lifecycle
  import opened Protocol

  /** A lone first arrival cannot sit. */
  lemma LoneArrivalWaits()
    ensures Run(Init(2), [AnnounceEat(0), Sit(0)]) == None
  {
    RunFires(Init(2), AnnounceEat(0), [Sit(0)]);
    RunBlocks(Step(Init(2), AnnounceEat(0)), Sit(0), []);
  }

  /** Once a second student announces, it finds the table unlocked and sits in
      the same critical section; the waiting first student then sits too. */
  lemma PairSits()
    ensures Run(Init(2), [AnnounceEat(0), AnnounceEat(1), Sit(1), Sit(0)])
            == Some(State(2, 0, 0, [Eating, Eating]))
  {
    var ps := Init(2).phase;
    assert ps[0 := WaitingToEat][1 := WaitingToEat][1 := Eating][0 := Eating] == [Eating, Eating];
  }

  /** The first of a dining pair to want to leave is held back while its
      partner still dines. */
  lemma FirstLeaverHeld()
    ensures Run(State(2, 0, 0, [Eating, Eating]), [AnnounceLeave(0), Depart(0)]) == None
  {
    var st := State(2, 0, 0, [Eating, Eating]);
    RunFires(st, AnnounceLeave(0), [Depart(0)]);
    RunBlocks(Step(st, AnnounceLeave(0)), Depart(0), []);
  }

  /** Once the partner also wants to leave, the partner goes at once, then the
      first. */
  lemma PairGoes()
    ensures Run(State(2, 0, 0, [Eating, Eating]),
                [AnnounceLeave(0), AnnounceLeave(1), Depart(1), Depart(0)])
            == Some(State(0, 0, 0, [Left, Left]))
  {
    var ps: seq<Phase> := [Eating, Eating];
    assert ps[0 := WaitingToLeave][1 := WaitingToLeave][1 := Left][0 := Left] == [Left, Left];
  }

  /** Two students dine and leave together, and the hall is back at its initial
      counters. */
  lemma PairScenario()
    ensures Run(Init(2), [AnnounceEat(0), AnnounceEat(1), Sit(1), Sit(0),
                          AnnounceLeave(0), AnnounceLeave(1), Depart(1), Depart(0)])
            == Some(State(0, 0, 0, [Left, Left]))
  {
    var arrive := [AnnounceEat(0), AnnounceEat(1), Sit(1), Sit(0)];
    var leave := [AnnounceLeave(0), AnnounceLeave(1), Depart(1), Depart(0)];
    PairSits();
    PairGoes();
    RunAppend(Init(2), arrive, leave);
    assert arrive + leave == [AnnounceEat(0), AnnounceEat(1), Sit(1), Sit(0),
                              AnnounceLeave(0), AnnounceLeave(1), Depart(1), Depart(0)];
  }

  /** Between the first of a pair sitting and its partner sitting, the table
      holds one diner that is not leaving: the state readyToEat releases the
      lock in, for the student that sat first. */
  lemma LoneDinerReachable()
    ensures Run(Init(2), [AnnounceEat(0), AnnounceEat(1), Sit(1)])
            == Some(State(1, 1, 0, [WaitingToEat, Eating]))
  {
    var ps := Init(2).phase;
    assert ps[0 := WaitingToEat][1 := WaitingToEat][1 := Eating] == [WaitingToEat, Eating];
  }

  /** A student that arrives while a pair dines is not held back. */
  lemma ThirdJoinsAtOnce()
    ensures Run(State(2, 0, 0, [Eating, Eating, NotArrived]), [AnnounceEat(2), Sit(2)])
            == Some(State(3, 0, 0, [Eating, Eating, Eating]))
  {
    var ps: seq<Phase> := [Eating, Eating, NotArrived];
    assert ps[2 := WaitingToEat][2 := Eating] == [Eating, Eating, Eating];
  }

  /** Three students: a pair sits, and the third joins it at once. */
  lemma TrioSits()
    ensures Run(Init(3), [AnnounceEat(0), AnnounceEat(1), Sit(1), Sit(0), AnnounceEat(2), Sit(2)])
            == Some(State(3, 0, 0, [Eating, Eating, Eating]))
  {
    var pair := [AnnounceEat(0), AnnounceEat(1), Sit(1), Sit(0)];
    var third := [AnnounceEat(2), Sit(2)];
    ThirdAbsentPairDines();
    ThirdJoinsAtOnce();
    RunAppend(Init(3), pair, third);
    assert pair + third
           == [AnnounceEat(0), AnnounceEat(1), Sit(1), Sit(0), AnnounceEat(2), Sit(2)];
  }

  /** With three at the table the first leaver is not held back. */
  lemma TrioFirstLeaves()
    ensures Run(State(3, 0, 0, [Eating, Eating, Eating]), [AnnounceLeave(0), Depart(0)])
            == Some(State(2, 0, 0, [Left, Eating, Eating]))
  {
    var ps: seq<Phase> := [Eating, Eating, Eating];
    assert ps[0 := WaitingToLeave][0 := Left] == [Left, Eating, Eating];
  }

  /** The remaining two then leave as a pair: the second to announce goes at
      once, then the first. */
  lemma TrioRestLeave()
    ensures Run(State(2, 0, 0, [Left, Eating, Eating]),
                [AnnounceLeave(1), AnnounceLeave(2), Depart(2), Depart(1)])
            == Some(State(0, 0, 0, [Left, Left, Left]))
  {
    var ps: seq<Phase> := [Left, Eating, Eating];
    assert ps[1 := WaitingToLeave][2 := WaitingToLeave][2 := Left][1 := Left] == [Left, Left, Left];
  }

  /** Once every student but one has left and that one is waiting to eat at an
      empty table, no step is enabled: the last student never eats. */
  lemma LoneWaiterStuck(st: State, w: nat)
    requires w < |st.phase| && st.phase[w] == WaitingToEat
    requires forall i :: 0 <= i < |st.phase| && i != w ==> st.phase[i] == Left
    requires st.eating == 0 && st.readyToEat == 1
    ensures Stuck(st)
  {
    forall a: Action ensures !Enabled(st, a) {
      if a.s < |st.phase| && a.s != w {
        assert st.phase[a.s] == Left;
      }
    }
  }

  /** The first of a pair to sit may dine and leave before its partner has
      taken its seat, since leaving from one diner is always allowed. The
      partner is then a lone arrival at an empty table again and waits for good.
      With threads: student 1 announces second and passes its wait loop at once;
      it dines and passes readyToLeave's loop at once, all before student 0,
      already signalled, gets the lock back. */
  lemma PartnerStranded()
    ensures Run(Init(2), [AnnounceEat(0), AnnounceEat(1), Sit(1), AnnounceLeave(1), Depart(1)])
            == Some(State(0, 1, 0, [WaitingToEat, Left]))
    ensures Stuck(State(0, 1, 0, [WaitingToEat, Left]))
  {
    var ps := Init(2).phase;
    assert ps[0 := WaitingToEat][1 := WaitingToEat][1 := Eating][1 := WaitingToLeave][1 := Left]
           == [WaitingToEat, Left];
    LoneWaiterStuck(State(0, 1, 0, [WaitingToEat, Left]), 0);
  }

  /** With three students, a pair can dine and leave before the third has got
      its food. */
  lemma ThirdAbsentPairDines()
    ensures Run(Init(3), [AnnounceEat(0), AnnounceEat(1), Sit(1), Sit(0)])
            == Some(State(2, 0, 0, [Eating, Eating, NotArrived]))
    ensures Run(State(2, 0, 0, [Eating, Eating, NotArrived]),
                [AnnounceLeave(0), AnnounceLeave(1), Depart(1), Depart(0)])
            == Some(State(0, 0, 0, [Left, Left, NotArrived]))
  {
    var ps := Init(3).phase;
    assert ps[0 := WaitingToEat][1 := WaitingToEat][1 := Eating][0 := Eating]
           == [Eating, Eating, NotArrived];
    var qs: seq<Phase> := [Eating, Eating, NotArrived];
    assert qs[0 := WaitingToLeave][1 := WaitingToLeave][1 := Left][0 := Left]
           == [Left, Left, NotArrived];
  }

  /** ... and then the third arrives, alone. */
  lemma ThirdArrivesAlone()
    ensures Run(State(2, 0, 0, [Eating, Eating, NotArrived]),
                [AnnounceLeave(0), AnnounceLeave(1), Depart(1), Depart(0), AnnounceEat(2)])
            == Some(State(0, 1, 0, [Left, Left, WaitingToEat]))
  {
    var gone := State(0, 0, 0, [Left, Left, NotArrived]);
    var leave := [AnnounceLeave(0), AnnounceLeave(1), Depart(1), Depart(0)];
    ThirdAbsentPairDines();
    RunFires(gone, AnnounceEat(2), []);
    assert gone.phase[2 := WaitingToEat] == [Left, Left, WaitingToEat];
    RunAppend(State(2, 0, 0, [Eating, Eating, NotArrived]), leave, [AnnounceEat(2)]);
    assert leave + [AnnounceEat(2)]
           == [AnnounceLeave(0), AnnounceLeave(1), Depart(1), Depart(0), AnnounceEat(2)];
  }

  /** The third student then waits at an empty table for good. */
  lemma LastArrivalStranded()
    ensures Run(Init(3), [AnnounceEat(0), AnnounceEat(1), Sit(1), Sit(0), AnnounceLeave(0),
                          AnnounceLeave(1), Depart(1), Depart(0), AnnounceEat(2)])
            == Some(State(0, 1, 0, [Left, Left, WaitingToEat]))
    ensures Stuck(State(0, 1, 0, [Left, Left, WaitingToEat]))
  {
    var arrive := [AnnounceEat(0), AnnounceEat(1), Sit(1), Sit(0)];
    var rest := [AnnounceLeave(0), AnnounceLeave(1), Depart(1), Depart(0), AnnounceEat(2)];
    ThirdAbsentPairDines();
    ThirdArrivesAlone();
    RunAppend(Init(3), arrive, rest);
    assert arrive + rest
           == [AnnounceEat(0), AnnounceEat(1), Sit(1), Sit(0), AnnounceLeave(0),
               AnnounceLeave(1), Depart(1), Depart(0), AnnounceEat(2)];
    LoneWaiterStuck(State(0, 1, 0, [Left, Left, WaitingToEat]), 2);
  }
}

/** The DiningHall monitor object: the three counters that readyToEat and
    readyToLeave update in place, and, as ghost state, where each student is.
    The mutex and the two condition variables are not modelled: a step whose
    wait condition holds is simply not callable (its requires fails). */
module Hall {
  import opened Lifecycle
  import opened Protocol

  class DiningHall {
    var eating: int        // students seated (including those waiting to leave)
    var readyToEat: int    // students holding food, waiting to be seated
    var readyToLeave: int  // students done eating, waiting to depart
    ghost var phase: seq<Phase>  // where each student is, indexed by student

    /** The monitor's state as a value of the protocol. */
    ghost function Snapshot(): State
      reads this
    {
      State(eating, readyToEat, readyToLeave, phase)
    }

    ghost predicate Valid()
      reads this
    {
      Inv(Snapshot())
    }

    /** init_hall, for a simulation of `students` students (at least two, as the
        driver insists). */
    constructor (ghost students: nat)
      requires students >= 2
      ensures Valid() && Snapshot() == Init(students)
      ensures eating == 0 && readyToEat == 0 && readyToLeave == 0
    {
      eating := 0;
      readyToEat := 0;
      readyToLeave := 0;
      phase := seq(students, _ => NotArrived);
      InitInv(students);
    }

    /** First half of readyToEat: student `s`, holding food, announces itself. */
    method AnnounceEat(ghost s: nat)
      requires Valid() && s < |phase| && phase[s] == NotArrived
      modifies this
      ensures Valid() && Snapshot() == Step(old(Snapshot()), Action.AnnounceEat(s))
      ensures phase == old(phase)[s := WaitingToEat]
      ensures readyToEat == old(readyToEat) + 1
      ensures eating == old(eating) && readyToLeave == old(readyToLeave)
    {
      StepInv(Snapshot(), Action.AnnounceEat(s));
      readyToEat := readyToEat + 1;
      phase := phase[s := WaitingToEat];
    }

    /** Second half of readyToEat, reached once its wait loop exits: the waiting
        student `s` takes a seat. */
    method Sit(ghost s: nat)
      requires Valid() && s < |phase| && phase[s] == WaitingToEat
      requires SitAllowed(eating, readyToEat)
      modifies this
      ensures Valid() && Snapshot() == Step(old(Snapshot()), Action.Sit(s))
      ensures phase == old(phase)[s := Eating]
      ensures readyToEat == old(readyToEat) - 1 && eating == old(eating) + 1
      ensures readyToLeave == old(readyToLeave)
      ensures eating > 2 ==> forall l :: 0 <= l < |phase| && phase[l] == WaitingToLeave
                                         ==> DepartAllowed(eating, readyToLeave)
    {
      StepInv(Snapshot(), Action.Sit(s));
      readyToEat := readyToEat - 1;
      eating := eating + 1;
      phase := phase[s := Eating];
    }

    /** First half of readyToLeave: student `s`, done dining, announces itself. */
    method AnnounceLeave(ghost s: nat)
      requires Valid() && s < |phase| && phase[s] == Eating
      modifies this
      ensures Valid() && Snapshot() == Step(old(Snapshot()), Action.AnnounceLeave(s))
      ensures phase == old(phase)[s := WaitingToLeave]
      ensures readyToLeave == old(readyToLeave) + 1
      ensures eating == old(eating) && readyToEat == old(readyToEat)
    {
      StepInv(Snapshot(), Action.AnnounceLeave(s));
      readyToLeave := readyToLeave + 1;
      phase := phase[s := WaitingToLeave];
    }

    /** Second half of readyToLeave, reached once its wait loop exits: the
        waiting student `s` gets up and goes. */
    method Depart(ghost s: nat)
      requires Valid() && s < |phase| && phase[s] == WaitingToLeave
      requires DepartAllowed(eating, readyToLeave)
      modifies this
      ensures Valid() && Snapshot() == Step(old(Snapshot()), Action.Depart(s))
      ensures phase == old(phase)[s := Left]
      ensures eating == old(eating) - 1 && readyToLeave == old(readyToLeave) - 1
      ensures readyToEat == old(readyToEat)
      ensures eating == 1 ==> Count(phase, Eating) == 0 && Count(phase, WaitingToLeave) == 1
    {
      StepInv(Snapshot(), Action.Depart(s));
      eating := eating - 1;
      readyToLeave := readyToLeave - 1;
      phase := phase[s := Left];
    }
  }

  /** Two students served by the monitor in an order the threads can take: the
      first to announce waits, the second unlocks the table and sits, then the
      first sits; the first to announce leaving waits, the second goes at once,
      then the first. */
  method PairDinesAndLeaves() returns (e: int, r: int, l: int)
    ensures e == 0 && r == 0 && l == 0
  {
    var hall := new DiningHall(2);
    hall.AnnounceEat(0);
    assert !SitAllowed(hall.eating, hall.readyToEat);  // a lone arrival waits
    hall.AnnounceEat(1);
    hall.Sit(1);
    hall.Sit(0);
    hall.AnnounceLeave(0);
    assert !DepartAllowed(hall.eating, hall.readyToLeave);  // would strand student 1
    hall.AnnounceLeave(1);
    hall.Depart(1);
    hall.Depart(0);
    e, r, l := hall.eating, hall.readyToEat, hall.readyToLeave;
  }
}

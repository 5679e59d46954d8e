/** The dining-hall monitor as a sequential transition system. The state is the
    three counters of the DiningHall struct together with the phase of every
    student. readyToEat and readyToLeave each do two things under the lock: they
    announce (increment ready_to_eat or ready_to_leave) and, once their wait loop
    exits, commit (move the student between counters). Code after a wait loop runs
    only when the loop condition is false, so each negated loop condition is the
    guard of an atomic commit step. Blocking is "the step is not enabled". */
module Protocol {
  import opened Lifecycle

  datatype Option<T> = None | Some(value: T)

  /** The counters of the monitor and, beside them, where each student is.
      Student ids are the indexes of `phase`. */
  datatype State = State(eating: int, readyToEat: int, readyToLeave: int, phase: seq<Phase>)

  /** The four atomic steps a student thread can take inside the monitor. */
  datatype Action =
    | AnnounceEat(s: nat)    // readyToEat, ready_to_eat++
    | Sit(s: nat)            // readyToEat after its wait loop: ready_to_eat--, eating++
    | AnnounceLeave(s: nat)  // readyToLeave, ready_to_leave++
    | Depart(s: nat)         // readyToLeave after its wait loop: eating--, ready_to_leave--

  /** A waiting eater may sit unless nobody is eating and fewer than two are
      ready: the negation of the readyToEat wait condition. */
  predicate SitAllowed(eating: int, readyToEat: int)
  {
    !(eating == 0 && readyToEat < 2)
  }

  /** A waiting leaver may go unless its going would leave exactly one diner
      and not every diner wants to leave: the negation of the readyToLeave
      wait condition, kept in the source's own arithmetic form. */
  predicate DepartAllowed(eating: int, readyToLeave: int)
  {
    !((eating - 1 == 1) && (readyToLeave < eating))
  }

  /** init_hall: all counters zero, and `n` students that have not arrived. */
  function Init(n: nat): State
  {
    State(0, 0, 0, seq(n, _ => NotArrived))
  }

  /** The call order of student_routine fixes which phase each step starts from;
      the commit steps are further guarded by the negated wait conditions. */
  predicate Enabled(st: State, a: Action)
  {
    a.s < |st.phase| &&
    match a
    case AnnounceEat(s) => st.phase[s] == NotArrived
    case Sit(s) => st.phase[s] == WaitingToEat && SitAllowed(st.eating, st.readyToEat)
    case AnnounceLeave(s) => st.phase[s] == Eating
    case Depart(s) => st.phase[s] == WaitingToLeave && DepartAllowed(st.eating, st.readyToLeave)
  }

  function Step(st: State, a: Action): State
    requires Enabled(st, a)
  {
    match a
    case AnnounceEat(s) =>
      st.(readyToEat := st.readyToEat + 1, phase := st.phase[s := WaitingToEat])
    case Sit(s) =>
      st.(readyToEat := st.readyToEat - 1, eating := st.eating + 1, phase := st.phase[s := Eating])
    case AnnounceLeave(s) =>
      st.(readyToLeave := st.readyToLeave + 1, phase := st.phase[s := WaitingToLeave])
    case Depart(s) =>
      st.(eating := st.eating - 1, readyToLeave := st.readyToLeave - 1, phase := st.phase[s := Left])
  }

  /** Fires the actions of `trace` in order; None when one of them is not enabled
      in the state it meets. */
  function Run(st: State, trace: seq<Action>): Option<State>
    decreases |trace|
  {
    if trace == [] then Some(st)
    else if Enabled(st, trace[0]) then Run(Step(st, trace[0]), trace[1..])
    else None
  }

  /** A trace that starts with an enabled action runs on from the state that
      action leads to. */
  lemma RunFires(st: State, a: Action, t: seq<Action>)
    requires Enabled(st, a)
    ensures Run(st, [a] + t) == Run(Step(st, a), t)
  {
    assert ([a] + t)[0] == a;
    assert ([a] + t)[1..] == t;
  }

  /** A trace that starts with an action that is not enabled blocks at once. */
  lemma RunBlocks(st: State, a: Action, t: seq<Action>)
    requires !Enabled(st, a)
    ensures Run(st, [a] + t) == None
  {
    assert ([a] + t)[0] == a;
  }

  /** Running two traces one after the other is running their concatenation. */
  lemma {:induction false} RunAppend(st: State, t1: seq<Action>, t2: seq<Action>)
    ensures Run(st, t1 + t2)
            == if Run(st, t1).Some? then Run(Run(st, t1).value, t2) else None
    decreases |t1|
  {
    if t1 == [] {
      assert t1 + t2 == t2;
    } else {
      assert (t1 + t2)[0] == t1[0];
      assert (t1 + t2)[1..] == t1[1..] + t2;
      if Enabled(st, t1[0]) {
        RunAppend(Step(st, t1[0]), t1[1..], t2);
      }
    }
  }

  /** Every student has left. */
  predicate AllLeft(st: State)
  {
    forall i :: 0 <= i < |st.phase| ==> st.phase[i] == Left
  }

  /** Deadlock: some student has not left, yet no step is enabled. */
  ghost predicate Stuck(st: State)
  {
    !AllLeft(st) && forall a: Action :: !Enabled(st, a)
  }

  /** The monitor invariant: each counter counts the students of its phase (a
      student waiting to leave is still counted as eating), and a lone diner
      exists only while it is itself leaving or a companion is waiting to sit. */
  predicate Inv(st: State)
  {
    && st.readyToEat == Count(st.phase, WaitingToEat)
    && st.readyToLeave == Count(st.phase, WaitingToLeave)
    && st.eating == Count(st.phase, Eating) + Count(st.phase, WaitingToLeave)
    && (st.eating == 1 ==> st.readyToLeave == 1 || st.readyToEat > 0)
  }

  // ---------------------------------------------------------------------------
  // The invariant holds initially and is preserved by every step.

  lemma InitInv(n: nat)
    ensures Inv(Init(n))
    ensures Init(n).eating == 0 && Init(n).readyToEat == 0 && Init(n).readyToLeave == 0
  {
    CountUniform(n, NotArrived, WaitingToEat);
    CountUniform(n, NotArrived, Eating);
    CountUniform(n, NotArrived, WaitingToLeave);
  }

  lemma StepInv(st: State, a: Action)
    requires Inv(st) && Enabled(st, a)
    ensures Inv(Step(st, a))
  {
    match a
    case AnnounceEat(s) => AnnounceEatInv(st, s);
    case Sit(s) => SitInv(st, s);
    case AnnounceLeave(s) => AnnounceLeaveInv(st, s);
    case Depart(s) => DepartInv(st, s);
  }

  lemma AnnounceEatInv(st: State, s: nat)
    requires Inv(st) && Enabled(st, AnnounceEat(s))
    ensures Inv(Step(st, AnnounceEat(s)))
  {
    CountUpdate(st.phase, s, WaitingToEat, WaitingToEat);
    CountUpdate(st.phase, s, WaitingToEat, Eating);
    CountUpdate(st.phase, s, WaitingToEat, WaitingToLeave);
  }

  /** Sitting from an empty table needs a companion still waiting, so the new
      lone diner is transient. */
  lemma SitInv(st: State, s: nat)
    requires Inv(st) && Enabled(st, Sit(s))
    ensures Inv(Step(st, Sit(s)))
  {
    CountUpdate(st.phase, s, Eating, WaitingToEat);
    CountUpdate(st.phase, s, Eating, Eating);
    CountUpdate(st.phase, s, Eating, WaitingToLeave);
  }

  lemma AnnounceLeaveInv(st: State, s: nat)
    requires Inv(st) && Enabled(st, AnnounceLeave(s))
    ensures Inv(Step(st, AnnounceLeave(s)))
  {
    CountUpdate(st.phase, s, WaitingToLeave, WaitingToEat);
    CountUpdate(st.phase, s, WaitingToLeave, Eating);
    CountUpdate(st.phase, s, WaitingToLeave, WaitingToLeave);
  }

  /** Leaving one of two diners needs the other to be leaving too, so the
      diner left behind is itself leaving. */
  lemma DepartInv(st: State, s: nat)
    requires Inv(st) && Enabled(st, Depart(s))
    ensures Inv(Step(st, Depart(s)))
  {
    CountUpdate(st.phase, s, Left, WaitingToEat);
    CountUpdate(st.phase, s, Left, Eating);
    CountUpdate(st.phase, s, Left, WaitingToLeave);
  }

  lemma {:induction false} RunInv(st: State, trace: seq<Action>)
    requires Inv(st)
    requires Run(st, trace).Some?
    ensures Inv(Run(st, trace).value)
    decreases |trace|
  {
    if trace != [] {
      StepInv(st, trace[0]);
      RunInv(Step(st, trace[0]), trace[1..]);
    }
  }

  /** What the invariant means for the counters: none is negative, a student
      waiting to leave is still counted as eating, and the students that have
      not arrived, are waiting to eat, are at the table or have left add up to
      all students. */
  lemma Bounds(st: State)
    requires Inv(st)
    ensures 0 <= st.eating && 0 <= st.readyToEat && 0 <= st.readyToLeave
    ensures st.readyToLeave <= st.eating
    ensures Count(st.phase, NotArrived) + st.readyToEat + st.eating + Count(st.phase, Left)
            == |st.phase|
  {
    CountAll(st.phase);
  }

  /** Every state reachable from init_hall with at least two students satisfies
      the invariant and its consequences. */
  lemma Reachable(n: nat, trace: seq<Action>)
    requires n >= 2
    requires Run(Init(n), trace).Some?
    ensures var st := Run(Init(n), trace).value;
      && Inv(st) && |st.phase| == n
      && 0 <= st.eating && 0 <= st.readyToEat && 0 <= st.readyToLeave <= st.eating
  {
    InitInv(n);
    RunInv(Init(n), trace);
    RunKeepsStudents(Init(n), trace);
    Bounds(Run(Init(n), trace).value);
  }

  lemma {:induction false} RunKeepsStudents(st: State, trace: seq<Action>)
    requires Run(st, trace).Some?
    ensures |Run(st, trace).value.phase| == |st.phase|
    decreases |trace|
  {
    if trace != [] {
      RunKeepsStudents(Step(st, trace[0]), trace[1..]);
    }
  }

  // ---------------------------------------------------------------------------
  // Every step moves one student one phase forward, so a run is bounded.

  lemma StepPending(st: State, a: Action)
    requires Enabled(st, a)
    ensures Pending(Step(st, a).phase) == Pending(st.phase) - 1
  {
    PendingUpdate(st.phase, a.s, Step(st, a).phase[a.s]);
  }

  lemma {:induction false} RunPending(st: State, trace: seq<Action>)
    requires Run(st, trace).Some?
    ensures Pending(Run(st, trace).value.phase) == Pending(st.phase) - |trace|
    decreases |trace|
  {
    if trace != [] {
      StepPending(st, trace[0]);
      RunPending(Step(st, trace[0]), trace[1..]);
    }
  }

  /** Each student calls each entry point once, so `n` students take at most
      4 * n steps, and exactly 4 * n when they have all left. */
  lemma RunLength(n: nat, trace: seq<Action>)
    requires Run(Init(n), trace).Some?
    ensures |trace| <= 4 * n
    ensures AllLeft(Run(Init(n), trace).value) <==> |trace| == 4 * n
  {
    PendingInitially(n);
    RunPending(Init(n), trace);
    NothingPending(Run(Init(n), trace).value.phase);
  }

  // ---------------------------------------------------------------------------
  // The readyToEat guard: pairwise admission.

  /** A waiting eater is blocked exactly when it is the only student waiting to
      eat and nobody is at the table. */
  lemma SitBlockedIff(st: State, s: nat)
    requires Inv(st) && s < |st.phase| && st.phase[s] == WaitingToEat
    ensures !Enabled(st, Sit(s)) <==>
      Count(st.phase, WaitingToEat) == 1
      && Count(st.phase, Eating) == 0 && Count(st.phase, WaitingToLeave) == 0
  {
    assert st.phase[s] in st.phase;
  }

  /** A lone waiting eater at an empty table is admitted once a second student
      announces, and then so is that second student. */
  lemma SecondArrivalAdmits(st: State, s: nat, t: nat)
    requires Inv(st) && s < |st.phase| && st.phase[s] == WaitingToEat
    requires Enabled(st, AnnounceEat(t))
    ensures Enabled(Step(st, AnnounceEat(t)), Sit(s))
    ensures Enabled(Step(st, AnnounceEat(t)), Sit(t))
  {
    assert st.phase[s] in st.phase;
  }

  /** A Sit that makes more than two diners releases every waiting leaver: none
      of them would leave a lone diner behind. */
  lemma ThirdDinerReleasesLeavers(st: State, s: nat)
    requires Enabled(st, Sit(s)) && Step(st, Sit(s)).eating > 2
    ensures forall l :: 0 <= l < |st.phase| && Step(st, Sit(s)).phase[l] == WaitingToLeave
                        ==> Enabled(Step(st, Sit(s)), Depart(l))
  {
  }

  // ---------------------------------------------------------------------------
  // The readyToLeave guard: never strand one diner.

  /** A waiting leaver is blocked exactly when two students are at the table and
      one of them has not announced that it wants to leave. */
  lemma DepartBlockedIff(st: State, s: nat)
    requires Inv(st) && s < |st.phase| && st.phase[s] == WaitingToLeave
    ensures !Enabled(st, Depart(s)) <==> st.eating == 2 && Count(st.phase, Eating) > 0
    ensures st.eating == 1 || st.eating >= 3 ==> Enabled(st, Depart(s))
  {
  }

  /** A Depart never leaves behind a lone diner that still wants to eat: if one
      student remains at the table, it is waiting to leave too. */
  lemma DepartNeverStrands(st: State, s: nat)
    requires Inv(st) && Enabled(st, Depart(s))
    ensures Step(st, Depart(s)).eating == 1 ==>
      Count(Step(st, Depart(s)).phase, Eating) == 0
      && Count(Step(st, Depart(s)).phase, WaitingToLeave) == 1
  {
    StepInv(st, Depart(s));
  }

  /** Two diners who both want to leave both get out, in either order, and the
      table is empty afterwards. */
  lemma PairLeaves(st: State, a: nat, b: nat)
    requires Inv(st) && st.eating == 2
    requires a != b && a < |st.phase| && b < |st.phase|
    requires st.phase[a] == WaitingToLeave && st.phase[b] == WaitingToLeave
    ensures Enabled(st, Depart(a))
    ensures Enabled(Step(st, Depart(a)), Depart(b))
    ensures var st2 := Step(Step(st, Depart(a)), Depart(b));
      st2.eating == 0 && st2.readyToLeave == 0 && st2.readyToEat == st.readyToEat
  {
    CountUpdate(st.phase, a, Eating, WaitingToLeave);
    var ps := st.phase[a := Eating];
    assert ps[b] in ps;
  }

  /** A lone diner is transient: either it has itself announced leaving and may
      go, or a student is waiting to eat and may sit beside it. */
  lemma LoneDinerIsTransient(st: State)
    requires Inv(st) && st.eating == 1
    ensures (Count(st.phase, WaitingToLeave) == 1 && DepartAllowed(st.eating, st.readyToLeave))
            || (Count(st.phase, WaitingToEat) > 0 && SitAllowed(st.eating, st.readyToEat))
  {
  }
}

# Dining hall monitor

A model of the monitor at the heart of `dining_hall.c`. Students fetch food and
then call `readyToEat`, which admits them to the table. They dine and then call
`readyToLeave`, which lets them go. The monitor enforces the rule that nobody
dines alone:

- a student may not sit at an empty table unless a second student is also
  waiting to sit;
- a student may not leave if that would leave exactly one diner behind, unless
  every diner wants to leave.

The monitor keeps three counters under one mutex: `eating`, `ready_to_eat` and
`ready_to_leave`. Each entry point does two things inside the lock:

- It announces: it increments `ready_to_eat` or `ready_to_leave`.
- It commits once its `while` wait loop exits: it moves the student between the
  counters.

The model makes each half an atomic step. The commit step is guarded by the
negation of the loop condition, kept in the source's own arithmetic form.

The project has four modules.

- `Lifecycle` (`lifecycle.dfy`) holds the five phases a student thread goes
  through in `student_routine`: not arrived, waiting to eat, eating, waiting to
  leave, left. It also holds `Count`, the number of students in a phase, with
  its counting lemmas.
- `Protocol` (`protocol.dfy`) is the monitor as a transition system:
  - `State` is the three counters plus the phase of every student.
  - `Action` is the four steps.
  - `Enabled` and `Step` are the guards and the effects.
  - `Run` fires a sequence of steps and yields `None` when a step blocks.
  - `Inv` is the monitor invariant. It is proved to hold initially and to be
    preserved by every step, and so in every reachable state.
  - The other lemmas there state what each guard does.
- `Hall` (`hall.dfy`) is the monitor object: class `DiningHall` with the three
  counter fields, updated in place. Its ghost `phase` field records where each
  student is. Each method is one step. A method's `requires` is the step's
  guard, and its `ensures` gives the counter deltas and ties the new state to
  `Protocol.Step`.
- `Scenarios` (`scenarios.dfy`) holds concrete runs of the monitor. Student
  indexes 0, 1 and 2 stand for thread ids 1, 2 and 3.

Splitting each entry point into announce and commit admits every interleaving
the C program has, and more. In C, the commit directly follows the announce in
the same critical section when the guard already holds. Safety results
therefore carry over to the program. Every concrete run in `Scenarios` and in
`Hall.PairDinesAndLeaves` is one the C program can take too. In each, a student
whose guard already holds when it announces commits at once: the second of a
pair to announce sits first, and the second to announce leaving departs first.

## Specification and code

The system is meant to promise two things: nobody is ever left dining alone,
and every student eventually finishes. The code as written delivers neither in
full. The model follows the code.

- **Nobody is ever left dining alone.** The first of a pair to sit makes
  `eating == 1` and releases the lock before its partner sits.
  `Scenarios.LoneDinerReachable` shows such a state is reachable: student 1 has
  sat and student 0 has not yet. What does hold is the transient reading,
  proved by `Protocol.LoneDinerIsTransient`: in every reachable state with one
  diner, either that diner is itself leaving and may go, or someone waiting to
  eat may sit beside it.
- **Every student eventually finishes.** This does not hold.
  - `Scenarios.PartnerStranded`: with two students, the second to announce can
    sit, dine and leave before its already-admitted partner gets the lock back.
    Leaving from `eating == 1` is never blocked. The partner then waits for good
    at an empty table.
  - `Scenarios.LastArrivalStranded`: with three students, a pair can dine and
    leave before the third has fetched its food, and the third then waits for
    good.

  `Protocol.Stuck` states the deadlock: some student has not left and no step is
  enabled.

## Model

| member | source | states |
|---|---|---|
| Lifecycle.Count | dining_hall.c:8-11 | the number of students in a phase is at most the number of students, and is positive exactly when some student is in that phase |
| Lifecycle.CountUpdate | dining_hall.c:60-62 | moving one student from one phase to another lowers the old phase's count by one, raises the new one's by one, and leaves every other count unchanged |
| Lifecycle.CountAll | dining_hall.c:115-129 | every student is in exactly one phase: the five counts add up to the number of students |
| Lifecycle.CountUniform | dining_hall.c:23-26 | when every student is in the same phase, that phase counts all of them and every other phase counts none |
| Lifecycle.CountIsMultiplicity | dining_hall.c:8-11 | the count of a phase is its multiplicity in the multiset of the students' phases |
| Lifecycle.PendingUpdate | dining_hall.c:115-129 | moving one student changes the total of moves still to make by the difference of the two phases' remaining moves |
| Lifecycle.PendingInitially | dining_hall.c:115-129 | before anybody arrives, each student has four steps to take |
| Lifecycle.NothingPending | dining_hall.c:115-129 | no moves remain exactly when every student has left |
| Protocol.RunAppend | dining_hall.c:115-129 | running two sequences of steps one after the other is the same as running their concatenation; a block in the first blocks the whole |
| Protocol.InitInv | dining_hall.c:23-30 | init_hall sets all three counters to zero, and the invariant holds there |
| Protocol.StepInv | dining_hall.c:47-112 | every enabled step of readyToEat or readyToLeave preserves the invariant: each counter equals the number of students in its phase, and a lone diner is leaving or has a companion waiting to sit |
| Protocol.AnnounceEatInv | dining_hall.c:50 | `ready_to_eat++` keeps `ready_to_eat` equal to the number of students waiting to eat |
| Protocol.SitInv | dining_hall.c:56-62 | sitting keeps the counters equal to the phase counts; a sit at an empty table needs a second waiting eater, so the new lone diner has a companion on its way |
| Protocol.AnnounceLeaveInv | dining_hall.c:82 | `ready_to_leave++` keeps `ready_to_leave` equal to the number of students waiting to leave |
| Protocol.DepartInv | dining_hall.c:91-98 | departing keeps the counters equal to the phase counts; leaving one of two diners is allowed only when the other also waits to leave |
| Protocol.RunInv | dining_hall.c:47-112 | any sequence of steps taken from a state satisfying the invariant ends in a state satisfying it |
| Protocol.Bounds | dining_hall.c:9-11 | under the invariant the counters are non-negative, `ready_to_leave <= eating`, and the not-arrived, waiting-to-eat, at-table and left students add up to all students |
| Protocol.Reachable | dining_hall.c:141-147 | every state reachable from init_hall with at least two students satisfies the invariant, keeps the student count, and has non-negative counters with `ready_to_leave <= eating` |
| Protocol.RunKeepsStudents | dining_hall.c:115-129 | steps never add or remove students |
| Protocol.StepPending | dining_hall.c:115-129 | every step moves one student exactly one phase forward |
| Protocol.RunPending | dining_hall.c:115-129 | a run of k steps lowers the total of remaining moves by exactly k |
| Protocol.RunLength | dining_hall.c:115-129 | n students take at most 4n steps in all, and every student has left exactly when 4n steps have been taken |
| Protocol.SitBlockedIff | dining_hall.c:56-58 | a waiting eater is blocked if and only if it is the only student waiting to eat and nobody is at the table |
| Protocol.SecondArrivalAdmits | dining_hall.c:50-62 | once a second student announces, both the earlier waiting eater and the newcomer may sit |
| Protocol.ThirdDinerReleasesLeavers | dining_hall.c:69-73 | after a sit that makes more than two diners, every student waiting to leave may depart |
| Protocol.DepartBlockedIff | dining_hall.c:86-94 | a waiting leaver is blocked if and only if two students are at the table and one of them has not announced leaving; it is never blocked with one diner or with three or more |
| Protocol.DepartNeverStrands | dining_hall.c:86-98 | a departure that leaves one diner behind leaves a diner that is itself waiting to leave |
| Protocol.PairLeaves | dining_hall.c:86-104 | two diners who both wait to leave both get out, in either order, with `eating` and `ready_to_leave` back at zero and `ready_to_eat` unchanged |
| Protocol.LoneDinerIsTransient | dining_hall.c:54-98 | with one diner, either it waits to leave and may go, or some student waits to eat and may sit |
| Hall.DiningHall.constructor | dining_hall.c:23-30 | init_hall: all three counters are zero, no student has arrived, and the invariant holds |
| Hall.DiningHall.AnnounceEat | dining_hall.c:48-52 | `ready_to_eat` goes up by one and the other counters are unchanged; the invariant is kept |
| Hall.DiningHall.Sit | dining_hall.c:56-75 | callable only when the wait loop would exit; `ready_to_eat` goes down by one and `eating` up by one; with more than two diners every waiting leaver may depart |
| Hall.DiningHall.AnnounceLeave | dining_hall.c:80-84 | `ready_to_leave` goes up by one and the other counters are unchanged; the invariant is kept |
| Hall.DiningHall.Depart | dining_hall.c:91-98 | callable only when the wait loop would exit; `eating` and `ready_to_leave` go down by one; a single remaining diner is waiting to leave |
| Hall.PairDinesAndLeaves | dining_hall.c:115-129 | two students driven through the monitor in an order the threads can take (the second to announce sits first and departs first) end with all three counters at zero |
| Scenarios.LoneArrivalWaits | dining_hall.c:56-58 | the first student to announce cannot sit at an empty table |
| Scenarios.PairSits | dining_hall.c:47-76 | once two students have announced, the second sits at once and then the waiting first one, reaching two diners and nobody waiting |
| Scenarios.LoneDinerReachable | dining_hall.c:56-75 | after both announce and only the second has sat, the state released at the unlock holds one diner and one waiting eater |
| Scenarios.FirstLeaverHeld | dining_hall.c:91-94 | of two diners, the first to announce leaving is held back |
| Scenarios.PairGoes | dining_hall.c:79-112 | once both diners have announced leaving, the second to announce departs, then the first |
| Scenarios.PairScenario | dining_hall.c:115-129 | two students dine and leave together, ending at counters (0, 0, 0) with both gone |
| Scenarios.ThirdJoinsAtOnce | dining_hall.c:56-62 | a student that announces while two dine is not held back and sits, making three diners |
| Scenarios.TrioSits | dining_hall.c:47-76 | from init_hall with three students, a pair sits and the third joins, ending with three diners and nobody waiting |
| Scenarios.TrioFirstLeaves | dining_hall.c:91-98 | with three diners the first leaver is not held back |
| Scenarios.TrioRestLeave | dining_hall.c:79-112 | the remaining two diners leave as a pair, the second to announce first, and the table empties |
| Scenarios.LoneWaiterStuck | dining_hall.c:56-58 | one student waiting at an empty table after all the others have left can never move again |
| Scenarios.PartnerStranded | dining_hall.c:47-112 | with two students, the second to announce can dine and leave before its partner sits; the partner is then stuck |
| Scenarios.ThirdAbsentPairDines | dining_hall.c:47-112 | with three students, a pair can dine and leave while the third has not arrived |
| Scenarios.ThirdArrivesAlone | dining_hall.c:47-58 | the third student then announces at an empty table |
| Scenarios.LastArrivalStranded | dining_hall.c:115-129 | the whole nine-step run, in an order the threads can take, ends with the third student stuck |

## Left out

- The mutex and the two condition variables (`pthread_mutex_*`, `pthread_cond_*`): a critical section is one atomic step, and waiting is "the step is not enabled".
- The signal at line 67 and the broadcasts at lines 72 and 104: a waiting step may fire as soon as its guard holds. Wake-ups that a signal could fail to deliver are not modelled.
- The student id parameter: it is used only in console output. Students are identified by their index in the ghost `phase` sequence.
- `getFood`, `dine`, `leave`, all `printf` output, and the random `usleep` durations: they are I/O and timing and do not touch the counters.
- `main`: reading the student count, creating and joining threads, and `malloc`. The check that at least two students are requested becomes the constructor's `requires students >= 2`.
- The empty `if (hall.eating == 0)` block at lines 107-109: it has no effect.
- Liveness and fairness: no progress theorem is stated, because progress does not hold (see `Scenarios.PartnerStranded` and `Scenarios.LastArrivalStranded`). Which waiter the scheduler picks is not modelled.
- The `int` width of the counters: they are unbounded integers. At most as many students as threads touch them, so they stay far from overflow.

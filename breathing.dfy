/** The breathing exercise (src/components/BreathingExercise.tsx): the phase table of the two
    exercises, the cyclic phase order that skips empty phases, and the countdown timer driven by a
    one-second tick. */
module Breathing {

  datatype Phase = Inhale | Hold | Exhale | Rest

  /** `'4-4-6'` (calm breathing) and `'box'`. */
  datatype ExerciseType = Calm446 | Box

  /** The order the phases follow, from `getNextPhase`. */
  const Order: seq<Phase> := [Inhale, Hold, Exhale, Rest]

  /** The `phases` records of the `exercises` table, in seconds. */
  function Duration(t: ExerciseType, p: Phase): nat
  {
    match (t, p)
    case (Calm446, Inhale) => 4
    case (Calm446, Hold) => 4
    case (Calm446, Exhale) => 6
    case (Calm446, Rest) => 0
    case (Box, _) => 4
  }

  /** `order.indexOf(phase)`: every phase is in the order exactly once. */
  function PhaseIndex(p: Phase): (i: nat)
    ensures i < |Order| && Order[i] == p
    ensures forall j :: 0 <= j < |Order| && Order[j] == p ==> j == i
  {
    match p
    case Inhale => 0
    case Hold => 1
    case Exhale => 2
    case Rest => 3
  }

  /** The phase `k` steps after `p` in the cyclic order. */
  function After(p: Phase, k: nat): Phase
  {
    Order[(PhaseIndex(p) + k) % |Order|]
  }

  /** `q` comes after `p`: it is the first phase, going round the cycle from the one after `p`,
      whose duration is positive; the phases passed over have duration 0. */
  ghost predicate IsNextPhase(t: ExerciseType, p: Phase, q: Phase)
  {
    exists k :: 1 <= k <= |Order| && After(p, k) == q && Duration(t, q) > 0 &&
                forall j :: 1 <= j < k ==> Duration(t, After(p, j)) == 0
  }

  /** At most one phase is next after any phase. */
  lemma NextPhaseUnique(t: ExerciseType, p: Phase, q1: Phase, q2: Phase)
    requires IsNextPhase(t, p, q1) && IsNextPhase(t, p, q2)
    ensures q1 == q2
  {
    var k1 :| 1 <= k1 <= |Order| && After(p, k1) == q1 && Duration(t, q1) > 0 &&
              forall j :: 1 <= j < k1 ==> Duration(t, After(p, j)) == 0;
    var k2 :| 1 <= k2 <= |Order| && After(p, k2) == q2 && Duration(t, q2) > 0 &&
              forall j :: 1 <= j < k2 ==> Duration(t, After(p, j)) == 0;
    assert !(k1 < k2) && !(k2 < k1);
  }

  /** `getNextPhase` (lines 41-52): advances round the order, skipping phases of duration 0. The
      loop ends because inhaling always takes a positive time. */
  method GetNextPhase(t: ExerciseType, phase: Phase) returns (next: Phase)
    ensures Duration(t, next) > 0
    ensures IsNextPhase(t, phase, next)
  {
    var currentIndex := PhaseIndex(phase);
    var nextIndex := (currentIndex + 1) % |Order|;
    ghost var k := 1;
    ghost var bound := if currentIndex == 0 then |Order| else |Order| - currentIndex;
    assert After(phase, bound) == Inhale;
    while Duration(t, Order[nextIndex]) == 0
      invariant 1 <= k <= bound
      invariant nextIndex == (currentIndex + k) % |Order| && Order[nextIndex] == After(phase, k)
      invariant forall j :: 1 <= j < k ==> Duration(t, After(phase, j)) == 0
      decreases bound - k
    {
      nextIndex := (nextIndex + 1) % |Order|;
      k := k + 1;
    }
    next := Order[nextIndex];
  }

  /** In the 4-4-6 exercise, whose rest phase is empty, exhaling is followed by inhaling, and the
      other steps follow the order. */
  lemma CalmCycle()
    ensures IsNextPhase(Calm446, Inhale, Hold)
    ensures IsNextPhase(Calm446, Hold, Exhale)
    ensures IsNextPhase(Calm446, Exhale, Inhale)
  {
    assert After(Inhale, 1) == Hold;
    assert After(Hold, 1) == Exhale;
    assert After(Exhale, 1) == Rest && After(Exhale, 2) == Inhale;
  }

  /** In box breathing every phase lasts four seconds, so the phases follow the order, and resting
      is followed by inhaling. */
  lemma BoxCycle(p: Phase)
    ensures IsNextPhase(Box, p, After(p, 1))
    ensures IsNextPhase(Box, Rest, Inhale)
  {
    assert After(Rest, 1) == Inhale;
  }

  class BreathingTimer {
    var exerciseType: ExerciseType
    var isRunning: bool
    var currentPhase: Phase
    var countdown: int
    var cycleCount: nat

    /** While running, the countdown is between one second and the current phase's duration. */
    ghost predicate Valid()
      reads this
    {
      isRunning ==> 1 <= countdown <= Duration(exerciseType, currentPhase)
    }

    constructor ()
      ensures exerciseType == Calm446 && !isRunning && currentPhase == Inhale && countdown == 0
      ensures cycleCount == 0 && Valid()
    {
      exerciseType, isRunning, currentPhase, countdown, cycleCount := Calm446, false, Inhale, 0, 0;
    }

    /** An exercise button (lines 113-118): the exercise changes only while stopped. */
    method SelectExercise(t: ExerciseType)
      modifies this`exerciseType
      ensures exerciseType == if old(isRunning) then old(exerciseType) else t
      ensures old(Valid()) ==> Valid()
    {
      if !isRunning {
        exerciseType := t;
      }
    }

    /** `startExercise` (lines 54-59). */
    method Start()
      modifies this`isRunning, this`currentPhase, this`countdown, this`cycleCount
      ensures isRunning && currentPhase == Inhale && countdown == Duration(exerciseType, Inhale)
      ensures cycleCount == 0 && Valid()
    {
      isRunning := true;
      currentPhase := Inhale;
      countdown := Duration(exerciseType, Inhale);
      cycleCount := 0;
    }

    /** `stopExercise` (lines 61-66). */
    method Stop()
      modifies this`isRunning, this`currentPhase, this`countdown, this`cycleCount
      ensures !isRunning && currentPhase == Inhale && countdown == 0 && cycleCount == 0 && Valid()
    {
      isRunning := false;
      currentPhase := Inhale;
      countdown := 0;
      cycleCount := 0;
    }

    /** One second of the interval timer (lines 71-84), which only runs while the exercise does:
        count down, or at the end of a phase move to the next one, counting a cycle each time the
        exercise returns to inhaling. */
    method Tick()
      requires isRunning
      modifies this`currentPhase, this`countdown, this`cycleCount
      ensures old(countdown) > 1 ==>
                countdown == old(countdown) - 1 && currentPhase == old(currentPhase) &&
                cycleCount == old(cycleCount)
      ensures old(countdown) <= 1 ==>
                IsNextPhase(exerciseType, old(currentPhase), currentPhase) &&
                countdown == Duration(exerciseType, currentPhase)
      ensures cycleCount == old(cycleCount) + (if old(countdown) <= 1 && currentPhase == Inhale then 1 else 0)
      ensures old(Valid()) ==> Valid()
    {
      if countdown <= 1 {
        var nextPhase := GetNextPhase(exerciseType, currentPhase);
        if nextPhase == Inhale {
          cycleCount := cycleCount + 1;
        }
        currentPhase := nextPhase;
        countdown := Duration(exerciseType, nextPhase);
      } else {
        countdown := countdown - 1;
      }
    }
  }
}

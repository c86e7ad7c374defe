/** The 5-4-3-2-1 grounding exercise (src/components/GroundingExercise.tsx): a stepper through the
    five senses that records each completed sense. */
module Grounding {
  import opened Common

  datatype Sense = Sense(id: string, count: nat)

  /** The `senses` table: see 5, touch 4, hear 3, smell 2 and taste 1 things. */
  const Senses: seq<Sense> :=
    [Sense("see", 5), Sense("touch", 4), Sense("hear", 3), Sense("smell", 2), Sense("taste", 1)]

  /** The ids of the first `k` senses, in order. */
  function SenseIds(k: nat): (ids: seq<string>)
    requires k <= |Senses|
    ensures |ids| == k
    ensures forall i :: 0 <= i < k ==> ids[i] == Senses[i].id
  {
    if k == 0 then [] else SenseIds(k - 1) + [Senses[k - 1].id]
  }

  /** The counts go down from five to one, one step at a time. */
  lemma CountsDescend()
    ensures forall i :: 0 <= i < |Senses| ==> Senses[i].count == |Senses| - i
  {
  }

  class GroundingExercise {
    var currentStep: nat
    var completedSteps: seq<string>
    var isStarted: bool

    /** The state reachable by the buttons: the completed steps are the first senses in order, and
        the current step is the next one, or the last sense once it has been reached. */
    ghost predicate Valid()
      reads this
    {
      |completedSteps| <= |Senses| &&
      completedSteps == SenseIds(|completedSteps|) &&
      currentStep == Min(|completedSteps|, |Senses| - 1)
    }

    /** `isComplete` (line 39). */
    function IsComplete(): bool
      reads this
    {
      |completedSteps| == |Senses|
    }

    constructor ()
      ensures currentStep == 0 && completedSteps == [] && !isStarted && Valid()
    {
      currentStep, completedSteps, isStarted := 0, [], false;
    }

    /** The Begin button (line 56). */
    method Begin()
      modifies this`isStarted
      ensures isStarted
    {
      isStarted := true;
    }

    /** `handleComplete` (lines 24-31), run by the Done button, which is shown only while the
        exercise is started and not complete (lines 60-74, 118): records the current sense and moves
        on unless it was the last one. */
    method HandleComplete()
      requires Valid() && isStarted && !IsComplete()
      modifies this`currentStep, this`completedSteps
      ensures completedSteps == old(completedSteps) + [Senses[old(currentStep)].id]
      ensures currentStep == if old(currentStep) < |Senses| - 1 then old(currentStep) + 1 else old(currentStep)
      ensures Valid()
      ensures completedSteps == SenseIds(|old(completedSteps)| + 1)
    {
      var sense := Senses[currentStep];
      completedSteps := completedSteps + [sense.id];
      if currentStep < |Senses| - 1 {
        currentStep := currentStep + 1;
      }
    }

    /** `reset` (lines 33-37). */
    method Reset()
      modifies this`currentStep, this`completedSteps, this`isStarted
      ensures currentStep == 0 && completedSteps == [] && !isStarted && Valid()
    {
      currentStep := 0;
      completedSteps := [];
      isStarted := false;
    }
  }

  /** Once complete, every sense has been recorded, in the order of the table, and the stepper
      rests on the last sense. */
  lemma CompleteMeansAllSenses(g: GroundingExercise)
    requires g.Valid() && g.IsComplete()
    ensures g.completedSteps == SenseIds(|Senses|)
    ensures g.currentStep == |Senses| - 1
  {
  }

  /** In a reachable state the current step always names a sense, and it is the next sense to do
      while the exercise is not complete. */
  lemma CurrentStepInRange(g: GroundingExercise)
    requires g.Valid()
    ensures g.currentStep < |Senses|
    ensures !g.IsComplete() ==> g.currentStep == |g.completedSteps|
  {
  }
}

/** The "How do we do it?" section: eight steps, one of them selected, moved
    by previous/next arrows or chosen directly by its title button. */
module HowWeWork {

  /** The titles of the steps, in order (their images and descriptions are
      display content). */
  const StepTitles: seq<string> :=
    ["Hello", "Research and reach", "Design", "Front-end",
     "Backend & CMS", "Testing", "Launch", "Maintenance"]

  /** The index of the last step, `steps.length - 1`. */
  const LastStep: int := |StepTitles| - 1

  predicate InRange(step: int) {
    0 <= step <= LastStep
  }

  /** The previous arrow, `Math.max(0, prev - 1)`. */
  function PrevStep(step: int): (r: int)
    ensures r >= 0
    ensures step <= 0 ==> r == 0
    ensures step == 0 ==> r == step
    ensures InRange(step) ==> InRange(r) && r <= step
    ensures step > 0 ==> r + 1 == step
  {
    if step - 1 > 0 then step - 1 else 0
  }

  /** The next arrow, `Math.min(steps.length - 1, prev + 1)`. */
  function NextStep(step: int): (r: int)
    ensures r <= LastStep
    ensures step >= LastStep ==> r == LastStep
    ensures step == LastStep ==> r == step
    ensures InRange(step) ==> InRange(r) && r >= step
    ensures step < LastStep ==> r == step + 1
  {
    if step + 1 < LastStep then step + 1 else LastStep
  }

  /** One click in the section. */
  datatype Click = Prev | Next | Select(index: int)

  /** A click the page can produce: the title buttons are rendered from the
      list of steps, so they carry the indices of that list. */
  predicate Rendered(c: Click) {
    c.Select? ==> 0 <= c.index < |StepTitles|
  }

  /** The step after one click. */
  function Apply(step: int, c: Click): (r: int)
    ensures InRange(step) && Rendered(c) ==> InRange(r)
    ensures c.Select? ==> r == c.index
  {
    match c
    case Prev => PrevStep(step)
    case Next => NextStep(step)
    case Select(i) => i
  }

  /** The selected step after a sequence of clicks. */
  function Run(step: int, clicks: seq<Click>): int
    decreases |clicks|
  {
    if clicks == [] then step else Run(Apply(step, clicks[0]), clicks[1..])
  }

  /** Starting from any step in range, every sequence of clicks the page can
      produce leaves the selection in range, so the description lookup
      `steps[selectedStep]` always finds a step. */
  lemma {:induction false} RunStaysInRange(step: int, clicks: seq<Click>)
    requires InRange(step)
    requires forall k :: 0 <= k < |clicks| ==> Rendered(clicks[k])
    ensures InRange(Run(step, clicks))
    decreases |clicks|
  {
    if clicks != [] {
      RunStaysInRange(Apply(step, clicks[0]), clicks[1..]);
    }
  }

  /** From the initial step, whatever is clicked, the selection stays within
      the eight steps. */
  lemma InitialRunStaysInRange(clicks: seq<Click>)
    requires forall k :: 0 <= k < |clicks| ==> Rendered(clicks[k])
    ensures 0 <= Run(0, clicks) < |StepTitles|
  {
    RunStaysInRange(0, clicks);
  }

  /** Previous then next returns to a step after the first; next then
      previous returns to a step before the last. */
  lemma PrevThenNext(step: int)
    ensures 0 < step <= LastStep ==> NextStep(PrevStep(step)) == step
    ensures 0 <= step < LastStep ==> PrevStep(NextStep(step)) == step
  {
  }

  /** The component's state: the selected step. */
  class StepNavigator {
    var selectedStep: int

    ghost predicate Valid()
      reads this
    {
      InRange(selectedStep)
    }

    constructor ()
      ensures Valid() && selectedStep == 0
    {
      selectedStep := 0;
    }

    /** The text shown for the selected step. */
    function SelectedTitle(): (title: string)
      reads this
      requires Valid()
      ensures title in StepTitles
    {
      StepTitles[selectedStep]
    }

    method OnPrev()
      requires Valid()
      modifies this
      ensures Valid()
      ensures selectedStep == PrevStep(old(selectedStep))
    {
      var prev := selectedStep;
      selectedStep := if 0 > prev - 1 then 0 else prev - 1;
    }

    method OnNext()
      requires Valid()
      modifies this
      ensures Valid()
      ensures selectedStep == NextStep(old(selectedStep))
    {
      var prev := selectedStep;
      selectedStep := if LastStep < prev + 1 then LastStep else prev + 1;
    }

    /** A title button, rendered for each index of the list of steps. */
    method OnSelect(index: int)
      requires Valid()
      requires 0 <= index < |StepTitles|
      modifies this
      ensures Valid()
      ensures selectedStep == index
    {
      selectedStep := index;
    }
  }
}

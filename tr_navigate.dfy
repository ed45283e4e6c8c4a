/**
 * `NavigateResults` and `ClearSelection` of TodoReview.py: moving the
 * selection through the result lines of the result view. The stored
 * selection is used as a Python list index, so a negative value counts from
 * the end and is stored as it is; a value past either end is pulled back to
 * the first or the last result.
 */
module TodoReviewNavigate {
  import opened Wrappers

  /** Where a direction starts when nothing is selected yet; `None` is the `KeyError` of an unknown direction. */
  function StartValue(direction: string): (start: Option<int>)
    ensures start.Some? <==> direction in {"forward", "backward", "forward_skip", "backward_skip"}
    ensures start.Some? ==> (start.value == -1 <==> direction in {"forward", "forward_skip"})
  {
    if direction == "forward" || direction == "forward_skip" then Some(-1)
    else if direction == "backward" || direction == "backward_skip" then Some(0)
    else None
  }

  /** How far a direction moves; the skips come from the settings `navigation_forward_skip` and `navigation_backward_skip`. */
  function Step(direction: string, forwardSkip: int, backwardSkip: int): (step: Option<int>)
    ensures step.Some? <==> StartValue(direction).Some?
  {
    if direction == "forward" then Some(1)
    else if direction == "backward" then Some(-1)
    else if direction == "forward_skip" then Some(forwardSkip)
    else if direction == "backward_skip" then Some(-backwardSkip)
    else None
  }

  /** `results[s]` for a Python list of `count` results: the position a valid index `s` denotes. */
  function ListPosition(s: int, count: nat): (position: nat)
    requires -(count as int) <= s < count
    ensures position < count
    ensures position == s || position == count + s
  {
    if s < 0 then count + s else s
  }

  /**
   * The selection kept after moving to `s`: an index the list accepts is
   * kept, one before the start becomes 0 and one past the end `count - 1`.
   */
  function Clamp(s: int, count: nat): (kept: int)
    requires count > 0
    ensures -(count as int) <= kept < count
    ensures -(count as int) <= s < count ==> kept == s
    ensures s < -(count as int) ==> kept == 0
    ensures count <= s ==> kept == count - 1
  {
    if -(count as int) <= s < count then s
    else if s < 0 then 0
    else count - 1
  }

  /** What one navigation command does. */
  datatype Navigation =
    | NoResults                              // "No results to navigate": nothing changes
    | UnknownDirection                       // the `KeyError`: nothing changes
    | Moved(selection: int, target: nat)     // the stored selection and the result it selects

  /** The outcome of navigating in `direction` from the stored selection `current` among `count` results. */
  function Navigate(current: Option<int>, count: nat, direction: string, forwardSkip: int, backwardSkip: int): Navigation {
    if count == 0 then NoResults
    else
      match (StartValue(direction), Step(direction, forwardSkip, backwardSkip))
      case (Some(start), Some(step)) =>
        var s := Clamp((if current.Some? then current.value else start) + step, count);
        Moved(s, ListPosition(s, count))
      case _ => UnknownDirection
  }

  /** A move always ends on a selection the list accepts, and the target is the result that selection denotes. */
  lemma NavigateSelectsValidIndex(current: Option<int>, count: nat, direction: string, forwardSkip: int, backwardSkip: int)
    ensures var n := Navigate(current, count, direction, forwardSkip, backwardSkip);
            n.Moved? ==> -(count as int) <= n.selection < count && n.target < count &&
                         n.target == (if n.selection < 0 then count + n.selection else n.selection)
  {
  }

  /** The command moves exactly when there are results and the direction is one of the four. */
  lemma NavigateMovesIffKnown(current: Option<int>, count: nat, direction: string, forwardSkip: int, backwardSkip: int)
    ensures var n := Navigate(current, count, direction, forwardSkip, backwardSkip);
            (n.NoResults? <==> count == 0) &&
            (n.Moved? <==> count > 0 && direction in {"forward", "backward", "forward_skip", "backward_skip"})
  {
  }

  /** Stepping to an index the list accepts stores that index, negatives included. */
  lemma ValidStepIsStored(current: int, count: nat, direction: string, forwardSkip: int, backwardSkip: int)
    requires Step(direction, forwardSkip, backwardSkip).Some?
    requires -(count as int) <= current + Step(direction, forwardSkip, backwardSkip).value < count
    ensures Navigate(Some(current), count, direction, forwardSkip, backwardSkip).Moved?
    ensures Navigate(Some(current), count, direction, forwardSkip, backwardSkip).selection == current + Step(direction, forwardSkip, backwardSkip).value
  {
  }

  /** Going forward with nothing selected selects the first result. */
  lemma ForwardFromNothingSelectsFirst(count: nat, forward: string, forwardSkip: int, backwardSkip: int)
    requires count > 0 && forward == "forward"
    ensures Navigate(None, count, forward, forwardSkip, backwardSkip) == Moved(0, 0)
  {
  }

  /** Going backward with nothing selected stores -1, which selects the last result. */
  lemma BackwardFromNothingSelectsLast(count: nat, backward: string, forwardSkip: int, backwardSkip: int)
    requires count > 0 && backward == "backward"
    ensures Navigate(None, count, backward, forwardSkip, backwardSkip) == Moved(-1, count - 1)
  {
  }

  /**
   * The two ends behave differently: backward from the first result wraps
   * to the last one, since -1 is a valid index, while forward from the last
   * result stays on it.
   */
  lemma EndsAreAsymmetric(count: nat, forward: string, backward: string, forwardSkip: int, backwardSkip: int)
    requires count > 0 && forward == "forward" && backward == "backward"
    ensures Navigate(Some(0), count, backward, forwardSkip, backwardSkip) == Moved(-1, count - 1)
    ensures Navigate(Some(count - 1), count, forward, forwardSkip, backwardSkip) == Moved(count - 1, count - 1)
  {
  }

  /** A skip past the end of the list stops on the last result, one before the start on the first. */
  lemma SkipsStopAtTheEnds(current: int, count: nat, direction: string, forwardSkip: int, backwardSkip: int)
    requires count > 0 && Step(direction, forwardSkip, backwardSkip).Some?
    ensures var s := current + Step(direction, forwardSkip, backwardSkip).value;
            var n := Navigate(Some(current), count, direction, forwardSkip, backwardSkip);
            (s >= count ==> n == Moved(count - 1, count - 1)) &&
            (s < -(count as int) ==> n == Moved(0, 0))
  {
  }

  /** The result view's selection state: how many result lines it shows and the stored `selected_result`. */
  class ResultView {
    var resultCount: nat
    var selectedResult: Option<int>

    constructor(resultCount: nat)
      ensures this.resultCount == resultCount && selectedResult == None
    {
      this.resultCount := resultCount;
      selectedResult := None;
    }

    /**
     * `NavigateResults.run`: moves the stored selection and returns the
     * outcome, whose target is the result line to highlight.
     */
    method NavigateResults(direction: string, forwardSkip: int, backwardSkip: int) returns (outcome: Navigation)
      modifies this
      ensures outcome == Navigate(old(selectedResult), old(resultCount), direction, forwardSkip, backwardSkip)
      ensures resultCount == old(resultCount)
      ensures selectedResult == if outcome.Moved? then Some(outcome.selection) else old(selectedResult)
    {
      if resultCount == 0 {
        return NoResults;
      }
      var start := StartValue(direction);
      var step := Step(direction, forwardSkip, backwardSkip);
      if start.None? || step.None? {
        return UnknownDirection;
      }
      var selection := (if selectedResult.Some? then selectedResult.value else start.value) + step.value;
      var target: nat;
      if -(resultCount as int) <= selection < resultCount {
        target := if selection < 0 then resultCount + selection else selection;
      } else if selection < 0 {
        target := 0;
        selection := 0;
      } else {
        target := resultCount - 1;
        selection := resultCount - 1;
      }
      selectedResult := Some(selection);
      outcome := Moved(selection, target);
    }

    /** `ClearSelection.run`: forgets the stored selection, so the next move starts afresh. */
    method ClearSelection()
      modifies this
      ensures selectedResult == None && resultCount == old(resultCount)
    {
      selectedResult := None;
    }
  }
}

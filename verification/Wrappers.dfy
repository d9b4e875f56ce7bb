/** Small result types shared by the models. */
module Wrappers {

  datatype Option<+T> = None | Some(value: T)

  /** How a run of a recovery routine ends.  `Conflict` stands for the source's
      fail-closed exceptions; `Crash` is power loss between two atomic steps.
      Propagated with `:-`, exactly as an exception would unwind the source. */
  datatype Outcome = Pass | Conflict | Crash {
    predicate IsFailure() { !Pass? }

    function PropagateFailure(): Outcome
      requires IsFailure()
    { this }
  }

  /** The power supply: `left` atomic steps may still happen, or, when `None`,
      the run is never interrupted.  A step that finds no power left does not
      happen at all, so every boundary between two atomic steps is a possible
      crash point. */
  class Power {
    var left: Option<nat>

    constructor (steps: Option<nat>)
      ensures left == steps
    { left := steps; }

    method Tick() returns (r: Outcome)
      modifies this
      ensures r == if old(left) == Some(0) then Crash else Pass
      ensures old(left) == None ==> left == None
      ensures old(left).Some? ==> left == if r.Pass? then Some(old(left).value - 1) else old(left)
    {
      match left
      case None => r := Pass;
      case Some(n) =>
        if n == 0 {
          r := Crash;
        } else {
          left := Some(n - 1);
          r := Pass;
        }
    }
  }
}

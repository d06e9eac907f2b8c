/**
 * The interrupt-driven push button / crash sensor (Button). The pin has a
 * pull-up, so level 0 means pressed: a falling edge fires button_down and a
 * rising edge fires button_up when that handler was supplied.
 */
module Buttons {
  import opened Pins

  /** A callback invocation: button_down() or button_up(). */
  datatype ButtonEvent = Pressed | Released

  /** The callbacks one pin-change interrupt fires when the level goes from state to newState. */
  function ChangeEvents(state: Level, newState: Level, hasUp: bool): (evs: seq<ButtonEvent>)
    ensures |evs| <= 1
    ensures state == newState ==> evs == []
    ensures Pressed in evs <==> state == 1 && newState == 0
    ensures Released in evs <==> state == 0 && newState == 1 && hasUp
  {
    if state == 0 && newState == 1 then (if hasUp then [Released] else [])
    else if state == 1 && newState == 0 then [Pressed]
    else []
  }

  predicate LastIs(evs: seq<ButtonEvent>, e: ButtonEvent) {
    evs != [] && evs[|evs| - 1] == e
  }

  /** Presses and releases take turns: no event is immediately repeated. */
  ghost predicate Alternating(evs: seq<ButtonEvent>) {
    forall i :: 0 < i < |evs| ==> evs[i] != evs[i - 1]
  }

  class Button {
    /** The pin level seen by the last interrupt (initially the level at construction). */
    var state: Level
    /** Whether a button_up handler was supplied; button_down is mandatory. */
    const hasButtonUp: bool
    /** The callbacks fired so far, in order. */
    var fired: seq<ButtonEvent>

    /** After a release the button is up; when releases are reported, presses and releases alternate
        and after a press the button is down. */
    ghost predicate Valid()
      reads this
    {
      (LastIs(fired, Released) ==> state == 1) &&
      (hasButtonUp ==> Alternating(fired) && (LastIs(fired, Pressed) ==> state == 0))
    }

    constructor (initial: Level, hasButtonUp: bool := false)
      ensures Valid()
      ensures state == initial && this.hasButtonUp == hasButtonUp && fired == []
    {
      state := initial;
      this.hasButtonUp := hasButtonUp;
      fired := [];
    }

    /** The pin-change interrupt handler, with the pin's new level as input. */
    method OnChange(newState: Level)
      requires Valid()
      modifies this
      ensures Valid()
      ensures state == newState
      ensures fired == old(fired) + ChangeEvents(old(state), newState, hasButtonUp)
    {
      if state == 0 && newState == 1 {
        if hasButtonUp {
          fired := fired + [Released];
        }
      } else if state == 1 && newState == 0 {
        fired := fired + [Pressed];
      }
      state := newState;
    }
  }
}

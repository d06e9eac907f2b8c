/**
 * The five-button resistor-ladder keypad (ADKeypad): a raw 10-bit ADC reading
 * is classified into a key index by an ascending threshold table, and a
 * periodic poll turns changes of that classification into button_down /
 * button_up callbacks.
 */
module Keypad {

  datatype Option<T> = None | Some(value: T)

  /** The keypad's threshold table: key i is pressed when the reading is below Thresholds[i]
      and not below any earlier threshold; a reading of 600 or more means no key. */
  const Thresholds: seq<int> := [10, 20, 70, 150, 600]

  ghost predicate StrictlyAscending(ts: seq<int>) {
    forall a, b :: 0 <= a < b < |ts| ==> ts[a] < ts[b]
  }

  /** The index of the first threshold strictly greater than v, or None when there is none. */
  function Classify(ts: seq<int>, v: int): (r: Option<nat>)
    ensures r.Some? ==> r.value < |ts| && v < ts[r.value]
    ensures r.Some? ==> forall j :: 0 <= j < r.value ==> ts[j] <= v
    ensures r.None? <==> forall j :: 0 <= j < |ts| ==> ts[j] <= v
  {
    if ts == [] then None
    else if v < ts[0] then Some(0)
    else match Classify(ts[1..], v)
      case None => None
      case Some(k) => Some(k + 1)
  }

  /** voltage_to_key: the key the keypad reports for the ADC reading v, against its fixed table. */
  function KeyOf(v: int): (key: Option<nat>) {
    Classify(Thresholds, v)
  }

  /** Classification never moves down as the reading grows, and once a reading is
      above every threshold so is every larger one. */
  lemma ClassifyMonotone(ts: seq<int>, v1: int, v2: int)
    requires v1 <= v2
    ensures Classify(ts, v1).None? ==> Classify(ts, v2).None?
    ensures Classify(ts, v1).Some? && Classify(ts, v2).Some? ==>
              Classify(ts, v1).value <= Classify(ts, v2).value
  {
    // Follows from Classify's first-strictly-greater contract at v1 and at v2.
  }

  /** With a strictly ascending table the keys are half-open bands:
      key i is reported exactly for ts[i-1] <= v < ts[i] (for i = 0, exactly for v < ts[0]). */
  lemma ClassifyBand(ts: seq<int>, v: int, i: nat)
    requires StrictlyAscending(ts)
    requires i < |ts|
    ensures Classify(ts, v) == Some(i) <==> (i == 0 || ts[i - 1] <= v) && v < ts[i]
  {
  }

  /** The keypad's own table: a reading of 600 or more is "no key", anything lower is one of keys 0..4. */
  lemma KeyOfRange(v: int)
    ensures KeyOf(v).None? <==> 600 <= v
    ensures KeyOf(v).Some? ==> KeyOf(v).value < 5
  {
    if KeyOf(v).None? {
      assert Thresholds[4] <= v;
    } else {
      assert KeyOf(v).value < |Thresholds|;
    }
  }

  /** The keypad's table is strictly ascending, so its keys are half-open bands of readings. */
  lemma KeyBands(v: int, i: nat)
    requires i < |Thresholds|
    ensures KeyOf(v) == Some(i) <==> (i == 0 || Thresholds[i - 1] <= v) && v < Thresholds[i]
  {
    assert StrictlyAscending(Thresholds);
    ClassifyBand(Thresholds, v, i);
  }

  /** The boundary readings of the keypad: the lower bound of each band belongs to it. */
  lemma KeyOfExamples()
    ensures KeyOf(5) == Some(0)
    ensures KeyOf(10) == Some(1)
    ensures KeyOf(599) == Some(4)
    ensures KeyOf(600) == None
    ensures KeyOf(1000) == None
  {
    KeyBands(5, 0);
    KeyBands(10, 1);
    KeyBands(599, 4);
    KeyOfRange(600);
    KeyOfRange(1000);
  }

  /** A callback invocation: button_down(key) or button_up(). */
  datatype KeyEvent = KeyDown(key: nat) | KeyUp

  /** The callbacks one poll fires when the classification goes from last to now,
      given which of the two handlers were supplied. */
  function EdgeEvents(last: Option<nat>, now: Option<nat>, hasDown: bool, hasUp: bool): (evs: seq<KeyEvent>)
    ensures |evs| <= 1
    ensures last == now ==> evs == []
    ensures KeyUp in evs <==> last != now && now.None? && hasUp
    ensures forall k: nat :: KeyDown(k) in evs <==> last != now && now == Some(k) && hasDown
  {
    if last == now then []
    else if now.None? then (if hasUp then [KeyUp] else [])
    else (if hasDown then [KeyDown(now.value)] else [])
  }

  /** Three polls: a press of key 2 from "no key", its release, and a direct change from key 1
      to key 3, which reports button_down(3) without an intervening button_up. */
  lemma PollExamples()
    ensures EdgeEvents(None, KeyOf(50), true, true) == [KeyDown(2)]
    ensures EdgeEvents(Some(2), KeyOf(1000), true, true) == [KeyUp]
    ensures EdgeEvents(Some(1), KeyOf(100), true, true) == [KeyDown(3)]
  {
    KeyBands(50, 2);
    KeyBands(100, 3);
    KeyOfRange(1000);
  }

  predicate LastIsRelease(evs: seq<KeyEvent>) {
    evs != [] && evs[|evs| - 1] == KeyUp
  }

  /** No two button_up calls follow each other without a button_down between them. */
  ghost predicate NoRepeatedRelease(evs: seq<KeyEvent>) {
    forall i :: 0 < i < |evs| && evs[i] == KeyUp ==> evs[i - 1] != KeyUp
  }

  class ADKeypad {
    /** button_last_state: the last classification seen by a poll. */
    var lastState: Option<nat>
    /** Whether a button_down / button_up handler was supplied (the source's None default). */
    const hasButtonDown: bool
    const hasButtonUp: bool
    /** The callbacks fired so far, in order. */
    var fired: seq<KeyEvent>

    ghost predicate Valid()
      reads this
    {
      (lastState.Some? ==> lastState.value < |Thresholds|) &&
      (forall i :: 0 <= i < |fired| && fired[i].KeyDown? ==> fired[i].key < |Thresholds|) &&
      (hasButtonDown ==> NoRepeatedRelease(fired) && (LastIsRelease(fired) ==> lastState.None?))
    }

    /** The keypad starts from the classification of the reading taken at construction. */
    constructor (reading: int, hasButtonDown: bool := false, hasButtonUp: bool := false)
      ensures Valid()
      ensures lastState == KeyOf(reading) && fired == []
      ensures this.hasButtonDown == hasButtonDown && this.hasButtonUp == hasButtonUp
    {
      var s := VoltageToKey(reading);
      KeyOfRange(reading);
      lastState := s;
      this.hasButtonDown := hasButtonDown;
      this.hasButtonUp := hasButtonUp;
      fired := [];
    }

    /** Scans the threshold table in order and returns the first index whose threshold exceeds v. */
    static method VoltageToKey(v: int) returns (r: Option<nat>)
      ensures r == KeyOf(v)
    {
      var thresholds := Thresholds;
      for i := 0 to |thresholds|
        invariant forall j :: 0 <= j < i ==> thresholds[j] <= v
      {
        if v < thresholds[i] {
          return Some(i);
        }
      }
      return None;
    }

    /** One timer tick: classify the fresh reading, fire button_up on a change to "no key",
        button_down(k) on a change to key k (also from another key), and remember the new state. */
    method ButtonCheck(reading: int)
      requires Valid()
      modifies this
      ensures Valid()
      ensures lastState == KeyOf(reading)
      ensures fired == old(fired) + EdgeEvents(old(lastState), lastState, hasButtonDown, hasButtonUp)
    {
      var newState := VoltageToKey(reading);
      KeyOfRange(reading);
      if lastState != newState {
        if newState.None? {
          if hasButtonUp {
            fired := fired + [KeyUp];
          }
        } else {
          if hasButtonDown {
            fired := fired + [KeyDown(newState.value)];
          }
        }
      }
      lastState := newState;
    }
  }
}

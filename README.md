# tinkerlib core, modelled in Dafny

`tinkerlib` is a small MicroPython helper library for a microcontroller
board. Almost all of it hands calls straight to the `machine` board-support
package. This project models the parts that have logic of their own:

- **ADKeypad** (`keypad.dfy`, module `Keypad`). A five-button resistor-ladder
  keypad. `voltage_to_key` classifies a raw 10-bit ADC reading against the
  ascending table `[10, 20, 70, 150, 600]`: it returns the index of the
  first threshold strictly above the reading, or `None` ("no key").
  `button_check` runs on every timer tick. It compares the fresh
  classification with `button_last_state`. It fires `button_up` on a change
  to `None` and `button_down(k)` on a change to key `k`, in each case only
  when that handler was supplied. It then stores the new state.
- **Button** (`button.dfy`, module `Buttons`). A push button on a pulled-up
  pin. On every pin-change interrupt, a 1 → 0 change fires `button_down`.
  A 0 → 1 change fires `button_up` when that handler was supplied. The stored
  level `state` is then updated.
- **DustSensor** (`dust.dfy`, module `Dust`). The integer part of `read`. It
  adds up, over a window of `sampletime_ms`, the microseconds the sensor pin
  spends low. `_pulseInTimeout` measures one low pulse and gives up with 0
  once `ticks_ms` passes the end of the window.
- `pins.dfy` (module `Pins`) holds the pin level type `Level` (0 or 1).

Modelling choices:

- Callbacks are recorded, not called. Each class has a `fired` field, the
  sequence of callbacks fired so far. Whether the optional handlers were
  supplied is a `const` boolean (`hasButtonDown`, `hasButtonUp`).
- The ADC reading and the pin level are parameters of `ButtonCheck` and
  `OnChange`, and of the keypad constructor.
- The dust sensor's pin and clocks are a `Signal`. It gives the pin level and
  the microsecond clock at each instant 0, 1, 2, … . Every read of the pin,
  of `ticks_ms` or of `ticks_us` looks at the current instant and moves the
  cursor `t` on by one. The microsecond clock strictly increases
  (`ClockAdvances`), and `ticks_ms` is the microsecond clock divided by 1000.
  Under that assumption all three loops are proved to terminate: the wait for
  the level, the hold while at it, and `read`'s accumulation loop.
- A direct key-to-key change (for example key 1 to key 3) fires
  `button_down` with the new key, here `button_down(3)`. `PollExamples`
  states this case.
- The busy-wait `while pin.value() == value and ticks_ms() < endTime` inside
  `_pulseInTimeout` is its own method, `HoldWhileAtLevel`, which
  `PulseInTimeout` calls. It reads the signal exactly as the inline loop
  does. In the same way one turn of `read`'s loop, the call of
  `_pulseInTimeout` and what it adds to the record of measurements, is the
  method `MeasureNext`.
- Which way a call of `_pulseInTimeout` went is recorded in a `PulseRun`:
  whether it timed out, how many rounds it waited for the level, and how many
  rounds it then held it. `PulseOutcome` states what the reads of such a call
  were, instant by instant, and what it returned.

## Model

| member | source | states |
|---|---|---|
| `Keypad.Classify` | src/tinkerlib.py:124-129 | The scan returns `i` only if `v < ts[i]` and every earlier threshold is `<= v`. It returns `None` exactly when no threshold is above `v`. `KeyOf` is this scan on the table `[10, 20, 70, 150, 600]`, that is, `voltage_to_key`. |
| `Keypad.ClassifyMonotone` | src/tinkerlib.py:124-129 | For `v1 <= v2`: if `v1` is "no key", so is `v2`; if both are keys, the key of `v1` is `<=` the key of `v2`. |
| `Keypad.ClassifyBand` | src/tinkerlib.py:125-128 | With a strictly ascending table, key `i` is reported exactly when `ts[i-1] <= v < ts[i]` (for `i = 0`, exactly when `v < ts[0]`). |
| `Keypad.KeyBands` | src/tinkerlib.py:125-128 | The same half-open band characterisation for the keypad's own table `[10, 20, 70, 150, 600]`. |
| `Keypad.KeyOfRange` | src/tinkerlib.py:125-129 | `KeyOf` (`voltage_to_key`) reports "no key" exactly for readings `>= 600`; otherwise the key is one of 0..4. |
| `Keypad.KeyOfExamples` | src/tinkerlib.py:124-129 | 5 gives key 0, 10 gives key 1, 599 gives key 4, 600 and 1000 give "no key". |
| `Keypad.EdgeEvents` | src/tinkerlib.py:136-142 | A poll fires at most one callback and none when the classification is unchanged. It fires `button_up` exactly on a change to "no key" with that handler supplied. It fires `button_down(k)` exactly on a change to key `k` with that handler supplied, also when the previous state was another key. |
| `Keypad.PollExamples` | src/tinkerlib.py:134-143 | "No key" to reading 50 fires `button_down(2)`. Key 2 to reading 1000 fires `button_up`. Key 1 to reading 100 fires `button_down(3)`. |
| `Keypad.ADKeypad.constructor` | src/tinkerlib.py:111-118 | The keypad starts with `button_last_state` equal to the classification of the first reading and no callbacks fired. |
| `Keypad.ADKeypad.VoltageToKey` | src/tinkerlib.py:124-129 | The loop's answer equals the first-strictly-greater classification against the table. |
| `Keypad.ADKeypad.ButtonCheck` | src/tinkerlib.py:134-143 | `button_last_state` becomes the fresh classification whether or not a callback ran. The fired log grows by exactly the `EdgeEvents` of the change. The invariant is kept: recorded keys are in 0..4, and with a `button_down` handler two `button_up` calls never follow each other. |
| `Buttons.ChangeEvents` | src/tinkerlib.py:101-105 | An interrupt fires at most one callback and none for equal levels. It fires `button_down` exactly on 1 → 0. It fires `button_up` exactly on 0 → 1 with that handler supplied. |
| `Buttons.Button.constructor` | src/tinkerlib.py:89-94 | The stored state is the pin level at construction, and nothing has fired. |
| `Buttons.Button.OnChange` | src/tinkerlib.py:98-107 | `state` becomes the new level. The fired log grows by exactly `ChangeEvents`. The invariant is kept: after a release the button is up, and with a `button_up` handler presses and releases strictly alternate. |
| `Dust.HoldWhileAtLevel` | src/tinkerlib.py:52-53 | The busy-wait runs some number of full rounds. In each round the pin read shows the level and the `ticks_ms` read is still before `endTime`. It then stops on the first read that ends it: either the next pin read shows another level, or it still shows the level and the following `ticks_ms` read has reached `endTime`. The last read of the loop is exactly that read. |
| `Dust.PulseInTimeout` | src/tinkerlib.py:44-56 | The call first waits some number of rounds. In each round the pin is away from the level and `ticks_ms` is not past `endTime`. It then either times out or measures. A timeout means the next pin read is still away from the level, the following `ticks_ms` read is past `endTime`, and the result is 0. A measurement means the next pin read shows the level and the start stamp is read right after it. Then the hold runs full rounds at the level with the clock before `endTime`, and ends on the first pin read away from the level or the first `ticks_ms` read at `endTime`. The final `ticks_us` read comes right after that, and the result is it minus the start stamp. Either way the result is non-negative and no longer than the call took. If the pin is at the level at no instant of the call, the call times out with 0. |
| `Dust.DustSensor.constructor` | src/tinkerlib.py:38-40 | The sampling window defaults to 30000 ms. |
| `Dust.MeasureNext` | src/tinkerlib.py:63 | Called right after a loop test that found `ticks_ms` before the end of the window, the pulse measurement returns a non-negative duration no longer than the call took, and 0 when the pin is low at no instant of the call. The record of measurements gains exactly this call: where it started, which way it went, what it returned, and that it ends where the next loop test is read. |
| `Dust.DustSensor.Read` | src/tinkerlib.py:58-64 | `durations` lists what each pulse measurement returned. Each is non-negative. Each is tied to its call: the i-th call starts right after a loop test that found `ticks_ms` before the end of the window, the first one right after the first loop test, and it returned `durations[i]` exactly as `PulseInTimeout`'s outcome says, ending where the next loop test is read. `partials[i]` is the accumulator after adding `durations[i]` to the one before, starting from 0. `occupancy` is the last of them, or 0 when no measurement ran. No measurement runs exactly when the first loop test, the `ticks_ms` read right after `starttime_ms`, is already at the end of the window. The accumulator never decreases. The loop ends only once `ticks_ms` has reached the end of the window. The total is bounded by the elapsed microseconds, and it is 0 when the pin is low at no instant of the run. |

## Left out

- All `machine` calls: ADC construction and its `width`/`atten` set-up, `Pin.init`, `Pin.irq`, `Timer.init` and PWM. They are board-support code that is not part of this model. The ADC reading and the pin level become parameters instead.
- `machine.disable_irq` / `enable_irq` around the button interrupt handler. Their purpose is interrupt concurrency. Each handler is modelled as one sequential step.
- The floating-point ratio `lowpulseoccupancy_us / (sampletime_ms * 10.0)` and the calibration polynomial in `DustSensor.read`. They are sensor-specific floating-point numerics. `Read` returns the integer accumulator.
- Clock wraparound and `ticks_diff`. The clocks are unbounded and strictly increasing, and differences are plain subtractions. Real busy-wait durations are abstracted into one instant per read.
- `LED`, `Potentiometer`, `PIRSensor` and `Buzzer`. Each is a one-line delegation to `machine` or a sleep, with no logic of its own.
- `button_state` is inlined: it is `VoltageToKey` applied to the ADC reading passed in.

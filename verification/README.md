# PID controller — Dafny model

This project models the discrete-time PID controller of `src/pid_controller.cpp`,
written in "standard" form C(s) = Kp(1 + 1/(s Ti) + s Td). The controller is a
caller-owned record of three gains (`kp`, `ti`, `td`) and two pieces of transient
state (`integral`, the running sum of error * dt, and `prev_error`, the error of
the previous tick). It has three operations: set the gains, reset the transient
state, and compute one control tick.

- `pid_controller.dfy`, module `PidController`: the `Controller` record and the
  three operations as pure functions. `SetGains` and `Reset` return the updated
  record. `Calculate` returns a `Step` holding the output and the updated record.
  The lemmas state what each operation changes and what it leaves alone, and the
  output formula in each `ti` branch.
- `pid_runs.dfy`, module `PidRuns`: a caller feeding the controller a sequence of
  samples `(error, dt)`, one tick each, in order. `Run` gives the final record and
  `Outputs` the list of outputs. `ErrorArea` is an independent reference sum of
  error * dt. The lemmas prove by induction that a run adds exactly that sum to the
  accumulator. They give every output of a run in closed form and specialise it to
  constant error and to the two-tick derivative response.

The `float` values of `src/pid_controller.cpp` are modelled as exact `real` numbers. The fields of
the controller struct are inferred from their uses in `src/pid_controller.cpp`.
The header `mec/pid_controller.h` that declares the struct is not part of this
model.

The code subtracts the derivative term (line 56). The formula in its comment
(line 34) and the standard form (line 5) add it. The model follows the code.
`PidController.OutputIsStandardFormWithNegatedTd` states the relation: the
computed output is the standard-form output with `td` negated.

## Model

| member | source | states |
|---|---|---|
| `PidController.SetGains` | src/pid_controller.cpp:14-19 | the three gains become exactly the arguments; `integral` and `prev_error` are unchanged; there is no precondition, so every value, including zero and negative gains, is accepted |
| `PidController.Reset` | src/pid_controller.cpp:21-25 | `integral` and `prev_error` become zero and all three gains are unchanged |
| `PidController.ResetIdempotent` | src/pid_controller.cpp:21-25 | resetting twice gives the same record as resetting once |
| `PidController.ResetIsFresh` | src/pid_controller.cpp:21-25 | a reset controller equals a zero-initialised record given the same gains |
| `PidController.SetGainsResetCommute` | src/pid_controller.cpp:14-25 | setting gains and resetting write disjoint fields, so the two commute |
| `PidController.SetGainsOverwrites` | src/pid_controller.cpp:14-19 | when gains are set twice, the second call wins and the first leaves no trace |
| `PidController.Calculate` | src/pid_controller.cpp:32-59 | a tick never changes `kp`, `ti` or `td`; the new `integral` is the old one plus error * dt, whether or not `ti` is zero; the new `prev_error` is the tick's error |
| `PidController.OutputWithoutIntegralAction` | src/pid_controller.cpp:45-56 | with `ti == 0` the output is kp * (e - td * ((e - old prev_error) / dt)); there is no integral contribution and no division by `ti` |
| `PidController.OutputWithIntegralAction` | src/pid_controller.cpp:43-56 | with `ti != 0` the output is kp * (e + (1/ti) * new integral - td * ((e - old prev_error) / dt)); the integral term uses the accumulator after this tick's update, and the derivative uses `prev_error` from before it |
| `PidController.ProportionalOnly` | src/pid_controller.cpp:45-56 | with `ti == 0` and `td == 0` the output is exactly kp * e, whatever the accumulated state |
| `PidController.CalculateAfterResetIsFresh` | src/pid_controller.cpp:21-59 | a tick after a reset gives the same output and record as a tick on a freshly zeroed controller with the same gains |
| `PidController.OutputStateSensitivity` | src/pid_controller.cpp:43-56 | for two controllers with the same gains, one tick with the same error and step gives outputs that differ by kp * (integral term of the accumulator difference + td * (remembered-error difference) / dt); so the history reaches the output only through `integral` and `prev_error`, and only linearly |
| `PidController.OutputIsStandardFormWithNegatedTd` | src/pid_controller.cpp:34-56 | for `ti != 0` and every `dt != 0`, the computed output equals the documented formula Kp(e + (1/Ti) * integral + Td * de/dt) with `td` replaced by `-td` |
| `PidRuns.RunState` | src/pid_controller.cpp:43-53 | after any sequence of ticks the gains are unchanged, the accumulator has grown by exactly the reference sum of error * dt, and `prev_error` is the last sample's error (unchanged for an empty run) |
| `PidRuns.RunAppend` | src/pid_controller.cpp:32-59 | feeding two sample sequences one after the other gives the same record as feeding their concatenation |
| `PidRuns.OutputIsTickAfterPrefix` | src/pid_controller.cpp:32-59 | the i-th output of a run is the tick taken from the record reached after the first i samples |
| `PidRuns.StateBeforeTick` | src/pid_controller.cpp:43-53 | before the tick at index i, the gains are unchanged; that tick extends the accumulator to the reference sum over the first i+1 samples; the remembered error is the previous sample's error |
| `PidRuns.TickClosedForm` | src/pid_controller.cpp:43-56 | the tick at index i of a run outputs the control law with the integral term of the initial accumulator plus the reference sum up to that tick, and the derivative against the previous sample's error |
| `PidRuns.OutputClosedForm` | src/pid_controller.cpp:43-56 | every output of a run has the closed form `TickClosedForm` states |
| `PidRuns.ErrorAreaRepeat` | src/pid_controller.cpp:43 | the reference sum of error * dt over n equal samples is n * e * dt |
| `PidRuns.ConstantErrorFromReset` | src/pid_controller.cpp:21-53 | starting from a reset, n ticks with constant error e and step dt leave `integral == n * e * dt` and, for n >= 1, `prev_error == e`; the gains are unchanged |
| `PidRuns.ConstantErrorOutput` | src/pid_controller.cpp:21-56 | starting from a reset, the n-th output under constant error e is kp * (e + integral term of n * e * dt), minus the derivative kick td * (e / dt) on the first tick only |
| `PidRuns.TwoTickDerivative` | src/pid_controller.cpp:45-56 | with `ti == 0`, two consecutive ticks with errors e1 then e2 give kp * (e2 - td * ((e2 - e1) / dt2)) on the second tick, whatever the earlier history |

## Left out

- The NaN self-test on `integral` and the reset it triggers (src/pid_controller.cpp:36-40): over `real` the accumulator is never NaN, so the branch cannot be taken.
- Calculate: requires `dt != 0`. `pid_calculate` does not guard the division by `dt` at line 52; in `float` a zero step gives an infinite or NaN output, which `real` cannot represent. The same goes for the zero-step degenerate output.
- Calculate: uses exact real arithmetic. Float rounding is not modelled, nor is the difference between multiplying by the `1.0f / ti` reciprocal and dividing by `ti`.
- Non-finite values are outside the `real` model. This covers `float` overflow of the accumulator or the output to plus or minus infinity, and a caller passing an `error` or `dt` that is NaN or infinite. The model states nothing about how such values propagate.
- The includes (`<iostream>`, `mec/util.h`) and the header's struct layout carry no logic and are not modelled.
- Thread safety is not modelled, because `pid_calculate` is written for single-threaded use. The caller's sampling loop is modelled only abstractly, as the sample sequences of `PidRuns`; deciding when to tick and measuring `dt` are outside `src/pid_controller.cpp`.

/**
  A discrete-time PID controller in "standard" form, C(s) = Kp(1 + 1/(s Ti) + s Td).

  The controller is a caller-owned record of three gains and two pieces of
  transient state. The three operations of `src/pid_controller.cpp`
  (`pid_set_gains`, `pid_reset`, `pid_calculate`), which mutate the record in
  place, are modelled here as pure functions from the old record to the new
  one. Floating-point values are abstracted by exact `real` arithmetic.
 */
module PidController {

  /** The controller record: gains `kp`, `ti`, `td` and the transient state
      `integral` (running sum of error * dt) and `prevError` (error of the
      previous tick). */
  datatype Controller = Controller(
    kp: real,
    ti: real,
    td: real,
    integral: real,
    prevError: real
  )

  /** The result of one control tick: the actuator command and the updated controller. */
  datatype Step = Step(output: real, next: Controller)

  /** A zero-initialised controller record, as obtained from static or
      value-initialised storage before any gains are set. */
  const Zero: Controller := Controller(0.0, 0.0, 0.0, 0.0, 0.0)

  /** True iff both controllers carry the same three gains. */
  predicate SameGains(a: Controller, b: Controller)
  {
    a.kp == b.kp && a.ti == b.ti && a.td == b.td
  }

  /** True iff both controllers carry the same transient state. */
  predicate SameState(a: Controller, b: Controller)
  {
    a.integral == b.integral && a.prevError == b.prevError
  }

  /** Overwrites the three gains; any values are accepted and the transient
      state is kept. */
  function SetGains(c: Controller, kp: real, ti: real, td: real): (r: Controller)
    ensures r.kp == kp && r.ti == ti && r.td == td
    ensures SameState(r, c)
  {
    c.(kp := kp, ti := ti, td := td)
  }

  /** Clears the integral accumulator and the remembered error; gains are kept. */
  function Reset(c: Controller): (r: Controller)
    ensures r.integral == 0.0 && r.prevError == 0.0
    ensures SameGains(r, c)
  {
    c.(integral := 0.0, prevError := 0.0)
  }

  /** The integral term for accumulator `integral`: zero when `ti` is zero,
      so that a zero integral time disables integral action instead of dividing. */
  function IntegralTerm(ti: real, integral: real): real
  {
    if ti != 0.0 then (1.0 / ti) * integral else 0.0
  }

  /** The derivative term: `td` times the backward difference of the error over `dt`. */
  function DerivativeTerm(td: real, error: real, prevError: real, dt: real): real
    requires dt != 0.0
  {
    td * ((error - prevError) / dt)
  }

  /** The control law of the standard form as `pid_calculate` computes it: the
      proportional gain scales the sum of the error, the integral term and the
      negated derivative term. */
  function ControlLaw(kp: real, error: real, integralTerm: real, derivativeTerm: real): real
  {
    kp * (error + integralTerm - derivativeTerm)
  }

  /** The control law evaluated with a derivative term known to equal `d`. */
  lemma ControlLawWithTerms(kp: real, error: real, integralTerm: real, derivativeTerm: real, d: real)
    requires derivativeTerm == d
    ensures ControlLaw(kp, error, integralTerm, derivativeTerm) == kp * (error + integralTerm - d)
  {
  }

  /** One control tick with error `error` after `dt` seconds.

      The accumulator grows by error * dt whatever `ti` is; the integral term
      is used only when `ti` is non-zero; the derivative term is a backward
      difference against the error remembered from the previous tick, which is
      replaced by `error` only after that difference is taken; the output is
      kp * (error + integral term - derivative term).

      The NaN self-test of `pid_calculate` on the accumulator, which resets
      the controller before accumulating, can never fire over `real` and is
      therefore absent. A zero `dt` yields a non-finite value in the `float`
      code and is excluded here. */
  function Calculate(c: Controller, error: real, dt: real): (r: Step)
    requires dt != 0.0
    ensures SameGains(r.next, c)
    ensures r.next.integral == c.integral + error * dt
    ensures r.next.prevError == error
  {
    var integral := c.integral + error * dt;
    var next := c.(integral := integral, prevError := error);
    Step(ControlLaw(c.kp, error, IntegralTerm(c.ti, integral), DerivativeTerm(c.td, error, c.prevError, dt)), next)
  }

  /** The output of a tick from a controller with the gains of `g`, whose
      accumulator the tick extends to `area` and which remembers `prev`. */
  lemma TickOutputFrom(c: Controller, g: Controller, error: real, dt: real, area: real, prev: real)
    requires dt != 0.0
    requires SameGains(c, g)
    requires c.integral + error * dt == area
    requires c.prevError == prev
    ensures Calculate(c, error, dt).output ==
      ControlLaw(g.kp, error, IntegralTerm(g.ti, area), DerivativeTerm(g.td, error, prev, dt))
  {
  }

  /** With a zero integral time the output has no integral contribution and
      no division by `ti`; the derivative term differences against the error
      remembered before this tick. */
  lemma OutputWithoutIntegralAction(c: Controller, error: real, dt: real)
    requires dt != 0.0
    requires c.ti == 0.0
    ensures Calculate(c, error, dt).output == c.kp * (error - c.td * ((error - c.prevError) / dt))
  {
  }

  /** With a non-zero integral time the output uses the accumulator as updated
      by this tick, scaled by 1/ti, and the derivative term differences against
      the error remembered before this tick. */
  lemma OutputWithIntegralAction(c: Controller, error: real, dt: real)
    requires dt != 0.0
    requires c.ti != 0.0
    ensures var s := Calculate(c, error, dt);
      s.output == c.kp * (error + (1.0 / c.ti) * s.next.integral - c.td * ((error - c.prevError) / dt))
  {
  }

  /** Reset is idempotent. */
  lemma ResetIdempotent(c: Controller)
    ensures Reset(Reset(c)) == Reset(c)
  {
  }

  /** A reset controller is exactly a zero-initialised one given the same gains. */
  lemma ResetIsFresh(c: Controller)
    ensures Reset(c) == SetGains(Zero, c.kp, c.ti, c.td)
  {
  }

  /** After a reset, a tick behaves as it would on a freshly constructed
      controller with the same gains. */
  lemma CalculateAfterResetIsFresh(c: Controller, error: real, dt: real)
    requires dt != 0.0
    ensures Calculate(Reset(c), error, dt) == Calculate(SetGains(Zero, c.kp, c.ti, c.td), error, dt)
  {
    ResetIsFresh(c);
  }

  /** Setting gains and resetting touch disjoint fields, so they commute. */
  lemma SetGainsResetCommute(c: Controller, kp: real, ti: real, td: real)
    ensures Reset(SetGains(c, kp, ti, td)) == SetGains(Reset(c), kp, ti, td)
  {
  }

  /** The last gains set win. */
  lemma SetGainsOverwrites(c: Controller, kp1: real, ti1: real, td1: real, kp2: real, ti2: real, td2: real)
    ensures SetGains(SetGains(c, kp1, ti1, td1), kp2, ti2, td2) == SetGains(c, kp2, ti2, td2)
  {
  }

  /** With integral and derivative action both disabled the controller is
      purely proportional, whatever its history. */
  lemma ProportionalOnly(c: Controller, error: real, dt: real)
    requires dt != 0.0
    requires c.ti == 0.0 && c.td == 0.0
    ensures Calculate(c, error, dt).output == c.kp * error
  {
  }

  /** How the output depends on the transient state: for two controllers with
      the same gains, the outputs of a tick with the same error and step differ
      by kp times the integral term of the accumulator difference plus td times
      the remembered-error difference over dt. In particular the history enters
      the output only through `integral` and `prevError`, and only linearly. */
  lemma OutputStateSensitivity(a: Controller, b: Controller, error: real, dt: real)
    requires dt != 0.0
    requires SameGains(a, b)
    ensures Calculate(a, error, dt).output - Calculate(b, error, dt).output ==
      a.kp * (IntegralTerm(a.ti, a.integral - b.integral) + a.td * ((a.prevError - b.prevError) / dt))
  {
    var ia, ib := a.integral + error * dt, b.integral + error * dt;
    assert IntegralTerm(a.ti, ia) - IntegralTerm(a.ti, ib) == IntegralTerm(a.ti, a.integral - b.integral);
    var da, db := DerivativeTerm(a.td, error, a.prevError, dt), DerivativeTerm(a.td, error, b.prevError, dt);
    assert da - db == a.td * ((b.prevError - a.prevError) / dt);
    assert a.td * ((b.prevError - a.prevError) / dt) == -(a.td * ((a.prevError - b.prevError) / dt));
  }

  /** `pid_calculate` subtracts the derivative term, while the standard form it
      documents, u = Kp(e + (1/Ti) * integral of e + Td * de/dt), adds it: the
      computed output is the standard-form output with `td` negated. */
  lemma OutputIsStandardFormWithNegatedTd(c: Controller, error: real, dt: real)
    requires dt != 0.0
    requires c.ti != 0.0
    ensures var s := Calculate(c, error, dt);
      s.output == c.kp * (error + s.next.integral / c.ti + (-c.td) * ((error - c.prevError) / dt))
  {
  }
}

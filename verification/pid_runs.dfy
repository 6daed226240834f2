/**
  Sequences of control ticks. A caller drives the controller with one
  `Calculate` per sample, in chronological order; this module folds that
  sequence and relates the accumulated state and the outputs to closed forms.
 */
module PidRuns {
  import opened PidController

  /** One tick's input: the error signal and the elapsed time step. */
  datatype Sample = Sample(error: real, dt: real)

  /** Every time step of the run is non-zero, as each tick requires. */
  predicate ValidSteps(s: seq<Sample>)
  {
    forall i :: 0 <= i < |s| ==> s[i].dt != 0.0
  }

  /** The controller after feeding it every sample in order. */
  function Run(c: Controller, s: seq<Sample>): Controller
    requires ValidSteps(s)
    decreases |s|
  {
    if |s| == 0 then c
    else Run(Calculate(c, s[0].error, s[0].dt).next, s[1..])
  }

  /** The outputs produced by feeding the controller every sample in order. */
  function Outputs(c: Controller, s: seq<Sample>): (r: seq<real>)
    requires ValidSteps(s)
    ensures |r| == |s|
    decreases |s|
  {
    if |s| == 0 then []
    else [Calculate(c, s[0].error, s[0].dt).output] + Outputs(Calculate(c, s[0].error, s[0].dt).next, s[1..])
  }

  /** Reference definition of the discrete integral: the sum of error * dt. */
  function ErrorArea(s: seq<Sample>): real
    decreases |s|
  {
    if |s| == 0 then 0.0 else s[0].error * s[0].dt + ErrorArea(s[1..])
  }

  /** `n` copies of the same sample. */
  function Repeat(x: Sample, n: nat): (r: seq<Sample>)
    ensures |r| == n
    ensures forall i :: 0 <= i < n ==> r[i] == x
  {
    if n == 0 then [] else [x] + Repeat(x, n - 1)
  }

  /** The error a tick at index `i` of the run differences against. */
  function PrevErrorAt(c: Controller, s: seq<Sample>, i: nat): real
    requires i <= |s|
  {
    if i == 0 then c.prevError else s[i - 1].error
  }

  /** The reference sum is additive over concatenation. */
  lemma {:induction false} ErrorAreaAppend(a: seq<Sample>, b: seq<Sample>)
    ensures ErrorArea(a + b) == ErrorArea(a) + ErrorArea(b)
    decreases |a|
  {
    if |a| == 0 {
      assert a + b == b;
    } else {
      assert (a + b)[1..] == a[1..] + b;
      ErrorAreaAppend(a[1..], b);
    }
  }

  /** A run never changes the gains, adds the error area to the accumulator,
      and leaves the last error remembered. */
  lemma {:induction false} RunState(c: Controller, s: seq<Sample>)
    requires ValidSteps(s)
    ensures SameGains(Run(c, s), c)
    ensures Run(c, s).integral == c.integral + ErrorArea(s)
    ensures Run(c, s).prevError == PrevErrorAt(c, s, |s|)
    decreases |s|
  {
    if |s| > 0 {
      var next := Calculate(c, s[0].error, s[0].dt).next;
      RunState(next, s[1..]);
      if |s| > 1 {
        assert s[1..][|s[1..]| - 1] == s[|s| - 1];
      }
    }
  }

  /** Running two sample sequences back to back is running their concatenation. */
  lemma {:induction false} RunAppend(c: Controller, a: seq<Sample>, b: seq<Sample>)
    requires ValidSteps(a) && ValidSteps(b)
    ensures ValidSteps(a + b)
    ensures Run(c, a + b) == Run(Run(c, a), b)
    decreases |a|
  {
    assert ValidSteps(a + b) by {
      forall i | 0 <= i < |a + b|
        ensures (a + b)[i].dt != 0.0
      {
        if i < |a| { assert (a + b)[i] == a[i]; } else { assert (a + b)[i] == b[i - |a|]; }
      }
    }
    if |a| == 0 {
      assert a + b == b;
    } else {
      assert (a + b)[1..] == a[1..] + b;
      RunAppend(Calculate(c, a[0].error, a[0].dt).next, a[1..], b);
    }
  }

  /** The i-th output of a run is the tick taken from the state reached after
      the first i samples. */
  lemma {:induction false} OutputIsTickAfterPrefix(c: Controller, s: seq<Sample>, i: nat)
    requires ValidSteps(s)
    requires i < |s|
    ensures ValidSteps(s[..i])
    ensures Outputs(c, s)[i] == Calculate(Run(c, s[..i]), s[i].error, s[i].dt).output
    decreases i
  {
    if i > 0 {
      var next := Calculate(c, s[0].error, s[0].dt).next;
      OutputIsTickAfterPrefix(next, s[1..], i - 1);
      assert s[1..][..i - 1] == s[..i][1..];
    }
  }

  /** The state a run has reached just before its tick at index `i`: the
      original gains, the accumulator that tick will extend to the error area
      up to and including it, and the previous sample's error. */
  lemma StateBeforeTick(c: Controller, s: seq<Sample>, i: nat)
    requires ValidSteps(s)
    requires i < |s|
    ensures ValidSteps(s[..i])
    ensures SameGains(Run(c, s[..i]), c)
    ensures Run(c, s[..i]).integral + s[i].error * s[i].dt == c.integral + ErrorArea(s[..i + 1])
    ensures Run(c, s[..i]).prevError == PrevErrorAt(c, s, i)
  {
    assert ValidSteps(s[..i]) by {
      forall j | 0 <= j < i
        ensures s[..i][j].dt != 0.0
      {
        assert s[..i][j] == s[j];
      }
    }
    RunState(c, s[..i]);
    assert s[..i + 1] == s[..i] + [s[i]];
    ErrorAreaAppend(s[..i], [s[i]]);
    ErrorAreaSingle(s[i]);
    if i > 0 {
      assert s[..i][i - 1] == s[i - 1];
    }
  }

  /** The reference sum over a single sample is that sample's error * dt. */
  lemma ErrorAreaSingle(x: Sample)
    ensures ErrorArea([x]) == x.error * x.dt
  {
    assert [x][1..] == [];
  }

  /** Closed form of the tick at index `i` of a run: the control law applied
      to the error, the integral term of `area`, the error area so far with this
      tick included, and the derivative term against `prev`, the previous
      sample's error (the controller's remembered error for the first tick). */
  lemma TickClosedForm(c: Controller, s: seq<Sample>, i: nat, area: real, prev: real)
    requires ValidSteps(s)
    requires i < |s|
    requires area == c.integral + ErrorArea(s[..i + 1])
    requires prev == PrevErrorAt(c, s, i)
    ensures ValidSteps(s[..i])
    ensures Calculate(Run(c, s[..i]), s[i].error, s[i].dt).output ==
      ControlLaw(c.kp, s[i].error, IntegralTerm(c.ti, area), DerivativeTerm(c.td, s[i].error, prev, s[i].dt))
  {
    StateBeforeTick(c, s, i);
    TickOutputFrom(Run(c, s[..i]), c, s[i].error, s[i].dt, area, prev);
  }

  /** Closed form of every output of a run, as `TickClosedForm` states it. */
  lemma OutputClosedForm(c: Controller, s: seq<Sample>, i: nat, area: real, prev: real)
    requires ValidSteps(s)
    requires i < |s|
    requires area == c.integral + ErrorArea(s[..i + 1])
    requires prev == PrevErrorAt(c, s, i)
    ensures Outputs(c, s)[i] ==
      ControlLaw(c.kp, s[i].error, IntegralTerm(c.ti, area), DerivativeTerm(c.td, s[i].error, prev, s[i].dt))
  {
    OutputIsTickAfterPrefix(c, s, i);
    TickClosedForm(c, s, i, area, prev);
  }

  /** The discrete integral of a constant sample is n * error * dt. */
  lemma {:induction false} ErrorAreaRepeat(x: Sample, n: nat)
    ensures ErrorArea(Repeat(x, n)) == n as real * x.error * x.dt
  {
    if n > 0 {
      ErrorAreaRepeat(x, n - 1);
      assert Repeat(x, n)[1..] == Repeat(x, n - 1);
    }
  }

  /** From a reset controller, n ticks with constant error e and step dt leave
      n * e * dt in the accumulator and, for n >= 1, e as the remembered error. */
  lemma ConstantErrorFromReset(c: Controller, e: real, dt: real, n: nat)
    requires dt != 0.0
    ensures ValidSteps(Repeat(Sample(e, dt), n))
    ensures Run(Reset(c), Repeat(Sample(e, dt), n)).integral == n as real * e * dt
    ensures n >= 1 ==> Run(Reset(c), Repeat(Sample(e, dt), n)).prevError == e
    ensures SameGains(Run(Reset(c), Repeat(Sample(e, dt), n)), c)
  {
    var s := Repeat(Sample(e, dt), n);
    RunState(Reset(c), s);
    ErrorAreaRepeat(Sample(e, dt), n);
  }

  /** The n-th output under constant error, starting from a reset controller:
      the proportional part plus the integral of n * e * dt, and on the first
      tick only a derivative kick against the cleared remembered error. */
  lemma ConstantErrorOutput(c: Controller, e: real, dt: real, n: nat)
    requires dt != 0.0
    requires n >= 1
    ensures ValidSteps(Repeat(Sample(e, dt), n))
    ensures Outputs(Reset(c), Repeat(Sample(e, dt), n))[n - 1] ==
      c.kp * (e + IntegralTerm(c.ti, n as real * e * dt) - (if n == 1 then c.td * (e / dt) else 0.0))
  {
    var s := Repeat(Sample(e, dt), n);
    var area, prev := n as real * e * dt, if n == 1 then 0.0 else e;
    assert area == Reset(c).integral + ErrorArea(s[..n]) by {
      ErrorAreaRepeat(Sample(e, dt), n);
      assert s[..n] == s;
    }
    OutputClosedForm(Reset(c), s, n - 1, area, prev);
    var kick := if n == 1 then c.td * (e / dt) else 0.0;
    assert DerivativeTerm(c.td, e, prev, dt) == kick;
    ControlLawWithTerms(c.kp, e, IntegralTerm(c.ti, area), DerivativeTerm(c.td, e, prev, dt), kick);
  }

  /** Derivative response: with integral action disabled, two consecutive ticks
      with errors e1 then e2 give, on the second tick, kp * (e2 - td * (e2 - e1) / dt2),
      whatever the controller's history. */
  lemma TwoTickDerivative(c: Controller, e1: real, dt1: real, e2: real, dt2: real)
    requires dt1 != 0.0 && dt2 != 0.0
    requires c.ti == 0.0
    ensures ValidSteps([Sample(e1, dt1), Sample(e2, dt2)])
    ensures Outputs(c, [Sample(e1, dt1), Sample(e2, dt2)])[1] == c.kp * (e2 - c.td * ((e2 - e1) / dt2))
  {
    var s := [Sample(e1, dt1), Sample(e2, dt2)];
    assert s[..2] == s;
    OutputClosedForm(c, s, 1, c.integral + ErrorArea(s), e1);
  }
}

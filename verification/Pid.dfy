/** The controller that scores how painful a backend is to write to (elliptics/stat.go), over the reals. */
module Pid {
  import opened Machine

  datatype Controller = Controller(error: real, integral: real, pain: Float)

  const NEW: Controller := Controller(0.0, 0.0, Num(0.0))

  const KE: real := 1.0
  const KI: real := 0.0
  const KD: real := 0.3

  /** The control force; zero seconds after the last update the slope, and with it the force, is infinite or undefined. */
  datatype Force = Finite(value: real) | Plus | Minus | Undefined

  /** The control force for error `e` observed `dt` seconds after the last update; negative if the clock was set back. */
  function ForceOf(p: Controller, e: real, dt: real): Force
  {
    if dt != 0.0 then Finite(e * KE + (e * dt + p.integral) * KI + (e - p.error) / dt * KD)
    else if e > p.error then Plus
    else if e < p.error then Minus
    else Undefined
  }

  /** Half the pain plus 1, in floating-point arithmetic. */
  function Relaxed(pain: Float): Float
  {
    if pain.Num? then Num(pain.value / 2.0 + 1.0) else pain
  }

  /** `PIDUpdate`: a force that is not positive relaxes the pain towards 2, any other becomes the pain. */
  function Update(p: Controller, e: real, dt: real): Controller
  {
    Controller(e, e * dt + p.integral,
               match ForceOf(p, e, dt)
               case Finite(f) => if f <= 0.0 then Relaxed(p.pain) else Num(f)
               case Plus => Infinite
               case Minus => Relaxed(p.pain)
               case Undefined => NaN)
  }

  datatype Sample = Sample(e: real, dt: real)

  ghost function Run(p: Controller, samples: seq<Sample>): Controller
  {
    if samples == [] then p
    else
      var front := samples[..|samples| - 1];
      Update(Run(p, front), samples[|samples| - 1].e, samples[|samples| - 1].dt)
  }

  /** Pain never becomes negative, and is no number that is not positive from the first update on. */
  lemma {:induction false} PainIsPositive(p: Controller, samples: seq<Sample>)
    requires (p.pain.Num? ==> p.pain.value >= 0.0)
    ensures Run(p, samples).pain.Num? ==> Run(p, samples).pain.value >= 0.0
    ensures samples != [] && Run(p, samples).pain.Num? ==> Run(p, samples).pain.value > 0.0
  {
    if samples != [] {
      PainIsPositive(p, samples[..|samples| - 1]);
    }
  }

  /** The integral term has no influence: whatever it starts from, error and pain come out the same. */
  lemma {:induction false} IntegralIsIrrelevant(p: Controller, integral: real, samples: seq<Sample>)
    ensures Run(p, samples).pain == Run(p.(integral := integral), samples).pain
    ensures Run(p, samples).error == Run(p.(integral := integral), samples).error
  {
    if samples != [] {
      IntegralIsIrrelevant(p, integral, samples[..|samples| - 1]);
    }
  }

  // ---------------------------------------------------------------- what one update leaves

  /**
   The pain after the last of any number of updates. Some time after the one before, it is that update's error plus 0.3
   times the slope if that is positive, else half the pain before plus 1. In the same instant it is infinite if the error
   rose, half the pain before plus 1 if it fell, and undefined if it did neither.
   */
  lemma {:induction false} PainOfLast(p: Controller, samples: seq<Sample>)
    requires samples != []
    ensures var n := |samples| - 1;
            var e, dt, past, before := samples[n].e, samples[n].dt, ErrorBefore(p, samples, n), Run(p, samples[..n]).pain;
            var half := if before.Num? then Num(before.value / 2.0 + 1.0) else before;
            Run(p, samples).pain
            == if dt == 0.0 then (if e > past then Infinite else if e < past then half else NaN)
               else if e + 0.3 * ((e - past) / dt) > 0.0 then Num(e + 0.3 * ((e - past) / dt))
               else half
  {
    var n := |samples| - 1;
    LastError(p, samples[..n]);
    var q := Run(p, samples[..n]);
    assert Run(p, samples) == Update(q, samples[n].e, samples[n].dt);
    hide Run;
    if samples[n].dt != 0.0 {
      ForceIs(q, samples[n].e, samples[n].dt);
    }
  }

  lemma {:induction false} ForceIs(p: Controller, e: real, dt: real)
    requires dt != 0.0
    ensures ForceOf(p, e, dt) == Finite(e + 0.3 * ((e - p.error) / dt))
  {
    var x := (e * dt + p.integral) * KI;
    assert x == 0.0;
  }

  ghost function ErrorTimesTime(samples: seq<Sample>): real
  {
    if samples == [] then 0.0
    else ErrorTimesTime(samples[..|samples| - 1]) + samples[|samples| - 1].e * samples[|samples| - 1].dt
  }

  /** The integral is the sum of all errors, each times the seconds since the update before. */
  lemma {:induction false} IntegralIsSum(p: Controller, samples: seq<Sample>)
    ensures Run(p, samples).integral == p.integral + ErrorTimesTime(samples)
  {
    if samples != [] {
      IntegralIsSum(p, samples[..|samples| - 1]);
    }
  }

  // ---------------------------------------------------------------- when the pain is a number

  /** The error that sample `i` is compared with. */
  ghost function ErrorBefore(p: Controller, samples: seq<Sample>, i: nat): real
    requires i < |samples|
  {
    if i == 0 then p.error else samples[i - 1].e
  }

  /** Zero seconds after the last update, with an error that has not fallen. */
  ghost predicate Breaks(p: Controller, samples: seq<Sample>, i: nat)
    requires i < |samples|
  {
    samples[i].dt == 0.0 && samples[i].e >= ErrorBefore(p, samples, i)
  }

  /** Not in the same instant as the last update, with a force that is positive. The integral does not matter. */
  ghost predicate Mends(p: Controller, samples: seq<Sample>, i: nat)
    requires i < |samples|
  {
    samples[i].dt != 0.0 && samples[i].e * KE + (samples[i].e - ErrorBefore(p, samples, i)) / samples[i].dt * KD > 0.0
  }

  lemma {:induction false} LastError(p: Controller, samples: seq<Sample>)
    ensures Run(p, samples).error == if samples == [] then p.error else samples[|samples| - 1].e
  {
  }

  /**
   The pain is a number if and only if every update that came in the same instant as another, with an error that had not
   fallen, was followed by one with a positive force: until then nothing else can make it a number again.
   */
  lemma {:induction false} PainIsNumberIff(p: Controller, samples: seq<Sample>)
    requires p.pain.Num?
    ensures Run(p, samples).pain.Num?
            <==> forall i :: 0 <= i < |samples| && Breaks(p, samples, i) ==> MendedAfter(p, samples, i)
  {
    if samples != [] {
      var n := |samples| - 1;
      var front := samples[..n];
      PainIsNumberIff(p, front);
      LastError(p, front);
      SameHistory(p, samples);
      var before, last := Run(p, front), samples[n];
      assert before.error == ErrorBefore(p, samples, n);
      assert Run(p, samples) == Update(before, last.e, last.dt);
      hide Run;
      if Breaks(p, samples, n) {
        assert !MendedAfter(p, samples, n);
      } else if Mends(p, samples, n) {
        assert forall i :: 0 <= i < n ==> MendedAfter(p, samples, i);
      } else {
        assert Update(before, last.e, last.dt).pain.Num? <==> before.pain.Num?;
      }
    }
  }

  ghost predicate MendedAfter(p: Controller, samples: seq<Sample>, i: nat)
  {
    exists j :: i < j < |samples| && Mends(p, samples, j)
  }

  /** What happened before the last sample does not depend on it. */
  lemma {:induction false} SameHistory(p: Controller, samples: seq<Sample>)
    requires samples != []
    ensures var n := |samples| - 1;
            forall i :: 0 <= i < n ==>
              && (Breaks(p, samples[..n], i) <==> Breaks(p, samples, i))
              && (Mends(p, samples[..n], i) <==> Mends(p, samples, i))
              && (MendedAfter(p, samples, i) <==> MendedAfter(p, samples[..n], i) || Mends(p, samples, n))
  {
    var n := |samples| - 1;
    var front := samples[..n];
    assert forall i :: 0 <= i < n ==> (Mends(p, front, i) <==> Mends(p, samples, i));
    forall i | 0 <= i < n
      ensures MendedAfter(p, samples, i) <==> MendedAfter(p, front, i) || Mends(p, samples, n)
    {
      if MendedAfter(p, front, i) {
        var j :| i < j < n && Mends(p, front, j);
        assert Mends(p, samples, j);
      }
      if MendedAfter(p, samples, i) && !Mends(p, samples, n) {
        var j :| i < j < |samples| && Mends(p, samples, j);
        assert Mends(p, front, j);
      }
    }
  }

  /** Two updates at the same instant with the same error leave no number. */
  lemma {:induction false} SameInstant()
    ensures Run(NEW, [Sample(1.0, 1.0), Sample(1.0, 0.0)]).pain == NaN
  {
    var samples := [Sample(1.0, 1.0), Sample(1.0, 0.0)];
    assert samples[..1] == [Sample(1.0, 1.0)];
    LastError(NEW, samples[..1]);
  }

  ghost function Pow2(k: nat): real
  {
    if k == 0 then 1.0 else 2.0 * Pow2(k - 1)
  }

  /** Every sample of the run meets a force that is not positive. */
  ghost predicate Calm(p: Controller, samples: seq<Sample>)
  {
    samples != [] ==>
      var n := |samples| - 1;
      var force := ForceOf(Run(p, samples[..n]), samples[n].e, samples[n].dt);
      Calm(p, samples[..n]) && (force.Minus? || (force.Finite? && force.value <= 0.0))
  }

  lemma {:induction false} CalmRelaxes(p: Controller, samples: seq<Sample>)
    requires Calm(p, samples) && samples != []
    ensures Calm(p, samples[..|samples| - 1])
    ensures Run(p, samples).pain == Relaxed(Run(p, samples[..|samples| - 1]).pain)
  {
  }

  /** The distance from 2 has been halved `k` times. */
  ghost predicate Halved(was: real, now: real, k: nat)
  {
    (now - 2.0) * Pow2(k) == was - 2.0
  }

  lemma {:induction false} HalvedOnce(was: real, mid: real, now: real, k: nat)
    requires Halved(was, mid, k) && now == mid / 2.0 + 1.0
    ensures Halved(was, now, k + 1)
  {
    var scale := Pow2(k);
    assert Pow2(k + 1) == 2.0 * scale;
    assert mid - 2.0 == 2.0 * (now - 2.0);
    assert (now - 2.0) * (2.0 * scale) == (2.0 * (now - 2.0)) * scale;
  }

  /** After k such samples the distance of the pain from 2 has been halved k times. */
  lemma {:induction false} PainRelaxes(p: Controller, samples: seq<Sample>)
    requires Calm(p, samples) && p.pain.Num?
    ensures Run(p, samples).pain.Num? && Halved(p.pain.value, Run(p, samples).pain.value, |samples|)
  {
    if samples == [] {
      assert Run(p, samples) == p && Pow2(0) == 1.0;
    } else {
      hide Run, Calm, Halved;
      var n := |samples| - 1;
      CalmRelaxes(p, samples);
      PainRelaxes(p, samples[..n]);
      HalvedOnce(p.pain.value, Run(p, samples[..n]).pain.value, Run(p, samples).pain.value, n);
    }
  }
}

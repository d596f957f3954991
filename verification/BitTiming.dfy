/**
 CAN bit timing: the search for a prescaler and segment lengths that meet a bitrate and sample
 point, and the inverse path that recovers them from time quanta. A bit is one synchronisation
 quantum, `tseg1` quanta before the sample point and `tseg2` after it (section 10 of part B of
 the Bosch CAN Specification 2.0). Integers are taken not to overflow their 32 bits.
 */
module BitTiming {
  import opened Arith
  import opened Common

  const MAX_ERROR := 50                 // tenths of a percent
  const NS := 1000000000

  /** What the controller can do. */
  datatype Limits = Limits(tseg1Min: nat, tseg1Max: nat, tseg2Min: nat, tseg2Max: nat,
                           sjwMax: nat, brpMin: nat, brpMax: nat, brpInc: nat)
  {
    predicate Valid() {
      1 <= tseg1Min <= tseg1Max && 1 <= tseg2Min <= tseg2Max && 1 <= brpMin <= brpMax && 1 <= brpInc
    }
  }

  const MCP251X := Limits(3, 16, 2, 8, 4, 1, 64, 1)

  datatype Timing = Timing(bitrate: nat, samplePoint: nat, tq: nat, propSeg: nat, phaseSeg1: nat,
                           phaseSeg2: nat, sjw: nat, brp: nat)

  datatype Result<T> = Ok(value: T) | Err(error: int)

  // ----- one choice of segments and prescaler -----

  /** `can_update_spt`: segments for `tseg` quanta, and the sample point they give. */
  function TSeg2(l: Limits, sp: nat, tseg: nat): (t: int)
    requires l.Valid()
  {
    var raw := tseg + 1 - (sp * (tseg + 1)) / 1000;
    var t := if raw < l.tseg2Min then l.tseg2Min else if raw > l.tseg2Max then l.tseg2Max else raw;
    if tseg - t > l.tseg1Max then tseg - l.tseg1Max else t
  }

  function TSeg1(l: Limits, sp: nat, tseg: nat): int
    requires l.Valid()
  {
    tseg - TSeg2(l, sp, tseg)
  }

  function SamplePoint(l: Limits, sp: nat, tseg: nat): (p: int)
    requires l.Valid()
  {
    (1000 * (tseg + 1 - TSeg2(l, sp, tseg))) / (tseg + 1)
  }

  lemma SamplePointIs(l: Limits, sp: nat, tseg: nat)
    requires l.Valid()
    ensures SamplePoint(l, sp, tseg) == (1000 * (tseg + 1 - TSeg2(l, sp, tseg))) / (tseg + 1)
  {
  }

  lemma Permille(x: nat, n: nat)
    requires x <= n && n > 0
    ensures (1000 * x) / n <= 1000
  {
    QuotientBelow(1000 * x, n, 1001);
  }

  lemma PermilleOf(sp: nat, n: nat)
    requires sp <= 1000
    ensures 0 <= (sp * n) / 1000 <= n
  {
    TimesMonotone(sp, 1000, n);
    QuotientBelow(sp * n, 1000, n + 1);
  }

  /** The segments keep to their limits, except that `tseg1` may fall short of its minimum. */
  lemma Segments(l: Limits, sp: nat, tseg: nat)
    requires l.Valid() && l.tseg1Min + l.tseg2Min <= tseg <= l.tseg1Max + l.tseg2Max && sp <= 1000
    ensures l.tseg2Min <= TSeg2(l, sp, tseg) <= l.tseg2Max && TSeg1(l, sp, tseg) <= l.tseg1Max
    ensures TSeg2(l, sp, tseg) <= tseg + 1
    ensures 0 <= SamplePoint(l, sp, tseg) <= 1000
  {
    hide TSeg2, SamplePoint;
    SecondSegment(l, sp, tseg);
    PointInRange(l, sp, tseg);
  }

  lemma PointInRange(l: Limits, sp: nat, tseg: nat)
    requires l.Valid() && 0 <= TSeg2(l, sp, tseg) <= tseg + 1
    ensures 0 <= SamplePoint(l, sp, tseg) <= 1000
  {
    hide TSeg2;
    Permille(tseg + 1 - TSeg2(l, sp, tseg), tseg + 1);
  }

  lemma SecondSegment(l: Limits, sp: nat, tseg: nat)
    requires l.Valid() && l.tseg1Min + l.tseg2Min <= tseg <= l.tseg1Max + l.tseg2Max && sp <= 1000
    ensures l.tseg2Min <= TSeg2(l, sp, tseg) <= l.tseg2Max && TSeg1(l, sp, tseg) <= l.tseg1Max
    ensures TSeg2(l, sp, tseg) <= tseg + 1
  {
    PermilleOf(sp, tseg + 1);
  }

  /** A second segment of `t` quanta out of `tseg` keeps to the limits, as far as the code looks at them. */
  predicate Split(l: Limits, tseg: nat, t: nat) { l.tseg2Min <= t <= l.tseg2Max && tseg <= t + l.tseg1Max }

  /** With it, the sample point lies beyond the wanted one. */
  predicate Late(sp: nat, tseg: nat, t: nat) { 1000 * (tseg + 1 - t) > sp * (tseg + 1) }

  /** Of all such segments the one that samples last without being late; the earliest if all are late. */
  lemma SplitBest(l: Limits, sp: nat, tseg: nat, t: nat)
    requires l.Valid() && l.tseg1Min + l.tseg2Min <= tseg <= l.tseg1Max + l.tseg2Max && sp <= 1000
    requires Split(l, tseg, t)
    ensures var t2 := TSeg2(l, sp, tseg);
            && t2 >= 0 && Split(l, tseg, t2)
            && if Late(sp, tseg, t2) then t <= t2 else t < t2 ==> Late(sp, tseg, t)
  {
    PermilleOf(sp, tseg + 1);
    QuotientBounds(sp * (tseg + 1), 1000);
  }

  // ----- the search -----

  /** Clock, wanted bitrate and wanted sample point (in tenths of a percent). */
  datatype Problem = Problem(limits: Limits, freq: nat, bitrate: nat, sp: nat)
  {
    predicate Valid() { limits.Valid() && freq > 0 && bitrate > 0 && sp <= 1000 }

    /** Total quanta that the segment limits allow. */
    const Least := limits.tseg1Min + limits.tseg2Min + 1
    const Most := limits.tseg1Max + limits.tseg2Max + 1

    /** A prescaler and a total number of quanta that the controller can be set to. */
    predicate Possible(brp: nat, tsegall: nat)
      requires Valid()
    {
      limits.brpMin <= brp <= limits.brpMax && brp % limits.brpInc == 0 && Least <= tsegall <= Most
    }

    function Quotient(tsegall: nat): nat
      requires Valid() && tsegall > 0
    {
      freq / (tsegall * bitrate)
    }

    function RateError(brp: nat, tsegall: nat): nat
      requires brp > 0 && tsegall > 0
    {
      Abs(bitrate - freq / (brp * tsegall))
    }

    function SampleError(tsegall: nat): nat
      requires Valid() && tsegall > 0
    {
      Abs(sp - SamplePoint(limits, sp, tsegall - 1))
    }

    /** The prescaler tried in a step of the search: even steps round down, odd ones up. */
    function Tried(step: nat): nat
      requires Valid()
    {
      ((Quotient(1 + step / 2) + step % 2) / limits.brpInc) * limits.brpInc
    }
  }

  /** The best choice so far; `brp` is 0 as long as there is none. */
  datatype Best = Best(error: nat, sampleError: nat, tseg: nat, brp: nat)

  const NOTHING := Best(1000000000, 1000, 0, 0)

  /** One step of the search; the flag says that it cannot get better. */
  function Consider(p: Problem, b: Best, step: nat): (r: (Best, bool))
    requires p.Valid()
  {
    var brp, tsegall := p.Tried(step), 1 + step / 2;
    if brp < p.limits.brpMin || brp > p.limits.brpMax then (b, false)
    else
      var e := p.RateError(brp, tsegall);
      if e > b.error then (b, false)
      else if e == 0 then
        var se := p.SampleError(tsegall);
        if se > b.sampleError then (b.(error := 0), false) else (Best(0, se, step / 2, brp), se == 0)
      else (Best(e, b.sampleError, step / 2, brp), false)
  }

  function FirstStep(p: Problem): nat { (p.limits.tseg1Max + p.limits.tseg2Max) * 2 + 1 }

  function LastStep(p: Problem): nat { (p.limits.tseg1Min + p.limits.tseg2Min) * 2 }

  function Search(p: Problem, b: Best, step: nat): (r: Best)
    requires p.Valid()
    decreases step
  {
    if step < LastStep(p) then b
    else
      var (b', stop) := Consider(p, b, step);
      if stop then b' else Search(p, b', step - 1)
  }

  /** What is known of the best choice all along. */
  predicate Sound(p: Problem, b: Best)
    requires p.Valid()
  {
    || b == NOTHING
    || (b.brp > 0 && p.Possible(b.brp, b.tseg + 1) && b.error == p.RateError(b.brp, b.tseg + 1)
        && (b.error == 0 ==> b.sampleError == p.SampleError(b.tseg + 1))
        && (b.brp == p.Tried(2 * b.tseg) || b.brp == p.Tried(2 * b.tseg + 1)))
  }

  lemma ConsiderSound(p: Problem, b: Best, step: nat)
    requires p.Valid() && Sound(p, b) && LastStep(p) <= step <= FirstStep(p)
    requires b.error > 0 ==> b.sampleError == 1000
    ensures var b' := Consider(p, b, step).0;
            Sound(p, b') && b'.error <= b.error && (b'.error > 0 ==> b'.sampleError == 1000)
            && (b.brp > 0 ==> b'.brp > 0)
    ensures var (b', stop) := Consider(p, b, step);
            && (stop ==> b'.error == 0 && b'.sampleError == 0)
            && (b.error == 0 ==> b'.sampleError <= b.sampleError)
  {
    var brp, tsegall := p.Tried(step), 1 + step / 2;
    if p.limits.brpMin <= brp <= p.limits.brpMax {
      assert brp % p.limits.brpInc == 0 by {
        DivModUnique(brp, p.limits.brpInc, (p.Quotient(tsegall) + step % 2) / p.limits.brpInc, 0);
      }
      Segments(p.limits, p.sp, step / 2);
    }
  }

  /** What a step has seen is no better than what it keeps. */
  lemma ConsiderCovers(p: Problem, b: Best, step: nat)
    requires p.Valid() && p.limits.brpMin <= p.Tried(step) <= p.limits.brpMax
    ensures var b' := Consider(p, b, step).0; var e := p.RateError(p.Tried(step), 1 + step / 2);
            && b'.error <= e
            && (e == 0 ==> b'.sampleError <= p.SampleError(1 + step / 2))
            && (e <= b.error && (e > 0 || p.SampleError(1 + step / 2) <= b.sampleError) ==> b'.brp > 0)
  {
  }

  lemma {:induction false} SearchSound(p: Problem, b: Best, step: nat)
    requires p.Valid() && Sound(p, b) && step <= FirstStep(p)
    requires b.error > 0 ==> b.sampleError == 1000
    ensures var r := Search(p, b, step);
            && Sound(p, r) && r.error <= b.error && (b.brp > 0 ==> r.brp > 0)
            && (b.error == 0 ==> r.sampleError <= b.sampleError)
    decreases step
  {
    hide Consider, Sound, Problem.RateError, Problem.SampleError;
    if LastStep(p) <= step {
      ConsiderSound(p, b, step);
      var (b', stop) := Consider(p, b, step);
      if !stop { SearchSound(p, b', step - 1); }
    }
  }

  /** The search ends with nothing worse than any choice it tries. */
  lemma {:induction false} SearchCovers(p: Problem, b: Best, step: nat, seen: nat)
    requires p.Valid() && Sound(p, b) && LastStep(p) <= seen <= step <= FirstStep(p)
    requires b.error > 0 ==> b.sampleError == 1000
    requires p.limits.brpMin <= p.Tried(seen) <= p.limits.brpMax
    ensures var r := Search(p, b, step); var e := p.RateError(p.Tried(seen), 1 + seen / 2);
            && r.error <= e
            && (e == 0 ==> r.sampleError <= p.SampleError(1 + seen / 2))
    decreases step
  {
    hide Consider, Sound, Problem.RateError, Problem.SampleError, Problem.Tried;
    ConsiderSound(p, b, step);
    var (b', stop) := Consider(p, b, step);
    if step == seen {
      ConsiderCovers(p, b, step);
      if !stop { SearchSound(p, b', step - 1); }
    } else if !stop {
      SearchCovers(p, b', step - 1, seen);
    }
  }

  function Found(p: Problem): Best
    requires p.Valid()
  {
    Search(p, NOTHING, FirstStep(p))
  }

  // ----- nothing in range does better -----

  lemma Regroup(a: nat, b: nat, c: nat)
    ensures a * (b * c) == a * b * c == c * (a * b)
  {
  }

  /** With a given number of quanta, the quotient and the number above it bracket the bitrate. */
  lemma QuotientBrackets(p: Problem, tsegall: nat)
    requires p.Valid() && tsegall > 0
    ensures var q := p.Quotient(tsegall);
            && q * tsegall * p.bitrate <= p.freq < (q + 1) * tsegall * p.bitrate
            && (q > 0 ==> p.freq / (q * tsegall) >= p.bitrate)
            && p.freq / ((q + 1) * tsegall) < p.bitrate
  {
    var q := p.Quotient(tsegall);
    assert tsegall * p.bitrate > 0;
    QuotientBounds(p.freq, tsegall * p.bitrate);
    Regroup(q, tsegall, p.bitrate);
    Regroup(q + 1, tsegall, p.bitrate);
    hide Problem.Quotient;
    if q > 0 {
      assert q * tsegall > 0;
      QuotientAtLeast(p.freq, q * tsegall, p.bitrate);
    }
    assert (q + 1) * tsegall > 0;
    QuotientBelow(p.freq, (q + 1) * tsegall, p.bitrate);
  }

  /** Slowing down from at least the bitrate, or speeding up from below it, only helps. */
  lemma CloserIsBetter(p: Problem, brp: nat, tsegall: nat, brp': nat, tsegall': nat)
    requires p.Valid() && brp > 0 && tsegall > 0 && brp' > 0 && tsegall' > 0
    requires || (brp * tsegall <= brp' * tsegall' && p.freq / (brp' * tsegall') >= p.bitrate)
             || (brp * tsegall >= brp' * tsegall' && p.freq / (brp' * tsegall') <= p.bitrate)
    ensures p.RateError(brp', tsegall') <= p.RateError(brp, tsegall)
  {
    assert brp * tsegall > 0 && brp' * tsegall' > 0;
    if brp * tsegall <= brp' * tsegall' {
      QuotientMonotone(p.freq, brp * tsegall, brp' * tsegall');
    } else {
      QuotientMonotone(p.freq, brp' * tsegall', brp * tsegall);
    }
  }

  /** What the two steps for `tsegall` try when every prescaler can be set. */
  lemma TriedQuotients(p: Problem, tsegall: nat)
    requires p.Valid() && p.limits.brpInc == 1 && tsegall > 0
    ensures p.Tried(2 * (tsegall - 1)) == p.Quotient(tsegall)
    ensures p.Tried(2 * (tsegall - 1) + 1) == p.Quotient(tsegall) + 1
  {
    assert 2 * (tsegall - 1) / 2 == tsegall - 1 && (2 * (tsegall - 1) + 1) / 2 == tsegall - 1;
  }

  lemma QuotientShrinks(p: Problem, tsegall: nat, more: nat)
    requires p.Valid() && 0 < tsegall <= more
    ensures p.Quotient(more) <= p.Quotient(tsegall)
  {
    TimesMonotone(tsegall, more, p.bitrate);
    assert tsegall * p.bitrate > 0;
    QuotientMonotone(p.freq, tsegall * p.bitrate, more * p.bitrate);
  }

  /** The fewest quanta for which the quotient is a prescaler that can be set. */
  lemma FewestQuanta(p: Problem, tsegall: nat, enough: nat) returns (fewest: nat)
    requires p.Valid() && 0 < tsegall < enough
    requires p.Quotient(enough) <= p.limits.brpMax < p.Quotient(tsegall)
    ensures tsegall < fewest <= enough
    ensures p.Quotient(fewest) <= p.limits.brpMax < p.Quotient(fewest - 1)
  {
    fewest := tsegall + 1;
    while p.Quotient(fewest) > p.limits.brpMax
      invariant tsegall < fewest <= enough && p.limits.brpMax < p.Quotient(fewest - 1)
      decreases enough - fewest
    {
      fewest := fewest + 1;
    }
  }

  /** There, the quotient is at least as close as any setting with fewer quanta. */
  lemma EdgeIsBetter(p: Problem, edge: nat, brp: nat, tsegall: nat)
    requires p.Valid() && 1 <= brp <= p.limits.brpMax && 1 <= tsegall < edge
    requires p.Quotient(edge) <= p.limits.brpMax < p.Quotient(edge - 1)
    ensures p.Quotient(edge) > 0 && p.RateError(p.Quotient(edge), edge) <= p.RateError(brp, tsegall)
  {
    var q, q1, m := p.Quotient(edge), p.Quotient(edge - 1), p.limits.brpMax;
    QuotientBrackets(p, edge);
    QuotientBrackets(p, edge - 1);
    hide Problem.Quotient, Problem.RateError;
    EdgeProducts(m, q, q1, edge, p.bitrate, p.freq);
    ProductMonotone(brp, m, tsegall, edge - 1);
    assert brp * tsegall > 0;
    PositiveFactor(q, edge);
    CloserIsBetter(p, brp, tsegall, q, edge);
  }

  lemma EdgeProducts(m: nat, q: nat, q1: nat, edge: nat, bitrate: nat, freq: nat)
    requires edge > 1 && m < q1
    requires q1 * (edge - 1) * bitrate <= freq < (q + 1) * edge * bitrate
    ensures q * edge >= m * (edge - 1)
  {
    TimesMonotone(m + 1, q1, edge - 1);
    TimesMonotone((m + 1) * (edge - 1), q1 * (edge - 1), bitrate);
    var x, y := (m + 1) * (edge - 1), (q + 1) * edge;
    Cancel(x, y, bitrate);
    assert x == m * (edge - 1) + edge - 1;
    assert y == q * edge + edge;
  }

  lemma Cancel(x: nat, y: nat, d: nat)
    requires x * d < y * d
    ensures x < y
  {
    assert (y - x) * d == y * d - x * d;
    PositiveFactor(y - x, d);
  }

  lemma ProductMonotone(a: nat, a': nat, b: nat, b': nat)
    requires a <= a' && b <= b'
    ensures a * b <= a' * b'
  {
    TimesMonotone(a, a', b);
    TimesMonotone(b, b', a');
  }

  /** Trying only the quotient and the number above it loses nothing, once anything is found. */
  lemma SearchIsOptimal(p: Problem, brp: nat, tsegall: nat)
    requires p.Valid() && p.limits.brpInc == 1 && p.limits.brpMin == 1
    requires Found(p).brp > 0 && p.Possible(brp, tsegall)
    ensures Found(p).error <= p.RateError(brp, tsegall)
  {
    var q := p.Quotient(tsegall);
    TriedQuotients(p, tsegall);
    QuotientBrackets(p, tsegall);
    hide Search, Problem.RateError, Problem.Tried, Problem.Quotient;
    if brp > q {
      TimesMonotone(q + 1, brp, tsegall);
      CloserIsBetter(p, brp, tsegall, q + 1, tsegall);
      SearchCovers(p, NOTHING, FirstStep(p), 2 * (tsegall - 1) + 1);
      assert (2 * (tsegall - 1) + 1) / 2 == tsegall - 1;
    } else if q <= p.limits.brpMax {
      TimesMonotone(brp, q, tsegall);
      CloserIsBetter(p, brp, tsegall, q, tsegall);
      SearchCovers(p, NOTHING, FirstStep(p), 2 * (tsegall - 1));
    } else {
      BeyondTheQuotient(p, brp, tsegall);
    }
  }

  lemma BeyondTheQuotient(p: Problem, brp: nat, tsegall: nat)
    requires p.Valid() && p.limits.brpInc == 1 && p.limits.brpMin == 1
    requires Found(p).brp > 0 && p.Possible(brp, tsegall) && p.Quotient(tsegall) > p.limits.brpMax
    ensures Found(p).error <= p.RateError(brp, tsegall)
  {
    SearchSound(p, NOTHING, FirstStep(p));
    var r := Found(p);
    hide Search, Problem.RateError, Problem.Tried, Problem.Quotient;
    TriedQuotients(p, r.tseg + 1);
    var enough := r.tseg + 1;
    assert p.Quotient(enough) <= r.brp;
    if enough <= tsegall {
      QuotientShrinks(p, enough, tsegall);
    }
    var edge := FewestQuanta(p, tsegall, enough);
    EdgeIsBetter(p, edge, brp, tsegall);
    TriedQuotients(p, edge);
    SearchCovers(p, NOTHING, FirstStep(p), 2 * (edge - 1));
  }

  /** Nor is there a better sample point among the exact settings, as far as the quotient can be set. */
  lemma SampleIsOptimal(p: Problem, brp: nat, tsegall: nat)
    requires p.Valid() && p.limits.brpInc == 1 && p.limits.brpMin == 1
    requires p.Possible(brp, tsegall) && p.RateError(brp, tsegall) == 0 && p.Quotient(tsegall) <= p.limits.brpMax
    ensures var r := Found(p);
            && r.brp > 0 && r.error == 0
            && p.SampleError(r.tseg + 1) == r.sampleError <= p.SampleError(tsegall)
  {
    var q := p.Quotient(tsegall);
    TriedQuotients(p, tsegall);
    QuotientBrackets(p, tsegall);
    assert brp * tsegall > 0;
    ExactWithin(p, brp, tsegall);
    hide Search, Problem.RateError, Problem.Tried, Problem.Quotient, Problem.SampleError;
    TimesMonotone(brp, q, tsegall);
    CloserIsBetter(p, brp, tsegall, q, tsegall);
    SearchCovers(p, NOTHING, FirstStep(p), 2 * (tsegall - 1));
    SearchSound(p, NOTHING, FirstStep(p));
  }

  /**
   The guard matters: at 1 bit/s from 1043 Hz the search ends with a sample point 8 off, where 16 quanta
   with a prescaler of 64 are exact too and only 5 off; but their quotient 65 cannot be set.
   */
  lemma SampleGuard()
    ensures var p := Problem(MCP251X, 1043, 1, 692);
            && p.Possible(64, 16) && p.RateError(64, 16) == 0 && p.Quotient(16) == 65
            && p.SampleError(16) == 5 && Found(p).brp > 0 && Found(p).error == 0 && Found(p).sampleError == 8
  {
    hide Found, Problem.Quotient, Problem.RateError, Problem.SampleError, Problem.Tried;
    var p := Problem(MCP251X, 1043, 1, 692);
    GuardFacts();
    SampleIsOptimal(p, 54, 19);
    GuardQuanta();
    FromSeventeen(Found(p).tseg + 1);
  }

  lemma GuardFacts()
    ensures var p := Problem(MCP251X, 1043, 1, 692);
            && p.Quotient(16) == 65 && p.Quotient(19) == 54 && p.RateError(64, 16) == 0 == p.RateError(54, 19)
            && p.SampleError(16) == 5 && p.SampleError(19) == 8
  {
  }

  /** What is found has a quotient that can be set. */
  lemma GuardQuanta()
    ensures var p := Problem(MCP251X, 1043, 1, 692); Found(p).brp > 0 ==> 17 <= Found(p).tseg + 1 <= 25
  {
    hide Search, Problem.RateError, Problem.SampleError, Problem.Quotient, Problem.Tried;
    var p := Problem(MCP251X, 1043, 1, 692);
    GuardFacts();
    SearchSound(p, NOTHING, FirstStep(p));
    if Found(p).brp > 0 {
      var t := Found(p).tseg + 1;
      TriedQuotients(p, t);
      if t <= 16 { QuotientShrinks(p, t, 16); }
    }
  }

  lemma FromSeventeen(t: nat)
    requires 17 <= t <= 25
    ensures Problem(MCP251X, 1043, 1, 692).SampleError(t) >= 8
  {
    assert t == 17 || t == 18 || t == 19 || t == 20 || t == 21 || t == 22 || t == 23 || t == 24 || t == 25;
  }

  /** An exact prescaler is at most the quotient. */
  lemma ExactWithin(p: Problem, brp: nat, tsegall: nat)
    requires p.Valid() && brp > 0 && tsegall > 0 && p.RateError(brp, tsegall) == 0
    ensures brp <= p.Quotient(tsegall)
  {
    assert brp * tsegall > 0 && tsegall * p.bitrate > 0;
    QuotientBounds(p.freq, brp * tsegall);
    assert p.bitrate * (brp * tsegall) == brp * (tsegall * p.bitrate);
    QuotientAtLeast(p.freq, tsegall * p.bitrate, brp);
  }

  // ----- the outcome -----

  /** The recommended sample points for when the user gives none. */
  function WantedPoint(samplePoint: nat, bitrate: nat): nat {
    if samplePoint != 0 then samplePoint
    else if bitrate > 800000 then 750
    else if bitrate > 500000 then 800
    else 875
  }

  function Sjw(l: Limits, sjw: nat, tseg2: nat): nat {
    if sjw == 0 || l.sjwMax == 0 then 1
    else
      var s := if sjw > l.sjwMax then l.sjwMax else sjw;
      if tseg2 < s then tseg2 else s
  }

  /** The result of a search as the 32-bit unsigned fields of the timing. */
  function U32(x: int): nat { x % 0x1_0000_0000 }

  lemma U32Small(x: nat)
    requires x < 0x1_0000_0000
    ensures U32(x) == x
  {
  }

  /** C's division by two, toward zero. */
  function Half(x: int): int { if x >= 0 then x / 2 else -((-x) / 2) }

  /** The time quantum in whole nanoseconds. */
  function Quantum(freq: nat, brp: nat): nat
    requires freq > 0
  {
    (brp * NS) / freq
  }

  /** `can_calc_bittiming` */
  function Calc(l: Limits, freq: nat, bt: Timing): (r: Result<Timing>)
    requires l.Valid() && freq > 0 && 0 < bt.bitrate < 0x1_0000_0000 && bt.samplePoint <= 1000
  {
    var p := Problem(l, freq, bt.bitrate, WantedPoint(bt.samplePoint, bt.bitrate));
    var b := Found(p);
    if b.error > 0 && (b.error * 1000) / bt.bitrate > MAX_ERROR then Err(-EDOM)
    else
      FoundSomething(p);
      var t1, t2 := TSeg1(l, p.sp, b.tseg), TSeg2(l, p.sp, b.tseg);
      Segments(l, p.sp, b.tseg);
      Ok(Timing(Rate(freq, b.brp, b.tseg + 1), SamplePoint(l, p.sp, b.tseg), U32(Quantum(freq, b.brp)),
                U32(Half(t1)), U32(t1 - Half(t1)), t2, Sjw(l, bt.sjw, t2), b.brp))
  }

  function Rate(freq: nat, brp: nat, tsegall: nat): nat
    requires brp > 0 && tsegall > 0
  {
    assert brp * tsegall > 0;
    freq / (brp * tsegall)
  }

  /** An acceptable error means that something was found. */
  lemma FoundSomething(p: Problem)
    requires p.Valid()
    requires var b := Found(p); !(b.error > 0 && (b.error * 1000) / p.bitrate > MAX_ERROR)
    requires p.bitrate < 0x1_0000_0000
    ensures var b := Found(p); b.brp > 0 && p.Possible(b.brp, b.tseg + 1)
  {
    SearchSound(p, NOTHING, FirstStep(p));
    if Found(p) == NOTHING {
      QuotientAtLeast(1000000000 * 1000, p.bitrate, 200);
      assert false;
    }
  }

  /** The segments a timing puts before the sample point are those of the controller. */
  predicate MeetsTseg1(l: Limits, bt: Timing) {
    l.tseg1Min <= bt.propSeg + bt.phaseSeg1 <= l.tseg1Max
  }

  predicate Input(l: Limits, freq: nat, bt: Timing) {
    l.Valid() && freq > 0 && 0 < bt.bitrate < 0x1_0000_0000 && bt.samplePoint <= 1000 && l.tseg1Max < 0x8000_0000
  }

  /** The choice behind a result. */
  function Chosen(l: Limits, freq: nat, bt: Timing): (c: (Problem, Best))
    requires Input(l, freq, bt)
  {
    var p := Problem(l, freq, bt.bitrate, WantedPoint(bt.samplePoint, bt.bitrate));
    (p, Found(p))
  }

  /** How a result comes from the choice of the search. */
  lemma CalcFromChoice(l: Limits, freq: nat, bt: Timing)
    requires Input(l, freq, bt) && Calc(l, freq, bt).Ok?
    ensures var v := Calc(l, freq, bt).value; var (p, b) := Chosen(l, freq, bt);
            && b.brp > 0 && v.brp == b.brp && v.bitrate == Rate(freq, b.brp, b.tseg + 1)
            && p.Possible(b.brp, b.tseg + 1) && v.tq == U32(Quantum(freq, b.brp))
            && v.phaseSeg2 == TSeg2(l, p.sp, b.tseg) && v.samplePoint == SamplePoint(l, p.sp, b.tseg)
            && v.sjw == Sjw(l, bt.sjw, v.phaseSeg2)
            && TSeg1(l, p.sp, b.tseg) <= l.tseg1Max && l.tseg2Min <= v.phaseSeg2 <= l.tseg2Max
            && v.samplePoint <= 1000
  {
    var (p, b) := Chosen(l, freq, bt);
    hide Search, TSeg2, SamplePoint, U32;
    FoundSomething(p);
    Segments(l, p.sp, b.tseg);
  }

  lemma Tseg1Fits(l: Limits, sp: nat, tseg: nat)
    requires l.Valid() && l.tseg2Min <= tseg && TSeg1(l, sp, tseg) <= l.tseg1Max < 0x8000_0000
    ensures -0x8000_0000 < TSeg1(l, sp, tseg) < 0x8000_0000
  {
  }

  lemma CalcSegments(l: Limits, freq: nat, bt: Timing)
    requires Input(l, freq, bt) && Calc(l, freq, bt).Ok?
    ensures var v := Calc(l, freq, bt).value; var (p, b) := Chosen(l, freq, bt);
            && (MeetsTseg1(l, v) <==> l.tseg1Min <= TSeg1(l, p.sp, b.tseg))
            && (TSeg1(l, p.sp, b.tseg) >= 0 ==> v.propSeg + v.phaseSeg1 == b.tseg - v.phaseSeg2)
  {
    hide Search, TSeg2, SamplePoint, U32, Half;
    CalcFromChoice(l, freq, bt);
    var (p, b) := Chosen(l, freq, bt);
    Tseg1Fits(l, p.sp, b.tseg);
    HalvesFit(TSeg1(l, p.sp, b.tseg));
  }

  /** What a successful calculation keeps to, and how far off the bitrate may be. */
  lemma CalcInRange(l: Limits, freq: nat, bt: Timing)
    requires Input(l, freq, bt)
    ensures Calc(l, freq, bt).Ok? ==>
            var v := Calc(l, freq, bt).value;
            && l.brpMin <= v.brp <= l.brpMax && v.brp % l.brpInc == 0
            && l.tseg2Min <= v.phaseSeg2 <= l.tseg2Max
            && 1 <= v.sjw && (l.sjwMax > 0 ==> v.sjw <= l.sjwMax) && (l.sjwMax > 0 && bt.sjw > 0 ==> v.sjw <= bt.sjw)
            && v.samplePoint <= 1000
            && Abs(bt.bitrate - v.bitrate) * 1000 < 51 * bt.bitrate
  {
    hide Search, TSeg2, SamplePoint, U32;
    if Calc(l, freq, bt).Ok? {
      CalcFromChoice(l, freq, bt);
      ErrorBound(l, freq, bt);
    }
  }

  lemma ErrorBound(l: Limits, freq: nat, bt: Timing)
    requires Input(l, freq, bt) && Calc(l, freq, bt).Ok?
    ensures Abs(bt.bitrate - Calc(l, freq, bt).value.bitrate) * 1000 < 51 * bt.bitrate
  {
    hide Search, TSeg2, SamplePoint, U32, Problem.Tried;
    CalcFromChoice(l, freq, bt);
    var (p, b) := Chosen(l, freq, bt);
    SearchSound(p, NOTHING, FirstStep(p));
    if b.error > 0 {
      QuotientBounds(b.error * 1000, bt.bitrate);
      TimesMonotone((b.error * 1000) / bt.bitrate + 1, 51, bt.bitrate);
    }
  }

  lemma HalvesFit(t: int)
    requires -0x8000_0000 < t < 0x8000_0000
    ensures t >= 0 ==> U32(Half(t)) == t / 2 && U32(t - Half(t)) == t - t / 2
    ensures t < 0 ==> U32(Half(t)) + U32(t - Half(t)) >= 0x8000_0000
  {
  }

  /** Enough quanta go before the sample point even with the fewest quanta to a bit. */
  predicate PointHighEnough(l: Limits, sp: nat) {
    sp * (l.tseg1Min + l.tseg2Min + 1) >= 1000 * (l.tseg1Min + 1)
  }

  lemma Tseg1Suffices(l: Limits, sp: nat, tseg: nat)
    requires l.Valid() && sp <= 1000 && l.tseg1Min + l.tseg2Min <= tseg
    requires PointHighEnough(l, sp) || l.tseg2Min == l.tseg2Max
    ensures TSeg1(l, sp, tseg) >= l.tseg1Min
  {
    if PointHighEnough(l, sp) {
      TimesMonotone(l.tseg1Min + l.tseg2Min + 1, tseg + 1, sp);
      assert sp * (tseg + 1) >= sp * (l.tseg1Min + l.tseg2Min + 1);
      QuotientAtLeast(sp * (tseg + 1), 1000, l.tseg1Min + 1);
    }
  }

  lemma Tseg1FallsShort(l: Limits, sp: nat)
    requires l.Valid() && l.tseg2Min < l.tseg2Max && !PointHighEnough(l, sp)
    ensures TSeg1(l, sp, l.tseg1Min + l.tseg2Min) < l.tseg1Min
  {
    QuotientBelow(sp * (l.tseg1Min + l.tseg2Min + 1), 1000, l.tseg1Min + 1);
  }

  /** A clock of `n` at bitrate 1 is met exactly by no product of prescaler and quanta beyond `n`. */
  lemma ExactOnlyBelow(n: nat, brp: nat, tsegall: nat)
    requires brp > 0 && tsegall >= n > 0 && n / (brp * tsegall) == 1
    ensures brp == 1 && tsegall == n
  {
    assert brp * tsegall > 0;
    QuotientBounds(n, brp * tsegall);
    if brp >= 2 {
      TimesMonotone(2, brp, tsegall);
    }
  }

  /** When the clock is exactly the fewest quanta times the bitrate, the search can only choose them. */
  lemma OnlyChoice(l: Limits, sp: nat)
    requires l.Valid() && l.brpMin == 1 && l.brpInc == 1 && sp <= 1000
    ensures var p := Problem(l, l.tseg1Min + l.tseg2Min + 1, 1, sp);
            Found(p).error == 0 && Found(p).brp == 1 && Found(p).tseg + 1 == p.Least
  {
    var p := Problem(l, l.tseg1Min + l.tseg2Min + 1, 1, sp);
    DivModUnique(p.Least, p.Least * 1, 1, 0);
    TriedQuotients(p, p.Least);
    assert p.RateError(1, p.Least) == 0 by {
      assert 1 * p.Least == p.Least;
    }
    assert p.Quotient(p.Least) == 1;
    hide Search, Problem.Tried, Problem.Quotient, Problem.SampleError;
    SearchCovers(p, NOTHING, FirstStep(p), 2 * (p.Least - 1));
    SearchSound(p, NOTHING, FirstStep(p));
    ExactOnlyBelow(p.Least, Found(p).brp, Found(p).tseg + 1);
  }

  /**
   For a controller with prescalers from 1 in steps of 1, every successful calculation keeps the
   minimum before the sample point, whatever clock and bitrate, if and only if the wanted sample
   point is high enough (or the quanta after it cannot vary).
   */
  lemma Tseg1Exact(l: Limits, sp: nat)
    requires l.Valid() && l.brpMin == 1 && l.brpInc == 1 && 0 < sp <= 1000 && l.tseg1Max < 0x8000_0000
    ensures (forall freq: nat, bt: Timing ::
               Input(l, freq, bt) && bt.samplePoint == sp && Calc(l, freq, bt).Ok?
               ==> MeetsTseg1(l, Calc(l, freq, bt).value))
            <==> PointHighEnough(l, sp) || l.tseg2Min == l.tseg2Max
  {
    if PointHighEnough(l, sp) || l.tseg2Min == l.tseg2Max {
      forall freq: nat, bt: Timing | Input(l, freq, bt) && bt.samplePoint == sp && Calc(l, freq, bt).Ok?
        ensures MeetsTseg1(l, Calc(l, freq, bt).value)
      {
        CalcFromChoice(l, freq, bt);
        CalcSegments(l, freq, bt);
        hide Calc, Search, TSeg2, TSeg1;
        Tseg1Suffices(l, sp, Chosen(l, freq, bt).1.tseg);
      }
    } else {
      var bt := Timing(1, sp, 0, 0, 0, 0, 0, 0);
      var freq := l.tseg1Min + l.tseg2Min + 1;
      OnlyChoice(l, sp);
      Tseg1FallsShort(l, sp);
      assert Calc(l, freq, bt).Ok?;
      CalcSegments(l, freq, bt);
    }
  }

  /** The MCP251x constants: a sample point of 66.7 % is the least that is always safe. */
  lemma Mcp251xSamplePoint(sp: nat)
    ensures PointHighEnough(MCP251X, sp) <==> sp >= 667
  {
  }

  /** A real setting below it: 10 kbit/s from 3.66 MHz at 60 %, where 61 times 6 quanta is the only exact one. */
  lemma Mcp251xShortSegment()
    ensures var bt := Timing(10000, 600, 0, 0, 0, 0, 0, 0);
            && Input(MCP251X, 3660000, bt) && Calc(MCP251X, 3660000, bt).Ok?
            && var v := Calc(MCP251X, 3660000, bt).value;
            && v.brp == 61 && v.propSeg + v.phaseSeg1 == 2 && !MeetsTseg1(MCP251X, v)
  {
    hide Found;
    var bt := Timing(10000, 600, 0, 0, 0, 0, 0, 0);
    BySixFound();
    assert TSeg2(MCP251X, 600, 5) == 3;
    assert Calc(MCP251X, 3660000, bt).Ok?;
    hide Calc;
    CalcFromChoice(MCP251X, 3660000, bt);
    CalcSegments(MCP251X, 3660000, bt);
  }

  lemma BySixFound()
    ensures var r := Found(Problem(MCP251X, 3660000, 10000, 600)); r.error == 0 && r.brp == 61 && r.tseg == 5
  {
    hide Search, Problem.SampleError, Problem.Tried;
    var p := Problem(MCP251X, 3660000, 10000, 600);
    assert p.Quotient(6) == 61 && p.RateError(61, 6) == 0;
    SampleIsOptimal(p, 61, 6);
    SearchSound(p, NOTHING, FirstStep(p));
    OnlyBySix(Found(p).brp, Found(p).tseg + 1);
  }

  lemma OnlyBySix(brp: nat, t: nat)
    requires brp > 0 && 6 <= t <= 25 && 3660000 / (brp * t) == 10000
    ensures brp == 61 && t == 6
  {
    var m := brp * t;
    assert m > 0;
    QuotientBounds(3660000, m);
    assert m == 366;
    assert t == 6 || t == 7 || t == 8 || t == 9 || t == 10 || t == 11 || t == 12 || t == 13 || t == 14 || t == 15
        || t == 16 || t == 17 || t == 18 || t == 19 || t == 20 || t == 21 || t == 22 || t == 23 || t == 24 || t == 25;
  }

  /** Every field, less one, fits its bits of the MCP251x configuration registers. */
  predicate FieldsFit(v: Timing) {
    && 1 <= v.brp <= 64 && 1 <= v.sjw <= 4
    && 1 <= v.propSeg <= 8 && 1 <= v.phaseSeg1 <= 8 && 1 <= v.phaseSeg2 <= 8
  }

  /** They do from a sample point of 50 % on; from 66.7 % on, `phaseSeg1` is at least 2 besides. */
  lemma Mcp251xRegistersFit(freq: nat, bt: Timing)
    requires Input(MCP251X, freq, bt) && WantedPoint(bt.samplePoint, bt.bitrate) >= 500
    ensures Calc(MCP251X, freq, bt).Ok? ==>
            var v := Calc(MCP251X, freq, bt).value;
            FieldsFit(v) && (WantedPoint(bt.samplePoint, bt.bitrate) >= 667 ==> v.phaseSeg1 >= 2)
  {
    hide Search, TSeg2, SamplePoint, U32, Half;
    if Calc(MCP251X, freq, bt).Ok? {
      CalcInRange(MCP251X, freq, bt);
      CalcFromChoice(MCP251X, freq, bt);
      var (p, b) := Chosen(MCP251X, freq, bt);
      TwoQuanta(p.sp, b.tseg);
      Mcp251xSamplePoint(p.sp);
      if p.sp >= 667 { Tseg1Suffices(MCP251X, p.sp, b.tseg); }
      HalvesFit(TSeg1(MCP251X, p.sp, b.tseg));
    }
  }

  lemma TwoQuanta(sp: nat, tseg: nat)
    requires 500 <= sp <= 1000 && tseg >= 5
    ensures TSeg1(MCP251X, sp, tseg) >= 2
  {
    TimesMonotone(500, sp, tseg + 1);
    QuotientAtLeast(sp * (tseg + 1), 1000, 3);
  }

  /** And they do for every clock and bitrate only from that sample point on. */
  lemma RegistersExact(sp: nat)
    requires 0 < sp <= 1000
    ensures (forall freq: nat, bt: Timing ::
               Input(MCP251X, freq, bt) && bt.samplePoint == sp && Calc(MCP251X, freq, bt).Ok?
               ==> FieldsFit(Calc(MCP251X, freq, bt).value))
            <==> sp >= 500
  {
    hide FieldsFit, Found, TSeg2;
    if sp >= 500 {
      forall freq: nat, bt: Timing | Input(MCP251X, freq, bt) && bt.samplePoint == sp && Calc(MCP251X, freq, bt).Ok?
        ensures FieldsFit(Calc(MCP251X, freq, bt).value)
      {
        hide Calc;
        Mcp251xRegistersFit(freq, bt);
      }
    } else {
      NoPropSeg(sp);
    }
  }

  /** Six quanta with a lower sample point leave no propagation segment. */
  lemma NoPropSeg(sp: nat)
    requires 0 < sp < 500
    ensures var bt := Timing(1, sp, 0, 0, 0, 0, 0, 0);
            Input(MCP251X, 6, bt) && Calc(MCP251X, 6, bt).Ok? && !FieldsFit(Calc(MCP251X, 6, bt).value)
  {
    hide Found;
    OnlyChoice(MCP251X, sp);
    QuotientBelow(sp * 6, 1000, 3);
    assert TSeg1(MCP251X, sp, 5) <= 1;
    assert Calc(MCP251X, 6, Timing(1, sp, 0, 0, 0, 0, 0, 0)).value.propSeg == U32(Half(TSeg1(MCP251X, sp, 5)));
  }

  // ----- what the result means -----

  /** Without a sample point of the user's, the one recommended for the bitrate. */
  lemma DefaultPoint(l: Limits, freq: nat, bt: Timing, sp: nat)
    requires Input(l, freq, bt) && bt.samplePoint == 0
    requires sp == if bt.bitrate <= 500000 then 875 else if bt.bitrate <= 800000 then 800 else 750
    ensures Calc(l, freq, bt) == Calc(l, freq, bt.(samplePoint := sp))
  {
    hide Found;
  }

  predicate LeastOfThree(x: nat, a: nat, b: nat, c: nat) {
    x <= a && x <= b && x <= c && (x == a || x == b || x == c)
  }

  predicate IsQuotient(n: nat, x: nat, y: nat) { n * y <= x < (n + 1) * y }

  /**
   The fields agree: the jump width is the least of what is asked for, what the controller can do and the
   second segment; the first segment is halved; bitrate, sample point and time quantum are those of the
   prescaler and the segments.
   */
  predicate FieldsAgree(l: Limits, freq: nat, sjw: nat, v: Timing) {
    var before := 1 + v.propSeg + v.phaseSeg1;
    && (if sjw == 0 || l.sjwMax == 0 then v.sjw == 1 else LeastOfThree(v.sjw, sjw, l.sjwMax, v.phaseSeg2))
    && v.propSeg <= v.phaseSeg1 <= v.propSeg + 1
    && IsQuotient(v.bitrate, freq, v.brp * (before + v.phaseSeg2))
    && IsQuotient(v.samplePoint, 1000 * before, before + v.phaseSeg2)
    && (v.brp * NS < freq * 0x1_0000_0000 ==> IsQuotient(v.tq, v.brp * NS, freq))
  }

  /** Those of every result that keeps to the limits before the sample point do. */
  lemma CalcFields(l: Limits, freq: nat, bt: Timing)
    requires Input(l, freq, bt)
    ensures match Calc(l, freq, bt) case Ok(v) => MeetsTseg1(l, v) ==> FieldsAgree(l, freq, bt.sjw, v) case _ => true
  {
    hide Calc, Chosen, Search, TSeg2, TSeg1, SamplePoint, Rate, U32, Half, Quantum, IsQuotient;
    if Calc(l, freq, bt).Ok? {
      var v := Calc(l, freq, bt).value;
      if MeetsTseg1(l, v) {
        CalcFromChoice(l, freq, bt);
        CalcSegments(l, freq, bt);
        CalcHalves(l, freq, bt);
        var (p, b) := Chosen(l, freq, bt);
        SamplePointIs(l, p.sp, b.tseg);
        IsQuotients(freq, v, b.tseg + 1);
      }
    }
  }

  lemma IsQuotients(freq: nat, v: Timing, tsegall: nat)
    requires freq > 0 && v.brp > 0 && tsegall > 0 && v.phaseSeg2 <= tsegall
    ensures IsQuotient(Rate(freq, v.brp, tsegall), freq, v.brp * tsegall)
    ensures IsQuotient((1000 * (tsegall - v.phaseSeg2)) / tsegall, 1000 * (tsegall - v.phaseSeg2), tsegall)
    ensures v.brp * NS < freq * 0x1_0000_0000 ==> IsQuotient(U32(Quantum(freq, v.brp)), v.brp * NS, freq)
  {
    assert v.brp * tsegall > 0;
    QuotientBounds(freq, v.brp * tsegall);
    QuotientBounds(1000 * (tsegall - v.phaseSeg2), tsegall);
    QuotientBounds(v.brp * NS, freq);
    if v.brp * NS < freq * 0x1_0000_0000 {
      QuotientBelow(v.brp * NS, freq, 0x1_0000_0000);
      U32Small(Quantum(freq, v.brp));
    }
  }

  lemma CalcHalves(l: Limits, freq: nat, bt: Timing)
    requires Input(l, freq, bt) && Calc(l, freq, bt).Ok? && MeetsTseg1(l, Calc(l, freq, bt).value)
    ensures var v := Calc(l, freq, bt).value; v.propSeg <= v.phaseSeg1 <= v.propSeg + 1
    ensures TSeg1(l, Chosen(l, freq, bt).0.sp, Chosen(l, freq, bt).1.tseg) >= 0
  {
    hide Search, TSeg2, SamplePoint, U32, Half;
    CalcFromChoice(l, freq, bt);
    CalcSegments(l, freq, bt);
    var (p, b) := Chosen(l, freq, bt);
    Tseg1Fits(l, p.sp, b.tseg);
    HalvesFit(TSeg1(l, p.sp, b.tseg));
  }

  /** A setting comes within 5 % of the bitrate, to a tenth of a percent. */
  predicate CloseEnough(p: Problem, brp: nat, tsegall: nat)
    requires p.Valid()
  {
    p.Possible(brp, tsegall) && p.RateError(brp, tsegall) * 1000 < 51 * p.bitrate
  }

  /** With prescalers from 1 in steps of 1, a search that finds anything succeeds exactly when something is close. */
  lemma AcceptsExact(l: Limits, freq: nat, bt: Timing)
    requires Input(l, freq, bt) && l.brpMin == 1 && l.brpInc == 1
    ensures var p := Chosen(l, freq, bt).0;
            && (Calc(l, freq, bt).Ok? <==>
                  Found(p).brp > 0 && exists brp, tsegall :: CloseEnough(p, brp, tsegall))
            && (Calc(l, freq, bt).Err? ==> Calc(l, freq, bt).error == -EDOM)
  {
    var (p, b) := Chosen(l, freq, bt);
    hide Search, Problem.RateError, Problem.Tried, TSeg2, SamplePoint, U32, Half;
    if Calc(l, freq, bt).Ok? {
      FoundSomething(p);
      SearchSound(p, NOTHING, FirstStep(p));
      CloseIff(b.error, p.bitrate);
      assert CloseEnough(p, b.brp, b.tseg + 1);
    }
    if b.brp > 0 {
      forall brp: nat, tsegall: nat | CloseEnough(p, brp, tsegall) ensures Calc(l, freq, bt).Ok? {
        SearchIsOptimal(p, brp, tsegall);
        CloseIff(b.error, p.bitrate);
      }
    }
  }

  lemma CloseIff(error: nat, bitrate: nat)
    requires bitrate > 0
    ensures error * 1000 < 51 * bitrate <==> !(error > 0 && (error * 1000) / bitrate > MAX_ERROR)
  {
    var x := error * 1000;
    if x < 51 * bitrate {
      QuotientBelow(x, bitrate, 51);
    } else {
      QuotientAtLeast(x, bitrate, 51);
    }
  }

  /** An exact setting whose quotient can be set brings the bitrate itself, and no worse a sample point. */
  lemma CalcOptimal(l: Limits, freq: nat, bt: Timing, brp: nat, tsegall: nat)
    requires Input(l, freq, bt) && l.brpMin == 1 && l.brpInc == 1 && bt.samplePoint > 0
    requires var p := Problem(l, freq, bt.bitrate, bt.samplePoint);
             p.Possible(brp, tsegall) && Rate(freq, brp, tsegall) == bt.bitrate && p.Quotient(tsegall) <= l.brpMax
    ensures Calc(l, freq, bt).Ok? && Calc(l, freq, bt).value.bitrate == bt.bitrate
    ensures Abs(bt.samplePoint - Calc(l, freq, bt).value.samplePoint)
         <= Abs(bt.samplePoint - SamplePoint(l, bt.samplePoint, tsegall - 1))
  {
    var p := Problem(l, freq, bt.bitrate, bt.samplePoint);
    SampleIsOptimal(p, brp, tsegall);
    SearchSound(p, NOTHING, FirstStep(p));
    hide Search, TSeg2, SamplePoint, U32, Half, Problem.Tried;
    assert Calc(l, freq, bt).Ok?;
    CalcFromChoice(l, freq, bt);
  }

  // ----- the inverse path -----

  /** `can_fixup_bittiming` */
  function Fixup(l: Limits, freq: nat, bt: Timing): (r: Result<Timing>)
    requires l.Valid()
  {
    var tseg1 := bt.propSeg + bt.phaseSeg1;
    var sjw := if bt.sjw == 0 then 1 else bt.sjw;
    if sjw > l.sjwMax || tseg1 < l.tseg1Min || tseg1 > l.tseg1Max
       || bt.phaseSeg2 < l.tseg2Min || bt.phaseSeg2 > l.tseg2Max then Err(-ERANGE)
    else
      var brp := Prescaler(freq * bt.tq, l.brpInc);
      if brp < l.brpMin || brp > l.brpMax then Err(-EINVAL)
      else
        var alltseg := tseg1 + bt.phaseSeg2 + 1;
        Ok(bt.(sjw := sjw, brp := brp, bitrate := Rate(freq, brp, alltseg),
               samplePoint := ((tseg1 + 1) * 1000) / alltseg))
  }

  /** The prescaler nearest to clock times time quantum. */
  function Prescaler(ticks: nat, inc: nat): nat
    requires inc > 0
  {
    var n := if inc > 1 then ticks / inc else ticks;
    var brp := (n + 500000000 - 1) / NS;
    if inc > 1 then brp * inc else brp
  }

  /** What rounding the time quantum down to whole nanoseconds loses, per prescaler increment. */
  function QuantumLoss(freq: nat, brp: nat, inc: nat): nat
    requires freq > 0 && inc > 0
  {
    ((brp * NS) % freq + inc - 1) / inc
  }

  lemma TicksPerIncrement(freq: nat, k: nat, inc: nat)
    requires freq > 0 && inc > 0
    ensures var ticks := freq * ((k * inc * NS) / freq);
            ticks / inc == k * NS - QuantumLoss(freq, k * inc, inc)
  {
    var total := k * inc * NS;
    var r, loss, kn := total % freq, QuantumLoss(freq, k * inc, inc), k * NS;
    var ticks := freq * (total / freq);
    assert ticks == total - r;
    assert total == kn * inc;
    TicksLost(kn, inc, r, loss);
    DivModUnique(ticks, inc, kn - loss, inc - 1 - (r + inc - 1) % inc);
  }

  lemma TicksLost(kn: nat, inc: nat, r: nat, loss: nat)
    requires inc > 0 && loss == (r + inc - 1) / inc
    ensures kn * inc - r == (kn - loss) * inc + (inc - 1 - (r + inc - 1) % inc)
  {
    var m := r + inc - 1;
    assert m == loss * inc + m % inc;
    assert (kn - loss) * inc == kn * inc - loss * inc;
  }

  /** The prescaler is recovered exactly when the loss rounds away. */
  lemma PrescalerRecovered(freq: nat, brp: nat, inc: nat)
    requires freq > 0 && inc > 0 && brp % inc == 0 && brp > 0
    ensures Prescaler(freq * Quantum(freq, brp), inc) == brp <==> QuantumLoss(freq, brp, inc) < 500000000
  {
    var k, loss := brp / inc, QuantumLoss(freq, brp, inc);
    assert brp == k * inc;
    TicksPerIncrement(freq, k, inc);
    hide QuantumLoss;
    var k' := NearestIncrement((freq * Quantum(freq, brp)) / inc, k, loss);
    assert k' * inc - k * inc == (k' - k) * inc;
    MultipleAway(k' - k, inc);
  }

  lemma NearestIncrement(n: int, k: nat, loss: nat) returns (k': int)
    requires n == k * NS - loss
    ensures k' == (n + 500000000 - 1) / NS && (k' == k <==> loss < 500000000)
  {
    k' := (n + 500000000 - 1) / NS;
  }

  /** The prescaler is the multiple of the increment nearest to the ticks, up to what an increment divides. */
  lemma PrescalerNearest(ticks: nat, inc: nat, k: nat)
    requires inc > 0
    ensures Prescaler(ticks, inc) % inc == 0
    ensures Abs(NS * (Prescaler(ticks, inc) / inc) - ticks / inc) <= Abs(NS * k - ticks / inc)
  {
    var n := ticks / inc;
    var m := (n + 500000000 - 1) / NS;
    DivModUnique(m * inc, inc, m, 0);
    assert Prescaler(ticks, inc) == m * inc;
    assert Abs(NS * m - n) <= 500000000;
    if k < m { assert NS * k <= NS * m - NS; } else if k > m { assert NS * k >= NS * m + NS; }
  }

  /** What the inverse path takes, and what it makes of it; a second pass changes nothing. */
  lemma FixupMeans(l: Limits, freq: nat, bt: Timing)
    requires l.Valid()
    ensures var within := MeetsTseg1(l, bt) && l.tseg2Min <= bt.phaseSeg2 <= l.tseg2Max
                          && (bt.sjw == 0 ==> l.sjwMax > 0) && bt.sjw <= l.sjwMax;
            var brp, quanta := Prescaler(freq * bt.tq, l.brpInc), 1 + bt.propSeg + bt.phaseSeg1 + bt.phaseSeg2;
            match Fixup(l, freq, bt)
            case Err(e) => if within then e == -EINVAL && !(l.brpMin <= brp <= l.brpMax) else e == -ERANGE
            case Ok(v) =>
              && within && l.brpMin <= v.brp <= l.brpMax && Fixup(l, freq, v) == Ok(v)
              && v == bt.(brp := brp, sjw := v.sjw, bitrate := v.bitrate, samplePoint := v.samplePoint)
              && (v.sjw == bt.sjw || (bt.sjw == 0 && v.sjw == 1)) && v.sjw > 0
              && IsQuotient(v.bitrate, freq, v.brp * quanta)
              && IsQuotient(v.samplePoint, 1000 * (1 + bt.propSeg + bt.phaseSeg1), quanta)
  {
    hide Prescaler;
    if Fixup(l, freq, bt).Ok? {
      var v, quanta := Fixup(l, freq, bt).value, 1 + bt.propSeg + bt.phaseSeg1 + bt.phaseSeg2;
      assert v.brp * quanta > 0;
      QuotientBounds(freq, v.brp * quanta);
      QuotientBounds(1000 * (1 + bt.propSeg + bt.phaseSeg1), quanta);
    }
  }

  /** A consistent timing comes back unchanged exactly when its prescaler does. */
  lemma FixupKeeps(l: Limits, freq: nat, v: Timing, tsegall: nat)
    requires l.Valid() && MeetsTseg1(l, v) && l.tseg2Min <= v.phaseSeg2 <= l.tseg2Max && 1 <= v.sjw <= l.sjwMax
    requires l.brpMin <= v.brp <= l.brpMax && tsegall == v.propSeg + v.phaseSeg1 + v.phaseSeg2 + 1
    requires v.bitrate == Rate(freq, v.brp, tsegall)
    requires v.samplePoint == (1000 * (tsegall - v.phaseSeg2)) / tsegall
    ensures Fixup(l, freq, v) == Ok(v) <==> Prescaler(freq * v.tq, l.brpInc) == v.brp
  {
    hide Prescaler, Rate;
    var tseg1 := v.propSeg + v.phaseSeg1;
    assert (tseg1 + 1) * 1000 == 1000 * (tsegall - v.phaseSeg2);
  }

  lemma FixupRejects(l: Limits, freq: nat, v: Timing)
    requires l.Valid() && v.sjw > 0 && (!MeetsTseg1(l, v) || v.sjw > l.sjwMax)
    ensures Fixup(l, freq, v) == Err(-ERANGE)
  {
  }

  /**
   Feeding the result of a calculation back returns the same timing, exactly when it meets the limits
   that only this path checks, and the loss in the time quantum is less than half a second's worth
   of nanoseconds per prescaler increment.
   */
  lemma RoundTrip(l: Limits, freq: nat, bt: Timing)
    requires Input(l, freq, bt)
    ensures Calc(l, freq, bt).Ok? ==>
            var v := Calc(l, freq, bt).value;
            Quantum(freq, v.brp) < 0x1_0000_0000 ==>
            (Fixup(l, freq, v) == Ok(v) <==>
              MeetsTseg1(l, v) && v.sjw <= l.sjwMax && QuantumLoss(freq, v.brp, l.brpInc) < 500000000)
  {
    hide Calc, Chosen, Search, Fixup, Prescaler, QuantumLoss, SamplePoint, TSeg2, TSeg1, Rate, U32, Sjw, Quantum;
    CalcInRange(l, freq, bt);
    if Calc(l, freq, bt).Ok? {
      var v := Calc(l, freq, bt).value;
      if !MeetsTseg1(l, v) || v.sjw > l.sjwMax {
        FixupRejects(l, freq, v);
      } else if Quantum(freq, v.brp) < 0x1_0000_0000 {
        CalcFromChoice(l, freq, bt);
        CalcSegments(l, freq, bt);
        var (p, b) := Chosen(l, freq, bt);
        SamplePointIs(l, p.sp, b.tseg);
        U32Small(Quantum(freq, v.brp));
        PrescalerRecovered(freq, v.brp, l.brpInc);
        FixupKeeps(l, freq, v, b.tseg + 1);
      }
    }
  }

  /** A clock that is too fast: at 700 MHz a prescaler of 2 comes back as 1. */
  lemma FastClockFails()
    ensures var l, bt := Limits(1, 1, 1, 1, 1, 1, 64, 1), Timing(116666666, 500, 0, 0, 0, 0, 0, 0);
            && Input(l, 700000000, bt) && Calc(l, 700000000, bt).Ok?
            && var v := Calc(l, 700000000, bt).value;
            && v.brp == 2 && MeetsTseg1(l, v) && v.sjw <= l.sjwMax
            && QuantumLoss(700000000, 2, 1) == 600000000 && Fixup(l, 700000000, v) != Ok(v)
  {
    var l, bt := Limits(1, 1, 1, 1, 1, 1, 64, 1), Timing(116666666, 500, 0, 0, 0, 0, 0, 0);
    var p := Problem(l, 700000000, 116666666, 500);
    var r := Found(p);
    assert p.Quotient(3) == 2 && p.RateError(2, 3) == 0;
    SampleIsOptimal(p, 2, 3);
    SearchSound(p, NOTHING, FirstStep(p));
    hide Search;
    assert r.tseg == 2 && r.brp == 2;
    assert Calc(l, 700000000, bt).Ok?;
    CalcFromChoice(l, 700000000, bt);
    CalcSegments(l, 700000000, bt);
    CalcInRange(l, 700000000, bt);
    hide Calc, Fixup;
    RoundTrip(l, 700000000, bt);
  }

  /** Any clock of at most 500 MHz is slow enough. */
  lemma SlowClockRoundTrip(freq: nat, brp: nat, inc: nat)
    requires 0 < freq <= 500000000 && inc > 0
    ensures QuantumLoss(freq, brp, inc) < 500000000
  {
    var r := (brp * NS) % freq;
    TimesMonotone(1, inc, 499999999);
    assert r + inc - 1 < 500000000 * inc;
    QuotientBelow(r + inc - 1, inc, 500000000);
  }

  // ----- the code -----

  method UpdateSpt(l: Limits, sp: nat, tseg: nat) returns (spt: int, tseg1: int, tseg2: int)
    requires l.Valid()
    ensures tseg1 == TSeg1(l, sp, tseg) && tseg2 == TSeg2(l, sp, tseg) && spt == SamplePoint(l, sp, tseg)
  {
    tseg2 := tseg + 1 - (sp * (tseg + 1)) / 1000;
    if tseg2 < l.tseg2Min { tseg2 := l.tseg2Min; }
    if tseg2 > l.tseg2Max { tseg2 := l.tseg2Max; }
    tseg1 := tseg - tseg2;
    if tseg1 > l.tseg1Max {
      tseg1 := l.tseg1Max;
      tseg2 := tseg - tseg1;
    }
    spt := (1000 * (tseg + 1 - tseg2)) / (tseg + 1);
  }

  lemma SearchStep(p: Problem, b: Best, step: nat)
    requires p.Valid() && LastStep(p) <= step
    ensures var (b', stop) := Consider(p, b, step);
            Search(p, b, step) == if stop then b' else Search(p, b', step - 1)
  {
  }

  /** The loop of the search: steps go down, and `continue` and `break` leave the choice alone. */
  method SearchLoop(p: Problem) returns (bestError: nat, bestTseg: nat, bestBrp: nat)
    requires p.Valid()
    ensures var b := Found(p); bestError == b.error && bestTseg == b.tseg && bestBrp == b.brp
  {
    bestError, bestTseg, bestBrp := 1000000000, 0, 0;
    var sptError: nat := 1000;
    var step: nat := FirstStep(p);
    while step >= LastStep(p)
      invariant Search(p, Best(bestError, sptError, bestTseg, bestBrp), step) == Found(p)
      decreases step
    {
      hide Search, SamplePoint, Problem.Tried, Problem.Quotient, Problem.RateError;
      SearchStep(p, Best(bestError, sptError, bestTseg, bestBrp), step);
      var tsegall := 1 + step / 2;
      var brp := Prescale(p, tsegall, step);
      step := step - 1;
      if brp < p.limits.brpMin || brp > p.limits.brpMax { continue; }
      var error: nat := RateOff(p, brp, tsegall);
      if error > bestError { continue; }
      bestError := error;
      if error == 0 {
        var spt, _, _ := UpdateSpt(p.limits, p.sp, (step + 1) / 2);
        error := Abs(p.sp - spt);
        if error > sptError { continue; }
        sptError := error;
      }
      bestTseg := (step + 1) / 2;
      bestBrp := brp;
      if error == 0 { return; }
    }
  }

  method Prescale(p: Problem, tsegall: nat, step: nat) returns (brp: nat)
    requires p.Valid() && tsegall == 1 + step / 2
    ensures brp == p.Tried(step)
  {
    assert tsegall * p.bitrate > 0;
    brp := p.freq / (tsegall * p.bitrate) + step % 2;
    brp := (brp / p.limits.brpInc) * p.limits.brpInc;
  }

  method RateOff(p: Problem, brp: nat, tsegall: nat) returns (error: nat)
    requires brp > 0 && tsegall > 0
    ensures error == p.RateError(brp, tsegall)
  {
    assert brp * tsegall > 0;
    var rate := p.freq / (brp * tsegall);
    error := Abs(p.bitrate - rate);
  }

  method CalcBittiming(l: Limits, freq: nat, bt: Timing) returns (r: Result<Timing>)
    requires Input(l, freq, bt)
    ensures r == Calc(l, freq, bt)
  {
    hide Found, Search, TSeg2, SamplePoint, U32, Quantum, Half;
    var sp := bt.samplePoint;
    if sp == 0 {
      if bt.bitrate > 800000 { sp := 750; } else if bt.bitrate > 500000 { sp := 800; } else { sp := 875; }
    }
    var p := Problem(l, freq, bt.bitrate, sp);
    var bestError, bestTseg, bestBrp := SearchLoop(p);
    if bestError > 0 {
      var error := (bestError * 1000) / bt.bitrate;
      if error > MAX_ERROR { return Err(-EDOM); }
    }
    FoundSomething(p);
    Segments(l, sp, bestTseg);
    var spt, tseg1, tseg2 := UpdateSpt(l, sp, bestTseg);
    var tq := U32(Quantum(freq, bestBrp));
    var propSeg := Half(tseg1);
    var sjw := bt.sjw;
    if sjw == 0 || l.sjwMax == 0 {
      sjw := 1;
    } else {
      if sjw > l.sjwMax { sjw := l.sjwMax; }
      if tseg2 < sjw { sjw := tseg2; }
    }
    r := Ok(Timing(Rate(freq, bestBrp, tseg1 + tseg2 + 1), spt, tq, U32(propSeg), U32(tseg1 - propSeg), tseg2, sjw,
                   bestBrp));
  }

  method FixupBittiming(l: Limits, freq: nat, bt: Timing) returns (r: Result<Timing>)
    requires l.Valid()
    ensures r == Fixup(l, freq, bt)
  {
    var tseg1 := bt.propSeg + bt.phaseSeg1;
    var sjw := if bt.sjw == 0 then 1 else bt.sjw;
    if sjw > l.sjwMax || tseg1 < l.tseg1Min || tseg1 > l.tseg1Max
       || bt.phaseSeg2 < l.tseg2Min || bt.phaseSeg2 > l.tseg2Max {
      return Err(-ERANGE);
    }
    var brp := freq * bt.tq;
    if l.brpInc > 1 { brp := brp / l.brpInc; }
    brp := (brp + (500000000 - 1)) / NS;
    if l.brpInc > 1 { brp := brp * l.brpInc; }
    if brp < l.brpMin || brp > l.brpMax { return Err(-EINVAL); }
    var alltseg := bt.propSeg + bt.phaseSeg1 + bt.phaseSeg2 + 1;
    r := Ok(bt.(sjw := sjw, brp := brp, bitrate := Rate(freq, brp, alltseg),
                samplePoint := ((tseg1 + 1) * 1000) / alltseg));
  }
}

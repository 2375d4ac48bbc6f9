/** The decoder's audio timeline: one internal time base that can represent every sample rate seen so far. */
module AudioTimeline {
  import opened AvMath

  const INT_MAX: int := 2147483647

  /** The LCM of 192000 and 44100, used when the exact time base would overflow. */
  const FALLBACK_DEN: int := 28224000

  function Gcd(a: nat, b: nat): (g: nat)
    ensures a > 0 || b > 0 ==> g > 0
    decreases b
  {
    if b == 0 then a else Gcd(b, a % b)
  }

  predicate Divides(d: int, n: int) { d > 0 && n % d == 0 }

  lemma MultipleDivides(d: int, k: int)
    requires d > 0
    ensures Divides(d, k * d) && k * d / d == k
  {
    DivUnique(k * d, d, k * d / d, k * d % d, k, 0);
  }

  lemma DividesSum(d: int, a: int, b: int, k: int)
    requires Divides(d, a) && Divides(d, b)
    ensures Divides(d, a * k + b)
  {
    var x, y := a / d, b / d;
    assert a == x * d && b == y * d;
    assert a * k + b == (x * k + y) * d by { assert a * k == x * k * d; }
    MultipleDivides(d, x * k + y);
  }

  lemma DividesTrans(a: int, b: int, c: int)
    requires Divides(a, b) && Divides(b, c)
    ensures Divides(a, c)
  {
    var x, y := c / b, b / a;
    assert c == x * b && b == y * a;
    assert x * (y * a) == (x * y) * a;
    MultipleDivides(a, x * y);
  }

  lemma {:induction false} GcdDivides(a: nat, b: nat)
    requires a > 0 || b > 0
    ensures Divides(Gcd(a, b), a) && Divides(Gcd(a, b), b)
    decreases b
  {
    if b > 0 {
      GcdDivides(b, a % b);
      EuclidStep(Gcd(b, a % b), a, b);
    }
  }

  lemma EuclidStep(g: int, a: nat, b: nat)
    requires b > 0 && Divides(g, b) && Divides(g, a % b)
    ensures Divides(g, a)
  {
    DividesSum(g, b, a % b, a / b);
    assert b * (a / b) + a % b == a;
  }

  datatype Frame = Frame(pts: Ts, timeBase: TimeBase, nbSamples: nat, sampleRate: int) {
    predicate Valid() { 0 < sampleRate <= INT_MAX && timeBase.den <= INT_MAX }
  }

  datatype State = State(lastPts: Ts, lastDuration: int, tb: TimeBase, lastRate: int, lastFilter: Ts)

  const INITIAL := State(NoPts, 0, Rational(1, 1), 0, NoPts)

  /** The exact common time base would not fit an int. */
  predicate Overflows(s: State, f: Frame)
    requires f.Valid()
  {
    f.sampleRate != s.lastRate && s.tb.den / Gcd(s.tb.den, f.sampleRate) >= INT_MAX / f.sampleRate
  }

  function Lcm(a: int, b: int): (m: int)
    requires a > 0 && b > 0
    ensures m > 0 && Divides(a, m) && Divides(b, m)
  {
    var g := Gcd(a, b);
    GcdDivides(a, b);
    LcmLemma(a, b, g);
    a / g * b
  }

  lemma LcmLemma(a: int, b: int, g: int)
    requires a > 0 && b > 0 && Divides(g, a) && Divides(g, b)
    ensures a / g > 0 && a / g * b > 0 && Divides(a, a / g * b) && Divides(b, a / g * b)
  {
    var x, y := a / g, b / g;
    assert a == x * g && b == y * g;
    PositiveFactor(x, g);
    MultipleDivides(b, x);
    assert x * b == y * a by { assert x * (y * g) == y * (x * g); }
    MultipleDivides(a, y);
  }

  lemma PositiveFactor(x: int, g: int)
    requires g > 0 && x * g > 0
    ensures x > 0
  {
  }

  function NewBase(s: State, f: Frame): TimeBase
    requires f.Valid()
  {
    var den := if Overflows(s, f) then FALLBACK_DEN else Lcm(s.tb.den, f.sampleRate);
    if f.timeBase.num == 1 && f.timeBase.den > den && f.timeBase.den % den == 0 then f.timeBase else Rational(1, den)
  }

  function RateUpdate(s: State, f: Frame): State
    requires f.Valid()
  {
    if f.sampleRate == s.lastRate then s
    else
      var tb := NewBase(s, f);
      s.(lastPts := RescaleTs(s.lastPts, s.tb, tb), lastDuration := RescaleQ(s.lastDuration, s.tb, tb),
         tb := tb, lastRate := f.sampleRate)
  }

  function Predicted(s: State): int {
    if s.lastPts.NoPts? then 0 else s.lastPts.v + s.lastDuration
  }

  /** The frame's own timestamp lies after the predicted one: the conversion state starts afresh. */
  predicate Gap(s: State, f: Frame) {
    f.pts.At? && s.lastPts.At? && f.pts.v > RescaleQUp(Predicted(s), s.tb, f.timeBase)
  }

  function Process(s: State, f: Frame): State
    requires f.Valid()
  {
    var t := RateUpdate(s, f);
    var (pts, from) := if f.pts.NoPts? then (Predicted(t), t.tb) else (f.pts.v, f.timeBase);
    var filter := if Gap(t, f) then NoPts else t.lastFilter;
    var (converted, last) := RescaleDelta(from, pts, t.tb, f.nbSamples, filter, t.tb);
    t.(lastPts := At(converted), lastDuration := RescaleQ(f.nbSamples, Rational(1, f.sampleRate), t.tb),
       lastFilter := last)
  }

  /** The timestamp handed to the filters, in samples. */
  function Filtered(s: State, f: Frame): int
    requires f.Valid() && s.lastPts.At?
  {
    RescaleQ(s.lastPts.v, s.tb, Rational(1, f.sampleRate))
  }

  class AudioFrame {
    var pts: Ts
    var timeBase: TimeBase
    var duration: int
    const nbSamples: nat
    const sampleRate: int

    function Now(): Frame reads this { Frame(pts, timeBase, nbSamples, sampleRate) }
  }

  class Decoder {
    var lastFramePts: Ts
    var lastFrameDurationEst: int
    var lastFrameTb: TimeBase
    var lastFrameSampleRate: int
    var lastFilterInRescaleDelta: Ts

    function Now(): State reads this {
      State(lastFramePts, lastFrameDurationEst, lastFrameTb, lastFrameSampleRate, lastFilterInRescaleDelta)
    }

    constructor ()
      ensures Now() == INITIAL
    {
      lastFramePts, lastFrameDurationEst, lastFrameTb := NoPts, 0, Rational(1, 1);
      lastFrameSampleRate, lastFilterInRescaleDelta := 0, NoPts;
    }

    method SampleRateUpdate(frame: AudioFrame) returns (tb: TimeBase)
      requires frame.Now().Valid()
      modifies this
      ensures Now() == RateUpdate(old(Now()), frame.Now()) && tb == lastFrameTb
    {
      var prev, sr := lastFrameTb.den, frame.sampleRate;
      if sr == lastFrameSampleRate { return lastFrameTb; }
      var gcd := Gcd(prev, sr);
      var den;
      if prev / gcd >= INT_MAX / sr {
        den := FALLBACK_DEN;
      } else {
        den := prev / gcd * sr;
        assert den == Lcm(prev, sr);
      }
      tb := Rational(1, den);
      if frame.timeBase.num == 1 && frame.timeBase.den > den && frame.timeBase.den % den == 0 { tb := frame.timeBase; }
      if lastFramePts.At? { lastFramePts := At(RescaleQ(lastFramePts.v, lastFrameTb, tb)); }
      lastFrameDurationEst := RescaleQ(lastFrameDurationEst, lastFrameTb, tb);
      lastFrameTb, lastFrameSampleRate := tb, sr;
    }

    method TsProcess(frame: AudioFrame)
      requires frame.Now().Valid()
      modifies this, frame
      ensures Now() == Process(old(Now()), old(frame.Now()))
      ensures frame.pts == At(Filtered(Now(), old(frame.Now())))
      ensures frame.timeBase == Rational(1, frame.sampleRate) && frame.duration == frame.nbSamples
    {
      var tbFilter: TimeBase := Rational(1, frame.sampleRate);
      var tb := SampleRateUpdate(frame);
      var pred := if lastFramePts.NoPts? then 0 else lastFramePts.v + lastFrameDurationEst;
      if frame.pts.NoPts? {
        frame.pts, frame.timeBase := At(pred), tb;
      } else if lastFramePts.At? && frame.pts.v > RescaleQUp(pred, tb, frame.timeBase) {
        lastFilterInRescaleDelta := NoPts;
      }
      var r := RescaleDelta(frame.timeBase, frame.pts.v, tb, frame.nbSamples, lastFilterInRescaleDelta, tb);
      frame.pts, lastFilterInRescaleDelta := At(r.0), r.1;
      lastFramePts := frame.pts;
      lastFrameDurationEst := RescaleQ(frame.nbSamples, tbFilter, tb);
      frame.pts := At(RescaleQ(frame.pts.v, tb, tbFilter));
      frame.duration, frame.timeBase := frame.nbSamples, tbFilter;
    }
  }

  // ---------- whole runs ----------

  function Run(s: State, fs: seq<Frame>): State
    requires forall f :: f in fs ==> f.Valid()
  {
    if fs == [] then s else Process(Run(s, fs[..|fs| - 1]), fs[|fs| - 1])
  }

  /** The fallback is never taken in the run. */
  ghost predicate NeverOverflows(s: State, fs: seq<Frame>)
    requires forall f :: f in fs ==> f.Valid()
  {
    forall k :: 0 <= k < |fs| ==> !Overflows(Run(s, fs[..k]), fs[k])
  }

  lemma RunPrefix(s: State, fs: seq<Frame>)
    requires fs != [] && forall f :: f in fs ==> f.Valid()
    ensures NeverOverflows(s, fs) ==>
              NeverOverflows(s, fs[..|fs| - 1]) && !Overflows(Run(s, fs[..|fs| - 1]), fs[|fs| - 1])
  {
    var p := fs[..|fs| - 1];
    forall k | 0 <= k < |p| ensures p[..k] == fs[..k] {}
  }

  /** The internal time base counts unit fractions that fit an int and contain the last sample rate. */
  predicate Good(s: State) {
    && s.tb.num == 1 && s.tb.den <= INT_MAX
    && (s.lastRate > 0 ==> Divides(s.lastRate, s.tb.den))
  }

  lemma NewBaseGood(s: State, f: Frame)
    requires Good(s) && f.Valid() && f.sampleRate != s.lastRate && !Overflows(s, f)
    ensures NewBase(s, f).num == 1 && NewBase(s, f).den <= INT_MAX
    ensures Divides(s.tb.den, NewBase(s, f).den) && Divides(f.sampleRate, NewBase(s, f).den)
  {
    var prev, sr := s.tb.den, f.sampleRate;
    GcdDivides(prev, sr);
    var q := prev / Gcd(prev, sr);
    var lcm := Lcm(prev, sr);
    assert lcm == q * sr;
    QuotientFits(q, sr);
    if NewBase(s, f) != Rational(1, lcm) {
      DividesTrans(prev, lcm, NewBase(s, f).den);
      DividesTrans(sr, lcm, NewBase(s, f).den);
    }
  }

  lemma QuotientFits(q: int, sr: int)
    requires sr > 0 && q < INT_MAX / sr
    ensures q * sr <= INT_MAX
  {
    var m := INT_MAX / sr;
    assert m * sr <= INT_MAX;
    assert (m - q) * sr >= 0;
  }

  /** A time base that the old one divides carries every old timestamp over exactly. */
  lemma RefineExact(v: int, from: TimeBase, to: TimeBase)
    requires from.num == 1 && to.num == 1 && Divides(from.den, to.den)
    ensures RescaleQ(v, from, to) * from.den == v * to.den
  {
    var k := to.den / from.den;
    assert to.den == k * from.den;
    assert v * to.den == v * k * from.den;
    RescaleExact(v, Mul(1, to.den), Mul(1, from.den), v * k);
  }

  lemma AddScaled(a: int, b: int, c: int, d: int, m: int, k: int)
    requires a * m == c * k && b * m == d * k
    ensures (a + b) * m == (c + d) * k
  {
    assert (a + b) * m == a * m + b * m;
    assert (c + d) * k == c * k + d * k;
  }

  /** t stands for the same timeline as s, in a time base that refines the one of s. */
  ghost predicate Refines(s: State, t: State) {
    && Divides(s.tb.den, t.tb.den) && t.lastPts.At? == s.lastPts.At?
    && (s.lastPts.At? ==> t.lastPts.v * s.tb.den == s.lastPts.v * t.tb.den)
    && Predicted(t) * s.tb.den == Predicted(s) * t.tb.den
  }

  /** A sample-rate change keeps the time base good and loses nothing of the history. */
  lemma RateChangeIsExact(s: State, f: Frame)
    requires Good(s) && f.Valid() && !Overflows(s, f)
    ensures Good(RateUpdate(s, f)) && RateUpdate(s, f).lastRate == f.sampleRate
    ensures Refines(s, RateUpdate(s, f))
  {
    if f.sampleRate != s.lastRate {
      NewBaseGood(s, f);
      var t := RateUpdate(s, f);
      assert t.tb == NewBase(s, f);
      RefineExact(s.lastDuration, s.tb, t.tb);
      if s.lastPts.At? {
        RefineExact(s.lastPts.v, s.tb, t.tb);
        AddScaled(t.lastPts.v, t.lastDuration, s.lastPts.v, s.lastDuration, s.tb.den, t.tb.den);
      }
    } else {
      MultipleDivides(s.tb.den, 1);
    }
  }

  /** A frame's estimated duration is its exact length nbSamples/sampleRate. */
  lemma DurationIsExact(n: nat, rate: int, tb: TimeBase)
    requires tb.num == 1 && Divides(rate, tb.den)
    ensures RescaleQ(n, Rational(1, rate), tb) * rate == n * tb.den
  {
    RefineExact(n, Rational(1, rate), tb);
  }

  // Positions in seconds, as exact reals.

  function Start(s: State): real
    requires s.lastPts.At?
  {
    s.lastPts.v as real / s.tb.den as real
  }

  function Length(f: Frame): real
    requires f.Valid()
  {
    f.nbSamples as real / f.sampleRate as real
  }

  /** Where a frame without a timestamp is placed after s. */
  function NextStart(s: State): real { Predicted(s) as real / s.tb.den as real }

  lemma SameFraction(a: int, b: int, c: int, d: int)
    requires b > 0 && d > 0 && a * d == c * b
    ensures a as real / b as real == c as real / d as real
  {
    var x, y := a as real / b as real, c as real / d as real;
    assert x * b as real == a as real && y * d as real == c as real;
    assert a as real * d as real == c as real * b as real;
    assert x * b as real * d as real == y * d as real * b as real;
    assert (x - y) * (b as real * d as real) == 0.0;
  }

  lemma AddFractions(a: int, b: int, d: int)
    requires d > 0
    ensures (a + b) as real / d as real == a as real / d as real + b as real / d as real
  {
  }

  /** After a frame the timeline is good and continues exactly one frame length after that frame's start. */
  lemma ProcessStep(s: State, f: Frame)
    requires Good(s) && f.Valid() && !Overflows(s, f)
    ensures var t := Process(s, f);
            && Good(t) && t.lastRate == f.sampleRate && Divides(s.tb.den, t.tb.den) && t.lastPts.At?
            && NextStart(t) == Start(t) + Length(f)
            && (f.pts.NoPts? ==> Start(t) == NextStart(s))
  {
    RateChangeIsExact(s, f);
    var u, t := RateUpdate(s, f), Process(s, f);
    assert t.tb == u.tb && t.lastRate == u.lastRate;
    DurationIsExact(f.nbSamples, f.sampleRate, t.tb);
    SameFraction(t.lastDuration, t.tb.den, f.nbSamples, f.sampleRate);
    AddFractions(t.lastPts.v, t.lastDuration, t.tb.den);
    if f.pts.NoPts? {
      RescaleDeltaIdentity(u.tb, Predicted(u), u.tb, f.nbSamples, if Gap(u, f) then NoPts else u.lastFilter);
      SameFraction(Predicted(u), u.tb.den, Predicted(s), s.tb.den);
    }
  }

  /**
   * While the fallback is never taken: the internal time base stays 1/den, den fits an int and is a common multiple
   * of every sample rate seen, and time bases only ever get finer.
   */
  lemma {:induction false} TimeBaseIsCommonMultiple(s: State, fs: seq<Frame>)
    requires Good(s) && (forall f :: f in fs ==> f.Valid()) && NeverOverflows(s, fs)
    ensures Good(Run(s, fs)) && Divides(s.tb.den, Run(s, fs).tb.den)
    ensures forall f :: f in fs ==> Divides(f.sampleRate, Run(s, fs).tb.den)
  {
    if fs == [] {
      MultipleDivides(s.tb.den, 1);
    } else {
      RunPrefix(s, fs);
      var p, last := fs[..|fs| - 1], fs[|fs| - 1];
      TimeBaseIsCommonMultiple(s, p);
      var u := Run(s, p);
      ProcessStep(u, last);
      var den := Run(s, fs).tb.den;
      DividesTrans(s.tb.den, u.tb.den, den);
      RatesDivide(fs, u.tb.den, den);
    }
  }

  lemma RatesDivide(fs: seq<Frame>, a: int, den: int)
    requires fs != [] && Divides(a, den) && Divides(fs[|fs| - 1].sampleRate, den)
    requires forall f :: f in fs[..|fs| - 1] ==> Divides(f.sampleRate, a)
    ensures forall f :: f in fs ==> Divides(f.sampleRate, den)
  {
    var p, last := fs[..|fs| - 1], fs[|fs| - 1];
    forall f | f in fs ensures Divides(f.sampleRate, den) {
      if f in p { DividesTrans(f.sampleRate, a, den); } else { assert fs == p + [last]; }
    }
  }

  function TotalLength(fs: seq<Frame>): real
    requires forall f :: f in fs ==> f.Valid()
  {
    if fs == [] then 0.0 else TotalLength(fs[..|fs| - 1]) + Length(fs[|fs| - 1])
  }

  /** A frame without a timestamp starts exactly where the frame before it ended, whatever came before. */
  lemma FramesLieEndToEnd(s: State, fs: seq<Frame>, f: Frame, g: Frame)
    requires Good(s) && (forall h :: h in fs + [f, g] ==> h.Valid()) && NeverOverflows(s, fs + [f, g])
    requires g.pts.NoPts?
    ensures var u, v := Run(s, fs + [f]), Run(s, fs + [f, g]);
            u.lastPts.At? && v.lastPts.At? && Start(v) == Start(u) + Length(f)
  {
    var all := fs + [f, g];
    assert all[..|all| - 1] == fs + [f] && (fs + [f])[..|fs|] == fs;
    RunPrefix(s, all);
    RunPrefix(s, fs + [f]);
    TimeBaseIsCommonMultiple(s, fs);
    ProcessStep(Run(s, fs), f);
    ProcessStep(Run(s, fs + [f]), g);
  }

  /** From a fresh decoder, frames without timestamps start at the exact sum of the lengths before them. */
  lemma {:induction false} StartIsExactSum(fs: seq<Frame>)
    requires fs != [] && (forall f :: f in fs ==> f.Valid() && f.pts.NoPts?) && NeverOverflows(INITIAL, fs)
    ensures Run(INITIAL, fs).lastPts.At?
    ensures Start(Run(INITIAL, fs)) == TotalLength(fs[..|fs| - 1])
    ensures NextStart(Run(INITIAL, fs)) == TotalLength(fs)
  {
    RunPrefix(INITIAL, fs);
    var p := fs[..|fs| - 1];
    TimeBaseIsCommonMultiple(INITIAL, p);
    if p != [] { StartIsExactSum(p); }
    ProcessStep(Run(INITIAL, p), fs[|fs| - 1]);
  }

  function Samples(fs: seq<Frame>): nat {
    if fs == [] then 0 else Samples(fs[..|fs| - 1]) + fs[|fs| - 1].nbSamples
  }

  lemma {:induction false} TotalIsSamples(fs: seq<Frame>, rate: int)
    requires rate > 0 && forall f :: f in fs ==> f.Valid() && f.sampleRate == rate
    ensures TotalLength(fs) == Samples(fs) as real / rate as real
  {
    if fs != [] {
      TotalIsSamples(fs[..|fs| - 1], rate);
      AddFractions(Samples(fs[..|fs| - 1]), fs[|fs| - 1].nbSamples, rate);
    }
  }

  lemma CrossMultiply(a: int, b: int, c: int, d: int)
    requires b > 0 && d > 0 && a as real / b as real == c as real / d as real
    ensures a * d == c * b
  {
    var x := a as real / b as real;
    assert a as real == x * b as real && c as real == x * d as real;
    assert a as real * d as real == x * b as real * d as real;
    assert c as real * b as real == x * d as real * b as real;
    assert (a * d) as real == a as real * d as real && (c * b) as real == c as real * b as real;
  }

  lemma FilteredExact(s: State, f: Frame, n: int)
    requires f.Valid() && Good(s) && s.lastPts.At? && Start(s) == n as real / f.sampleRate as real
    ensures Filtered(s, f) == n
  {
    CrossMultiply(s.lastPts.v, s.tb.den, n, f.sampleRate);
    RescaleExact(s.lastPts.v, Mul(1, f.sampleRate), Mul(1, s.tb.den), n);
  }

  /** At one sample rate the filters are handed exactly the number of samples decoded before the frame. */
  lemma SingleRateCountsSamples(fs: seq<Frame>, rate: int)
    requires fs != [] && (forall f :: f in fs ==> f.Valid() && f.pts.NoPts? && f.sampleRate == rate)
    requires NeverOverflows(INITIAL, fs)
    ensures Run(INITIAL, fs).lastPts.At?
    ensures Filtered(Run(INITIAL, fs), fs[|fs| - 1]) == Samples(fs[..|fs| - 1])
  {
    StartIsExactSum(fs);
    TimeBaseIsCommonMultiple(INITIAL, fs);
    TotalIsSamples(fs[..|fs| - 1], rate);
    FilteredExact(Run(INITIAL, fs), fs[|fs| - 1], Samples(fs[..|fs| - 1]));
  }

  /** Rescaling between unit fractions is exact exactly when the old denominator divides the product. */
  lemma RescaleExactIff(v: int, from: TimeBase, to: TimeBase)
    requires from.num == 1 && to.num == 1
    ensures RescaleQ(v, from, to) * from.den == v * to.den <==> Divides(from.den, v * to.den)
  {
    if Divides(from.den, v * to.den) {
      RescaleExact(v, Mul(1, to.den), Mul(1, from.den), v * to.den / from.den);
    } else {
      MultipleDivides(from.den, RescaleQ(v, from, to));
    }
  }

  /**
   * A change of the sample rate, with or without the fallback and whatever time base the frame offers, keeps the last
   * timestamp and the last duration exactly when the old denominator divides their products with the new one.
   */
  lemma RateChangeExactIff(s: State, f: Frame)
    requires s.tb.num == 1 && f.Valid() && f.sampleRate != s.lastRate
    ensures var t, den := RateUpdate(s, f), NewBase(s, f).den;
            && t.tb == Rational(1, den) && t.lastPts.At? == s.lastPts.At?
            && (s.lastPts.At? ==>
                  (t.lastPts.v * s.tb.den == s.lastPts.v * den <==> Divides(s.tb.den, s.lastPts.v * den)))
            && (t.lastDuration * s.tb.den == s.lastDuration * den <==> Divides(s.tb.den, s.lastDuration * den))
  {
    if s.lastPts.At? { RescaleExactIff(s.lastPts.v, s.tb, NewBase(s, f)); }
    RescaleExactIff(s.lastDuration, s.tb, NewBase(s, f));
  }

  /** The fallback: its denominator is 28224000 unless the frame's own time base is a finer multiple of it. */
  lemma FallbackExactIff(s: State, f: Frame)
    requires s.tb.num == 1 && f.Valid() && Overflows(s, f)
    ensures var t, den := RateUpdate(s, f), NewBase(s, f).den;
            && (den == FALLBACK_DEN || (den == f.timeBase.den && den > FALLBACK_DEN && Divides(FALLBACK_DEN, den)))
            && (s.lastPts.At? ==>
                  (t.lastPts.v * s.tb.den == s.lastPts.v * den <==> Divides(s.tb.den, s.lastPts.v * den)))
            && (t.lastDuration * s.tb.den == s.lastDuration * den <==> Divides(s.tb.den, s.lastDuration * den))
  {
    RateChangeExactIff(s, f);
  }

  /** A switch from 48000 to 48001 Hz takes the fallback, whose time base cannot represent one sample at 48001 Hz. */
  lemma FallbackIsReachable()
    ensures var f := Frame(NoPts, Rational(1, 48000), 1, 48000);
            var s := Process(INITIAL, f);
            var g := Frame(NoPts, Rational(1, 48001), 1, 48001);
            && f.Valid() && g.Valid() && !Overflows(INITIAL, f) && Overflows(s, g)
            && NewBase(s, g).den == FALLBACK_DEN && !Divides(48001, FALLBACK_DEN)
  {
    var f := Frame(NoPts, Rational(1, 48000), 1, 48000);
    assert Gcd(1, 48000) == 1 by { assert Gcd(48000, 1) == 1; }
    assert Gcd(48000, 48001) == 1 by { assert Gcd(48001, 48000) == Gcd(48000, 1); assert Gcd(48000, 1) == Gcd(1, 0); }
    assert RateUpdate(INITIAL, f).tb == Rational(1, 48000);
  }

  // ---------- what the choice of the time base means ----------

  /** Every common divisor divides the greatest one. */
  lemma {:induction false} GcdIsGreatest(a: nat, b: nat, d: int)
    requires (a > 0 || b > 0) && Divides(d, a) && Divides(d, b)
    ensures Divides(d, Gcd(a, b))
    decreases b
  {
    if b > 0 {
      DividesSum(d, b, a, -(a / b));
      assert b * -(a / b) + a == a % b;
      GcdIsGreatest(b, a % b, d);
    }
  }

  /** The fallback is taken only where the exact common multiple is within one sample rate of INT_MAX, or beyond. */
  lemma OverflowIsTight(s: State, f: Frame)
    requires s.tb.num == 1 && f.Valid() && f.sampleRate != s.lastRate
    ensures Lcm(s.tb.den, f.sampleRate) * Gcd(s.tb.den, f.sampleRate) == s.tb.den * f.sampleRate
    ensures if Overflows(s, f) then Lcm(s.tb.den, f.sampleRate) + f.sampleRate > INT_MAX
            else Lcm(s.tb.den, f.sampleRate) <= INT_MAX
  {
    var prev, sr := s.tb.den, f.sampleRate;
    var g := Gcd(prev, sr);
    GcdDivides(prev, sr);
    var q := prev / g;
    assert prev == q * g && Lcm(prev, sr) == q * sr;
    assert q * sr * g == q * g * sr;
    if Overflows(s, f) { QuotientTooBig(q, sr); } else { QuotientFits(q, sr); }
  }

  lemma QuotientTooBig(q: int, sr: int)
    requires sr > 0 && q >= INT_MAX / sr
    ensures q * sr + sr > INT_MAX
  {
    var m := INT_MAX / sr;
    assert INT_MAX == m * sr + INT_MAX % sr;
    assert (q - m) * sr >= 0;
  }

  /** A frame time base that refines the new one is kept, and timestamps in it are then taken as they are. */
  lemma FinerStampsAreExact(s: State, f: Frame)
    requires s.tb.num == 1 && f.Valid() && f.sampleRate != s.lastRate && f.pts.At?
    requires var den := if Overflows(s, f) then 28224000 else Lcm(s.tb.den, f.sampleRate);
             f.timeBase.num == 1 && f.timeBase.den > den && Divides(den, f.timeBase.den)
    ensures Process(s, f).tb == f.timeBase && Process(s, f).lastPts == f.pts
  {
    var t := RateUpdate(s, f);
    RescaleDeltaIdentity(f.timeBase, f.pts.v, t.tb, f.nbSamples, if Gap(t, f) then NoPts else t.lastFilter);
  }

  /** A frame with a timestamp starts within half a tick of its own time base, and one of the internal one, of it. */
  lemma StampedFrameIsClose(s: State, f: Frame)
    requires f.Valid() && f.pts.At?
    ensures var t := Process(s, f);
            t.lastPts.At?
            && Close(t.lastPts.v, f.pts.v, Mul(f.timeBase.num, t.tb.den), Mul(t.tb.num, f.timeBase.den))
  {
    var t := RateUpdate(s, f);
    var last := if Gap(t, f) then NoPts else t.lastFilter;
    DeltaIs(f.timeBase, f.pts.v, t.tb, f.nbSamples, last, t.tb);
    SimpleIsClose(f.pts.v, Mul(f.timeBase.num, t.tb.den), Mul(t.tb.num, f.timeBase.den));
    var (r, next) := RescaleDelta(f.timeBase, f.pts.v, t.tb, f.nbSamples, last, t.tb);
    RescaleIdentity(next.v - f.nbSamples, t.tb);
  }

  /** A gap is a timestamp at least one of its ticks after the predicted end, and a frame behind a gap starts afresh. */
  lemma GapIs(s: State, f: Frame)
    requires f.Valid()
    ensures var t := RateUpdate(s, f);
            && (Gap(t, f) <==> f.pts.At? && t.lastPts.At?
                               && Predicted(t) * (t.tb.num * f.timeBase.den)
                                  <= (f.pts.v - 1) * (f.timeBase.num * t.tb.den))
            && (Gap(t, f) ==> Process(s, f).lastPts == At(RescaleQ(f.pts.v, f.timeBase, t.tb)))
  {
    var t := RateUpdate(s, f);
    var up, down := Mul(t.tb.num, f.timeBase.den), Mul(f.timeBase.num, t.tb.den);
    RescaleBrackets(Predicted(t), up, down);
    if f.pts.At? { CeilingIff(RescaleQUp(Predicted(t), t.tb, f.timeBase), f.pts.v, Predicted(t) * up, down); }
    assert up == t.tb.num * f.timeBase.den && down == f.timeBase.num * t.tb.den;
  }

  lemma CeilingIff(c: int, v: int, x: int, down: int)
    requires down > 0 && c * down - down < x <= c * down
    ensures v > c <==> x <= (v - 1) * down
  {
    assert (v - 1) * down == v * down - down;
    if v > c { Monotone(c, v - 1, down); } else { Monotone(v, c, down); }
  }

  lemma Monotone(a: int, b: int, m: int)
    requires a <= b && m > 0
    ensures a * m <= b * m
  {
    assert (b - a) * m >= 0;
  }
}

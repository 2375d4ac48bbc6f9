/** How far the demuxer's dts estimates move: over packets without dts they follow the lengths of the packets. */
module DtsPrediction {
  import opened Common
  import opened AvMath
  import opened DemuxTimestamps

  /** v microseconds are `ticks` ticks of the time base, rounded to nearest. */
  predicate Near(v: int, ticks: int, tb: TimeBase) {
    2 * Abs(v * tb.den - ticks * tb.num * AV_TIME_BASE) <= tb.den
  }

  lemma MicrosecondsNear(ticks: int, tb: TimeBase)
    ensures Near(RescaleQ(ticks, tb, MICROSECONDS), ticks, tb)
  {
    var up, down := Mul(tb.num, MICROSECONDS.den), Mul(MICROSECONDS.num, tb.den);
    var v := RescaleQ(ticks, tb, MICROSECONDS);
    RescaleNearest(ticks, up, down);
    NearFromProducts(v, ticks, up, down);
    assert up == tb.num * AV_TIME_BASE && down == tb.den && ticks * up == ticks * tb.num * AV_TIME_BASE;
  }

  lemma NearFromProducts(v: int, ticks: int, up: int, down: int)
    requires 2 * ticks * up - down <= 2 * v * down <= 2 * ticks * up + down
    ensures 2 * Abs(v * down - ticks * up) <= down
  {
    assert 2 * v * down == 2 * (v * down) && 2 * ticks * up == 2 * (ticks * up);
  }

  // ---------- one packet ----------

  /** A packet with a dts is estimated at it; the first packet without one at its pts behind the codec's start. */
  lemma EstimateIs(st: Stream, tr: Track, p: Stamps)
    ensures var dts := Update(st, tr, p).dts;
            && (p.dts.At? ==> Near(dts, p.dts.v, st.timeBase))
            && (p.dts.NoPts? && tr.nextDts.At? ==> dts == tr.nextDts.v)
            && (p.dts.NoPts? && tr.nextDts.NoPts? && !tr.sawFirst && p.pts.At? ==>
                  Near(dts - st.startDts, p.pts.v, st.timeBase))
            && (p.dts.NoPts? && tr.nextDts.NoPts? && !tr.sawFirst && p.pts.NoPts? ==> dts == st.startDts)
            && (p.dts.NoPts? && tr.nextDts.NoPts? && tr.sawFirst ==> dts == tr.dts)
    ensures Update(st, tr, p).sawFirst && Update(st, tr, p).nextDts.At?
  {
    if p.dts.At? { MicrosecondsNear(p.dts.v, st.timeBase); }
    if p.pts.At? { MicrosecondsNear(p.pts.v, st.timeBase); }
  }

  /** How far the prediction lies behind the estimate. */
  function Advance(st: Stream, tr: Track, p: Stamps): int {
    var u := Update(st, tr, p);
    if u.nextDts.At? then u.nextDts.v - u.dts else 0
  }

  /** Audio with a sample rate advances by the length of a frame, rounded down to a microsecond. */
  lemma AudioAdvances(st: Stream, tr: Track, p: Stamps)
    requires st.mediaType.Audio? && st.sampleRate > 0
    ensures var a := Advance(st, tr, p);
            a * st.sampleRate <= AV_TIME_BASE * st.frameSize < (a + 1) * st.sampleRate
  {
    var n := AV_TIME_BASE * st.frameSize;
    FloorBounds(n, st.sampleRate);
  }

  lemma FloorBounds(n: nat, d: int)
    requires d > 0
    ensures (n / d) * d <= n < (n / d + 1) * d
  {
    assert n == (n / d) * d + n % d && (n / d + 1) * d == (n / d) * d + d;
  }

  /** Without sample rate or frame rate a packet with a duration advances by it; video without one by its fields. */
  lemma DurationAdvances(st: Stream, tr: Track, p: Stamps)
    ensures st.mediaType.Audio? && st.sampleRate == 0 ==> Near(Advance(st, tr, p), p.duration, st.timeBase)
    ensures st.mediaType.Video? && st.frameTime.None? && p.duration != 0 ==>
              Near(Advance(st, tr, p), p.duration, st.timeBase)
    ensures st.mediaType.Video? && st.frameTime.None? && p.duration == 0 && st.fieldTime.Some? ==>
              Near(Advance(st, tr, p), st.fields, st.fieldTime.value)
    ensures st.mediaType.Video? && st.frameTime.None? && p.duration == 0 && st.fieldTime.None? ==>
              Advance(st, tr, p) == 0
    ensures st.mediaType.Other? ==> Advance(st, tr, p) == 0
  {
    MicrosecondsNear(p.duration, st.timeBase);
    if st.fieldTime.Some? { MicrosecondsNear(st.fields, st.fieldTime.value); }
  }

  // ---------- runs of packets without dts ----------

  /** The estimates and predictions of one stream after its packets. */
  function TrackAfter(st: Stream, tr: Track, ps: seq<Stamps>): Track {
    if ps == [] then tr else Update(st, TrackAfter(st, tr, ps[..|ps| - 1]), ps[|ps| - 1])
  }

  ghost predicate WithoutDts(ps: seq<Stamps>) { forall k :: 0 <= k < |ps| ==> ps[k].dts.NoPts? }

  lemma PredictionMoves(st: Stream, tr: Track, p: Stamps)
    requires tr.nextDts.At? && p.dts.NoPts?
    ensures Update(st, tr, p).nextDts == At(tr.nextDts.v + Advance(st, tr, p)) && Update(st, tr, p).dts == tr.nextDts.v
  {
    EstimateIs(st, tr, p);
  }

  /** n audio packets without dts advance the estimate by n frame lengths, within one microsecond each. */
  lemma {:induction false} AudioRunAdvances(st: Stream, tr: Track, ps: seq<Stamps>)
    requires st.mediaType.Audio? && st.sampleRate > 0 && tr.nextDts.At? && WithoutDts(ps)
    ensures var u := TrackAfter(st, tr, ps);
            && u.nextDts.At?
            && var a := (u.nextDts.v - tr.nextDts.v) * st.sampleRate;
               a <= |ps| * (AV_TIME_BASE * st.frameSize) <= a + |ps| * st.sampleRate
    ensures ps != [] ==> TrackAfter(st, tr, ps).dts == TrackAfter(st, tr, ps[..|ps| - 1]).nextDts.v
  {
    if ps != [] {
      var n := |ps| - 1;
      AudioRunAdvances(st, tr, ps[..n]);
      var t := TrackAfter(st, tr, ps[..n]);
      AudioAdvances(st, t, ps[n]);
      PredictionMoves(st, t, ps[n]);
      AddProducts(n, t.nextDts.v - tr.nextDts.v, Advance(st, t, ps[n]), st.sampleRate, AV_TIME_BASE * st.frameSize);
    }
  }

  lemma AddProducts(n: nat, a: int, b: int, rate: int, length: int)
    requires a * rate <= n * length <= a * rate + n * rate
    requires b * rate <= length < (b + 1) * rate
    ensures (a + b) * rate <= (n + 1) * length <= (a + b) * rate + (n + 1) * rate
  {
    assert (a + b) * rate == a * rate + b * rate && (b + 1) * rate == b * rate + rate;
    assert (n + 1) * length == n * length + length && (n + 1) * rate == n * rate + rate;
  }

  /** The sum of the packets' durations. */
  function Durations(ps: seq<Stamps>): int {
    if ps == [] then 0 else Durations(ps[..|ps| - 1]) + ps[|ps| - 1].duration
  }

  /** The estimate moves by the durations of the packets, within half a microsecond each. */
  lemma {:induction false} DurationRunAdvances(st: Stream, tr: Track, ps: seq<Stamps>)
    requires (st.mediaType.Audio? && st.sampleRate == 0) || (st.mediaType.Video? && st.frameTime.None?)
    requires tr.nextDts.At? && WithoutDts(ps) && forall k :: 0 <= k < |ps| ==> ps[k].duration > 0
    ensures var u := TrackAfter(st, tr, ps);
            && u.nextDts.At?
            && 2 * Abs((u.nextDts.v - tr.nextDts.v) * st.timeBase.den
                       - Durations(ps) * st.timeBase.num * AV_TIME_BASE) <= |ps| * st.timeBase.den
  {
    if ps != [] {
      var n := |ps| - 1;
      DurationRunAdvances(st, tr, ps[..n]);
      var t := TrackAfter(st, tr, ps[..n]);
      DurationAdvances(st, t, ps[n]);
      PredictionMoves(st, t, ps[n]);
      AddNear(n, t.nextDts.v - tr.nextDts.v, Durations(ps[..n]), Advance(st, t, ps[n]), ps[n].duration, st.timeBase);
    }
  }

  lemma AddNear(n: nat, a: int, x: int, b: int, y: int, tb: TimeBase)
    requires 2 * Abs(a * tb.den - x * tb.num * AV_TIME_BASE) <= n * tb.den && Near(b, y, tb)
    ensures 2 * Abs((a + b) * tb.den - (x + y) * tb.num * AV_TIME_BASE) <= (n + 1) * tb.den
  {
    assert (a + b) * tb.den == a * tb.den + b * tb.den;
    assert (x + y) * tb.num * AV_TIME_BASE == x * tb.num * AV_TIME_BASE + y * tb.num * AV_TIME_BASE;
    assert (n + 1) * tb.den == n * tb.den + tb.den;
  }

  // ---------- video with a frame rate ----------

  /** Frames are longer than a microsecond. */
  predicate Slow(f: TimeBase) { f.num * AV_TIME_BASE > f.den }

  /** Frame m is the one nearest to v microseconds. */
  predicate Nearest(m: int, v: int, f: TimeBase) {
    2 * Abs(m * f.num * AV_TIME_BASE - v * f.den) <= f.num * AV_TIME_BASE
  }

  /** A video packet moves to the frame behind the one nearest to its estimate, within half a microsecond. */
  lemma FrameAdvances(st: Stream, tr: Track, p: Stamps) returns (m: int)
    requires st.mediaType.Video? && st.frameTime.Some?
    ensures Nearest(m, Update(st, tr, p).dts, st.frameTime.value)
    ensures Update(st, tr, p).nextDts.At? && Near(Update(st, tr, p).nextDts.v, m + 1, st.frameTime.value)
  {
    var f, dts := st.frameTime.value, Update(st, tr, p).dts;
    hide Near, Nearest, RescaleQ;
    m := RescaleQ(dts, MICROSECONDS, f);
    FrameNumberNearest(dts, f);
    MicrosecondsNear(m + 1, f);
  }

  lemma FrameNumberNearest(dts: int, f: TimeBase)
    ensures Nearest(RescaleQ(dts, MICROSECONDS, f), dts, f)
  {
    var up, down := Mul(f.num, MICROSECONDS.den), Mul(MICROSECONDS.num, f.den);
    var m := RescaleQ(dts, MICROSECONDS, f);
    RescaleNearest(dts, down, up);
    NearFromProducts(m, dts, down, up);
    assert up == f.num * AV_TIME_BASE && down == f.den && m * up == m * f.num * AV_TIME_BASE;
  }

  /** The frame nearest to a time within half a microsecond of a frame is that frame. */
  lemma GridIsKept(m: int, k: int, v: int, f: TimeBase)
    requires Slow(f) && Near(v, k, f) && Nearest(m, v, f)
    ensures m == k
  {
    var length := f.num * AV_TIME_BASE;
    assert k * f.num * AV_TIME_BASE == k * length && m * f.num * AV_TIME_BASE == m * length;
    if m > k { MulAtMost(1, m - k, length); }
    if m < k { MulAtMost(1, k - m, length); }
    assert (m - k) * length == m * length - k * length;
    assert (k - m) * length == k * length - m * length;
  }

  /** Over video packets without dts the estimate stays on the frame grid and moves one frame per packet. */
  lemma {:induction false} FrameRunAdvances(st: Stream, tr: Track, ps: seq<Stamps>, k: int)
    requires st.mediaType.Video? && st.frameTime.Some? && Slow(st.frameTime.value) && WithoutDts(ps)
    requires tr.nextDts.At? && Near(tr.nextDts.v, k, st.frameTime.value)
    ensures var u := TrackAfter(st, tr, ps);
            u.nextDts.At? && Near(u.nextDts.v, k + |ps|, st.frameTime.value)
  {
    if ps != [] {
      var n := |ps| - 1;
      FrameRunAdvances(st, tr, ps[..n], k);
      var t := TrackAfter(st, tr, ps[..n]);
      PredictionMoves(st, t, ps[n]);
      var m := FrameAdvances(st, t, ps[n]);
      GridIsKept(m, k + n, t.nextDts.v, st.frameTime.value);
    }
  }
}

/** Timestamps on the way out of the demuxer: loop shifts, discontinuity repair and dts prediction. */
module DemuxTimestamps {
  import opened AvMath
  import opened Common

  datatype MediaType = Video | Audio | Other

  /** `copyTs`, the format flag AVFMT_TS_DISCONT and the two thresholds in seconds. */
  datatype Config = Config(copyTs: bool, discont: bool, deltaThreshold: real, errorThreshold: real)

  /** What a stream fixes once and for all; `startDts` is the dts guessed from the codec delay, 0 without a rate. */
  datatype Stream = Stream(
    mediaType: MediaType, timeBase: TimeBase, wrapBits: nat, scale: real, startDts: int,
    sampleRate: nat, frameSize: nat, frameTime: Option<TimeBase>, fieldTime: Option<TimeBase>, fields: nat)
  {
    predicate Timed() { mediaType.Video? || mediaType.Audio? }
  }

  datatype Stamps = Stamps(pts: Ts, dts: Ts, duration: int) {
    function Shift(k: int): Stamps { this.(pts := Plus(pts, k), dts := Plus(dts, k)) }
  }

  function Plus(t: Ts, k: int): Ts {
    match t
    case NoPts => NoPts
    case At(v) => At(v + k)
  }

  function Pow2(n: nat): nat { if n == 0 then 1 else 2 * Pow2(n - 1) }

  /** |delta| exceeds a threshold in seconds. */
  predicate Beyond(delta: int, threshold: real) {
    Abs(delta) as real > threshold * 1000000.0
  }

  // ---------- discontinuity repair ----------

  /** The demuxer's discontinuity state and one stream's dts prediction. */
  datatype Clock = Clock(offset: int, lastTs: Ts)
  datatype Track = Track(sawFirst: bool, nextDts: Ts, dts: int)

  /** With copied timestamps a jump is only repaired when a wrap of the clock explains it ten times better. */
  predicate Disabled(cfg: Config, st: Stream, tr: Track, dts: int) {
    cfg.copyTs &&
    !(tr.nextDts.At? && cfg.discont && st.wrapBits < 60
      && Abs(RescaleQ(dts + Pow2(st.wrapBits), st.timeBase, MICROSECONDS) - tr.nextDts.v)
         < Abs(RescaleQ(dts, st.timeBase, MICROSECONDS) - tr.nextDts.v) / 10)
  }

  /** The correction taken off the timestamps, in microseconds. */
  function Jump(cfg: Config, st: Stream, ck: Clock, tr: Track, dts: int): int {
    var us := RescaleQ(dts, st.timeBase, MICROSECONDS);
    if !cfg.discont then 0
    else if tr.nextDts.At? then
      var delta := us - tr.nextDts.v;
      if !Disabled(cfg, st, tr, dts) && (Beyond(delta, cfg.deltaThreshold) || us + AV_TIME_BASE / 10 < tr.dts)
      then delta else 0
    else if !cfg.copyTs && ck.lastTs.At? && Beyond(us - ck.lastTs.v, cfg.deltaThreshold) then us - ck.lastTs.v
    else 0
  }

  /** Formats without discontinuities lose a timestamp that is far from the prediction. */
  function Cleaned(cfg: Config, st: Stream, tr: Track, t: Ts, dts: int): Ts {
    if !cfg.discont && tr.nextDts.At? && !Disabled(cfg, st, tr, dts) && t.At?
       && Beyond(RescaleQ(t.v, st.timeBase, MICROSECONDS) - tr.nextDts.v, cfg.errorThreshold)
    then NoPts else t
  }

  const INT64_MAX: int := 0x7fff_ffff_ffff_ffff

  /** av_rescale_q of a timestamp in microseconds; a missing one is the least 64-bit value and is rescaled like it. */
  function Microseconds(t: Ts, tb: TimeBase): Ts {
    match t
    case At(v) => At(RescaleQ(v, tb, MICROSECONDS))
    case NoPts =>
      var v := RescaleQ(INT64_MAX, tb, MICROSECONDS);
      if v > INT64_MAX then NoPts else At(-v)
  }

  function Detect(cfg: Config, st: Stream, ck: Clock, tr: Track, p: Stamps): (Clock, Stamps)
    requires p.dts.At?
  {
    var jump := Jump(cfg, st, ck, tr, p.dts.v);
    var q := p.(pts := Cleaned(cfg, st, tr, p.pts, p.dts.v), dts := Cleaned(cfg, st, tr, p.dts, p.dts.v))
              .Shift(-RescaleQ(jump, MICROSECONDS, st.timeBase));
    (Clock(ck.offset - jump, Microseconds(q.dts, st.timeBase)), q)
  }

  function Process(cfg: Config, st: Stream, ck: Clock, tr: Track, p: Stamps): (Clock, Stamps) {
    var q := p.Shift(RescaleQ(ck.offset, MICROSECONDS, st.timeBase));
    if st.Timed() && p.dts.At? then Detect(cfg, st, ck, tr, q) else (ck, q)
  }

  /** The dts predicted for the packet after one at `dts`. */
  function Predict(st: Stream, dts: int, duration: int): int {
    match st.mediaType
    case Other => dts
    case Audio =>
      if st.sampleRate > 0 then dts + AV_TIME_BASE * st.frameSize / st.sampleRate
      else dts + RescaleQ(duration, st.timeBase, MICROSECONDS)
    case Video =>
      if st.frameTime.Some? then
        var f := st.frameTime.value;
        RescaleQ(RescaleQ(dts, MICROSECONDS, f) + 1, f, MICROSECONDS)
      else if duration != 0 then dts + RescaleQ(duration, st.timeBase, MICROSECONDS)
      else if st.fieldTime.Some? then dts + RescaleQ(st.fields, st.fieldTime.value, MICROSECONDS)
      else dts
  }

  function Update(st: Stream, tr: Track, p: Stamps): Track {
    var first := if tr.sawFirst then tr.dts
                 else st.startDts + (if p.pts.At? then RescaleQ(p.pts.v, st.timeBase, MICROSECONDS) else 0);
    var dts := if p.dts.At? then RescaleQ(p.dts.v, st.timeBase, MICROSECONDS)
               else if tr.nextDts.At? then tr.nextDts.v else first;
    Track(true, At(Predict(st, dts, p.duration)), dts)
  }

  // ---------- looping ----------

  datatype Bound = Unset | Bound(ts: int, tb: TimeBase)

  /** Smallest pts and largest packet end ever seen, and the length of the looped segment. */
  datatype Extent = Extent(min: Bound, max: Bound, duration: int, tb: TimeBase)

  const NO_EXTENT: Extent := Extent(Unset, Unset, 0, Rational(1, 1))

  /** Widens the extent by a packet already shifted to `pts`, ending at `end`. */
  function Widen(e: Extent, pts: int, end: int, tb: TimeBase): Extent {
    e.(max := if e.max.Unset? || CompareTs(e.max.ts, e.max.tb, end, tb) < 0 then Bound(end, tb) else e.max,
       min := if e.min.Unset? || CompareTs(e.min.ts, e.min.tb, pts, tb) > 0 then Bound(pts, tb) else e.min)
  }

  function LoopShift(e: Extent, tb: TimeBase): int { RescaleQ(e.duration, e.tb, tb) }

  /** The loop part of ts_fixup; with an audio decoder packet durations are not counted. */
  function Loop(e: Extent, haveAudioDec: bool, p: Stamps, tb: TimeBase): (Extent, Stamps) {
    var q := p.Shift(LoopShift(e, tb));
    (if q.pts.At? then Widen(e, q.pts.v, q.pts.v + (if haveAudioDec then 0 else p.duration), tb) else e, q)
  }

  /** seek_to_start; `end` is the end of decoded audio, if any. */
  function Seek(e: Extent, end: Bound): Extent {
    var max := if end.Bound? && (e.max.Unset? || CompareTs(e.max.ts, e.max.tb, end.ts, end.tb) < 0) then end else e.max;
    match max
    case Unset => e.(tb := Rational(1, 1))
    case Bound(ts, tb) =>
      Extent(e.min, max, ts - (if e.min.Unset? then 0 else RescaleQ(e.min.ts, e.min.tb, tb)), tb)
  }

  // ---------- the demuxer ----------

  /** A C conversion from double to an integer. */
  function Trunc(x: real): int { if x >= 0.0 then x.Floor else -(-x).Floor }

  function Scaled(t: Ts, scale: real): Ts {
    match t
    case NoPts => NoPts
    case At(v) => At(Trunc(v as real * scale))
  }

  /** A timestamp more than half a clock period past the start belongs to the period before. */
  function Unwrapped(t: Ts, start: int, period: nat): Ts {
    if t.At? && t.v > start + period / 2 then At(t.v - period) else t
  }

  class Packet {
    var pts: Ts
    var dts: Ts
    var duration: int

    function Now(): Stamps reads this { Stamps(pts, dts, duration) }
  }

  class DemuxStream {
    const st: Stream
    var wrapCorrectionDone: bool
    var sawFirstTs: bool
    var nextDts: Ts
    var dts: int

    function Now(): Track reads this { Track(sawFirstTs, nextDts, dts) }

    constructor (st: Stream)
      ensures this.st == st && Now() == Track(false, NoPts, 0) && !wrapCorrectionDone
    {
      this.st := st;
      wrapCorrectionDone, sawFirstTs, nextDts, dts := false, false, NoPts, 0;
    }

    method DtsUpdate(pkt: Packet) returns (dtsEst: int)
      modifies `sawFirstTs, `nextDts, `dts
      ensures Now() == Update(st, old(Now()), pkt.Now()) && dtsEst == dts
    {
      if !sawFirstTs {
        dts := st.startDts;
        if pkt.pts.At? { dts := dts + RescaleQ(pkt.pts.v, st.timeBase, MICROSECONDS); }
        sawFirstTs := true;
      }
      if nextDts.NoPts? { nextDts := At(dts); }
      if pkt.dts.At? {
        dts := RescaleQ(pkt.dts.v, st.timeBase, MICROSECONDS);
        nextDts := At(dts);
      }
      dts := nextDts.v;
      nextDts := At(Predict(st, dts, pkt.duration));
      dtsEst := dts;
    }
  }

  class Demuxer {
    const cfg: Config
    const startTime: Ts
    const tsOffset: int
    const haveAudioDec: bool
    var tsOffsetDiscont: int
    var lastTs: Ts
    var minPts: Bound
    var maxPts: Bound
    var duration: int
    var durationTb: TimeBase
    var loop: int

    function Discont(): Clock reads this { Clock(tsOffsetDiscont, lastTs) }

    function Looped(): Extent reads this { Extent(minPts, maxPts, duration, durationTb) }

    constructor (cfg: Config, startTime: Ts, tsOffset: int, haveAudioDec: bool, loop: int)
      ensures this.cfg == cfg && this.startTime == startTime && this.tsOffset == tsOffset
      ensures this.haveAudioDec == haveAudioDec && this.loop == loop
      ensures Discont() == Clock(0, At(0)) && Looped() == NO_EXTENT
    {
      this.cfg, this.startTime, this.tsOffset := cfg, startTime, tsOffset;
      this.haveAudioDec, this.loop := haveAudioDec, loop;
      tsOffsetDiscont, lastTs := 0, At(0);
      minPts, maxPts, duration, durationTb := Unset, Unset, 0, Rational(1, 1);
    }

    /** A jump of `delta` microseconds is taken off the timestamps and off the offset for the packets to come. */
    method TakeOff(delta: int, pkt: Packet, tb: TimeBase)
      modifies `tsOffsetDiscont, pkt`dts, pkt`pts
      ensures tsOffsetDiscont == old(tsOffsetDiscont) - delta
      ensures pkt.Now() == old(pkt.Now()).Shift(-RescaleQ(delta, MICROSECONDS, tb))
    {
      tsOffsetDiscont := tsOffsetDiscont - delta;
      pkt.dts := Plus(pkt.dts, -RescaleQ(delta, MICROSECONDS, tb));
      pkt.pts := Plus(pkt.pts, -RescaleQ(delta, MICROSECONDS, tb));
    }

    method DiscontinuityDetect(ds: DemuxStream, pkt: Packet)
      requires pkt.dts.At?
      modifies `tsOffsetDiscont, `lastTs, pkt
      ensures (Discont(), pkt.Now()) == Detect(cfg, ds.st, old(Discont()), ds.Now(), old(pkt.Now()))
    {
      var tb := ds.st.timeBase;
      var pktDts := RescaleQ(pkt.dts.v, tb, MICROSECONDS);
      var disable := cfg.copyTs;
      if cfg.copyTs && ds.nextDts.At? && cfg.discont && ds.st.wrapBits < 60 {
        var wrapDts := RescaleQ(pkt.dts.v + Pow2(ds.st.wrapBits), tb, MICROSECONDS);
        if Abs(wrapDts - ds.nextDts.v) < Abs(pktDts - ds.nextDts.v) / 10 { disable := false; }
      }
      RescaleIdentity(0, MICROSECONDS);
      RescaleExact(0, Mul(MICROSECONDS.num, tb.den), Mul(tb.num, MICROSECONDS.den), 0);
      if ds.nextDts.At? && !disable {
        var delta := pktDts - ds.nextDts.v;
        if cfg.discont {
          if Beyond(delta, cfg.deltaThreshold) || pktDts + AV_TIME_BASE / 10 < ds.dts {
            TakeOff(delta, pkt, tb);
          }
        } else {
          if Beyond(delta, cfg.errorThreshold) { pkt.dts := NoPts; }
          if pkt.pts.At? {
            delta := RescaleQ(pkt.pts.v, tb, MICROSECONDS) - ds.nextDts.v;
            if Beyond(delta, cfg.errorThreshold) { pkt.pts := NoPts; }
          }
        }
      } else if ds.nextDts.NoPts? && !cfg.copyTs && cfg.discont && lastTs.At? {
        var delta := pktDts - lastTs.v;
        if Beyond(delta, cfg.deltaThreshold) {
          TakeOff(delta, pkt, tb);
        }
      }
      lastTs := Microseconds(pkt.dts, tb);
    }

    method DiscontinuityProcess(ds: DemuxStream, pkt: Packet)
      modifies `tsOffsetDiscont, `lastTs, pkt
      ensures (Discont(), pkt.Now()) == Process(cfg, ds.st, old(Discont()), ds.Now(), old(pkt.Now()))
    {
      var offset := RescaleQ(tsOffsetDiscont, MICROSECONDS, ds.st.timeBase);
      if pkt.dts.At? { pkt.dts := At(pkt.dts.v + offset); }
      if pkt.pts.At? { pkt.pts := At(pkt.pts.v + offset); }
      if ds.st.Timed() && pkt.dts.At? { DiscontinuityDetect(ds, pkt); }
    }

    /** The packet before loop shift and discontinuity repair, once wrap correction is over or impossible. */
    function Prepared(st: Stream, p: Stamps): Stamps {
      var q := p.Shift(RescaleQ(tsOffset, MICROSECONDS, st.timeBase));
      q.(pts := Scaled(q.pts, st.scale), dts := Scaled(q.dts, st.scale))
    }

    predicate Wraps(ds: DemuxStream) reads ds { !ds.wrapCorrectionDone && startTime.At? && ds.st.wrapBits < 64 }

    function WrapFixed(ds: DemuxStream, p: Stamps): Stamps reads ds {
      if Wraps(ds) then
        var start := RescaleQ(startTime.v, MICROSECONDS, ds.st.timeBase);
        p.(pts := Unwrapped(p.pts, start, Pow2(ds.st.wrapBits)), dts := Unwrapped(p.dts, start, Pow2(ds.st.wrapBits)))
      else p
    }

    /** The first packets of a stream may still carry the clock value of before a wrap. */
    method CorrectWrap(ds: DemuxStream, pkt: Packet)
      modifies ds`wrapCorrectionDone, pkt
      ensures pkt.Now() == old(WrapFixed(ds, pkt.Now()))
      ensures ds.wrapCorrectionDone
              == (old(ds.wrapCorrectionDone) || (old(Wraps(ds)) && pkt.Now() == old(pkt.Now())))
    {
      if !ds.wrapCorrectionDone && startTime.At? && ds.st.wrapBits < 64 {
        var start := RescaleQ(startTime.v, MICROSECONDS, ds.st.timeBase);
        var period: int := Pow2(ds.st.wrapBits);
        ds.wrapCorrectionDone := true;
        if pkt.dts.At? && pkt.dts.v > start + period / 2 {
          pkt.dts := At(pkt.dts.v - period);
          ds.wrapCorrectionDone := false;
        }
        if pkt.pts.At? && pkt.pts.v > start + period / 2 {
          pkt.pts := At(pkt.pts.v - period);
          ds.wrapCorrectionDone := false;
        }
        PowPositive(ds.st.wrapBits);
      }
    }

    method OffsetAndScale(st: Stream, pkt: Packet)
      modifies pkt
      ensures pkt.Now() == Prepared(st, old(pkt.Now()))
    {
      if pkt.dts.At? { pkt.dts := At(pkt.dts.v + RescaleQ(tsOffset, MICROSECONDS, st.timeBase)); }
      if pkt.pts.At? { pkt.pts := At(pkt.pts.v + RescaleQ(tsOffset, MICROSECONDS, st.timeBase)); }
      pkt.pts := Scaled(pkt.pts, st.scale);
      pkt.dts := Scaled(pkt.dts, st.scale);
    }

    method TsFixup(ds: DemuxStream, pkt: Packet) returns (dtsEst: int)
      modifies this, ds, pkt
      ensures var p := Prepared(ds.st, old(WrapFixed(ds, pkt.Now())));
              var (extent, q) := Loop(old(Looped()), haveAudioDec, p, ds.st.timeBase);
              && Looped() == extent && loop == old(loop)
              && (Discont(), pkt.Now()) == Process(cfg, ds.st, old(Discont()), old(ds.Now()), q)
      ensures ds.Now() == Update(ds.st, old(ds.Now()), pkt.Now()) && dtsEst == ds.dts
      ensures ds.wrapCorrectionDone
              == (old(ds.wrapCorrectionDone) || (old(Wraps(ds)) && old(WrapFixed(ds, pkt.Now())) == old(pkt.Now())))
    {
      CorrectWrap(ds, pkt);
      OffsetAndScale(ds.st, pkt);
      ShiftByLoop(pkt, ds.st.timeBase);
      DiscontinuityProcess(ds, pkt);
      dtsEst := ds.DtsUpdate(pkt);
    }

    method ShiftByLoop(pkt: Packet, tb: TimeBase)
      modifies `minPts, `maxPts, pkt
      ensures (Looped(), pkt.Now()) == Loop(old(Looped()), haveAudioDec, old(pkt.Now()), tb)
    {
      var shift := RescaleQ(duration, durationTb, tb);
      if pkt.pts.At? {
        var pktDuration := if haveAudioDec then 0 else pkt.duration;
        pkt.pts := At(pkt.pts.v + shift);
        if maxPts.Unset? || CompareTs(maxPts.ts, maxPts.tb, pkt.pts.v + pktDuration, tb) < 0 {
          maxPts := Bound(pkt.pts.v + pktDuration, tb);
        }
        if minPts.Unset? || CompareTs(minPts.ts, minPts.tb, pkt.pts.v, tb) > 0 {
          minPts := Bound(pkt.pts.v, tb);
        }
      }
      if pkt.dts.At? { pkt.dts := At(pkt.dts.v + shift); }
    }

    /** A successful seek back to the start of the file. */
    method SeekToStart(end: Bound)
      modifies this
      ensures Looped() == Seek(old(Looped()), end) && Discont() == old(Discont())
      ensures loop == if old(loop) > 0 then old(loop) - 1 else old(loop)
    {
      if end.Bound? && (maxPts.Unset? || CompareTs(maxPts.ts, maxPts.tb, end.ts, end.tb) < 0) { maxPts := end; }
      if maxPts.Bound? {
        // an unset minimum counts as 0
        var least := if minPts.Unset? then 0 else RescaleQ(minPts.ts, minPts.tb, maxPts.tb);
        duration := maxPts.ts - least;
      }
      durationTb := if maxPts.Bound? then maxPts.tb else Rational(1, 1);
      if loop > 0 { loop := loop - 1; }
    }
  }

  lemma PowPositive(n: nat)
    ensures Pow2(n) >= 1
  {
  }

  // ---------- whole runs: discontinuities ----------

  /** A packet of one of the streams as it reaches the discontinuity code. */
  datatype Read = Read(stream: nat, raw: Stamps)

  datatype World = World(clock: Clock, tracks: seq<Track>)

  /** The state before read k and the packet it lets out, for a file with any number of streams. */
  function After(cfg: Config, sts: seq<Stream>, w: World, rs: seq<Read>): (u: World)
    requires |w.tracks| == |sts| && forall r :: r in rs ==> r.stream < |sts|
    ensures |u.tracks| == |sts|
  {
    if rs == [] then w
    else
      var v := After(cfg, sts, w, rs[..|rs| - 1]);
      var r := rs[|rs| - 1];
      var (ck, p) := Process(cfg, sts[r.stream], v.clock, v.tracks[r.stream], r.raw);
      World(ck, v.tracks[r.stream := Update(sts[r.stream], v.tracks[r.stream], p)])
  }

  /** A prediction never lies before the dts it was made from. */
  ghost predicate Forward(tr: Track) {
    tr.nextDts.At? ==> tr.dts <= tr.nextDts.v
  }

  lemma RescaleNonNegative(a: int, b: nat, c: int)
    requires a >= 0 && c > 0
    ensures Rescale(a, b, c) >= 0
  {
    assert a * b >= 0;
  }

  lemma PredictForward(st: Stream, dts: int, duration: int)
    requires duration >= 0
    ensures Predict(st, dts, duration) >= dts
  {
    var b, c := Mul(st.timeBase.num, MICROSECONDS.den), Mul(MICROSECONDS.num, st.timeBase.den);
    RescaleNonNegative(duration, b, c);
    match st.mediaType
    case Other =>
    case Audio =>
      if st.sampleRate > 0 { assert AV_TIME_BASE * st.frameSize / st.sampleRate >= 0; }
    case Video =>
      if st.frameTime.Some? {
        FrameForward(dts, st.frameTime.value);
      } else if st.fieldTime.Some? {
        var f := st.fieldTime.value;
        RescaleNonNegative(st.fields, Mul(f.num, MICROSECONDS.den), Mul(MICROSECONDS.num, f.den));
      }
  }

  /** The time of the frame after the one nearest to dts is not before dts. */
  lemma FrameForward(dts: int, f: TimeBase)
    ensures RescaleQ(RescaleQ(dts, MICROSECONDS, f) + 1, f, MICROSECONDS) >= dts
  {
    var up, down := Mul(f.num, MICROSECONDS.den), Mul(MICROSECONDS.num, f.den);
    var n := RescaleQ(dts, MICROSECONDS, f);
    var m := RescaleQ(n + 1, f, MICROSECONDS);
    RescaleNearest(dts, down, up);
    RescaleNearest(n + 1, up, down);
    NextFrame(dts, n, m, up, down);
  }

  lemma NextFrame(dts: int, n: int, m: int, up: int, down: int)
    requires up > 0 && down > 0
    requires 2 * dts * down - up <= 2 * n * up
    requires 2 * (n + 1) * up - down <= 2 * m * down
    ensures m >= dts
  {
    assert 2 * (n + 1) * up == 2 * n * up + 2 * up;
    assert (2 * dts - 2) * down == 2 * dts * down - 2 * down;
    if m < dts { MulAtMost(2 * m, 2 * dts - 2, down); }
  }

  lemma MulAtMost(a: int, b: int, m: int)
    requires a <= b && m > 0
    ensures a * m <= b * m
  {
    assert (b - a) * m >= 0;
  }

  /** Farther than a threshold in seconds, or more than 0.1 s before the dts of the packet before. */
  predicate Astray(us: int, expected: int, threshold: real, tr: Track) {
    || (us - expected) as real > threshold * 1000000.0 || (expected - us) as real > threshold * 1000000.0
    || us + 100000 < tr.dts
  }

  /**
   * Repair of one packet of a microsecond stream: the offset is changed exactly for a packet that is astray of its
   * prediction (for a new stream: far from the last timestamp), which is then put on it; all stamps move with it.
   */
  ghost predicate Repaired(cfg: Config, before: World, r: Read, ck: Clock, p: Stamps)
    requires r.stream < |before.tracks| && r.raw.dts.At?
  {
    var tr := before.tracks[r.stream];
    var us := r.raw.dts.v + before.clock.offset;
    var last := before.clock.lastTs;
    && p == r.raw.Shift(ck.offset)
    && (tr.nextDts.At? ==>
          if Astray(us, tr.nextDts.v, cfg.deltaThreshold, tr) then p.dts.v == tr.nextDts.v
          else ck.offset == before.clock.offset)
    && (tr.nextDts.NoPts? && last.At? ==>
          if Astray(us, last.v, cfg.deltaThreshold, tr.(dts := us)) then p.dts.v == last.v
          else ck.offset == before.clock.offset)
    && (tr.nextDts.NoPts? && last.NoPts? ==> ck.offset == before.clock.offset)
  }

  /** A repaired packet is within the threshold of what was expected and at most 0.1 s below the dts before it. */
  lemma RepairedIsNear(cfg: Config, before: World, r: Read, ck: Clock, p: Stamps)
    requires r.stream < |before.tracks| && r.raw.dts.At? && cfg.deltaThreshold >= 0.0
    requires Forward(before.tracks[r.stream])
    requires Repaired(cfg, before, r, ck, p)
    ensures p.dts.At?
    ensures var tr := before.tracks[r.stream];
            tr.nextDts.At? ==>
              && Abs(p.dts.v - tr.nextDts.v) as real <= cfg.deltaThreshold * 1000000.0
              && p.dts.v + 100000 >= tr.dts
    ensures before.tracks[r.stream].nextDts.NoPts? && before.clock.lastTs.At? ==>
              Abs(p.dts.v - before.clock.lastTs.v) as real <= cfg.deltaThreshold * 1000000.0
  {
  }

  lemma ProcessRepairs(cfg: Config, st: Stream, w: World, r: Read)
    requires cfg.discont && !cfg.copyTs && cfg.deltaThreshold >= 0.0
    requires st.Timed() && st.timeBase == MICROSECONDS
    requires r.stream < |w.tracks| && r.raw.dts.At? && Forward(w.tracks[r.stream])
    ensures var (ck, p) := Process(cfg, st, w.clock, w.tracks[r.stream], r.raw);
            Repaired(cfg, w, r, ck, p)
  {
    var tr := w.tracks[r.stream];
    RescaleIdentity(w.clock.offset, MICROSECONDS);
    var dts := r.raw.dts.v + w.clock.offset;
    RescaleIdentity(dts, MICROSECONDS);
    RescaleIdentity(Jump(cfg, st, w.clock, tr, dts), MICROSECONDS);
  }

  /** The clock wraps after 2^wrapBits; what a wrap explains ten times better than a jump is taken for a wrap. */
  predicate WrapExplains(st: Stream, us: int, expected: int) {
    st.wrapBits < 60 && Abs(us + Pow2(st.wrapBits) - expected) < Abs(us - expected) / 10
  }

  /** With copied timestamps a packet is put on its prediction only when it is astray and a wrap explains it. */
  lemma CopiedJump(cfg: Config, st: Stream, w: World, r: Read)
    requires cfg.discont && cfg.copyTs && st.Timed() && st.timeBase == MICROSECONDS
    requires r.stream < |w.tracks| && r.raw.dts.At?
    ensures var (ck, p) := Process(cfg, st, w.clock, w.tracks[r.stream], r.raw);
            var tr, us := w.tracks[r.stream], r.raw.dts.v + w.clock.offset;
            && p == r.raw.Shift(ck.offset)
            && if tr.nextDts.At? && Astray(us, tr.nextDts.v, cfg.deltaThreshold, tr)
                  && WrapExplains(st, us, tr.nextDts.v)
               then p.dts.v == tr.nextDts.v else ck.offset == w.clock.offset
  {
    var tr := w.tracks[r.stream];
    RescaleIdentity(w.clock.offset, MICROSECONDS);
    var dts := r.raw.dts.v + w.clock.offset;
    RescaleIdentity(dts, MICROSECONDS);
    RescaleIdentity(dts + Pow2(st.wrapBits), MICROSECONDS);
    RescaleIdentity(Jump(cfg, st, w.clock, tr, dts), MICROSECONDS);
  }

  /** A timestamp that lies in microseconds farther from `expected` than a threshold in seconds. */
  predicate Wild(v: int, tb: TimeBase, expected: int, threshold: real) {
    var us := RescaleQ(v, tb, MICROSECONDS);
    (us - expected) as real > threshold * 1000000.0 || (expected - us) as real > threshold * 1000000.0
  }

  /**
   * In formats without discontinuities the offset never changes, and of each packet exactly those stamps are dropped
   * that are wild against the prediction; with copied timestamps none are.
   */
  lemma WildIsDropped(cfg: Config, st: Stream, ck: Clock, tr: Track, p: Stamps)
    requires !cfg.discont && st.Timed() && p.dts.At?
    ensures var (c, q) := Process(cfg, st, ck, tr, p);
            var moved := p.Shift(RescaleQ(ck.offset, MICROSECONDS, st.timeBase));
            && c.offset == ck.offset && q.duration == p.duration
            && q.dts == (if !cfg.copyTs && tr.nextDts.At?
                            && Wild(moved.dts.v, st.timeBase, tr.nextDts.v, cfg.errorThreshold)
                         then NoPts else moved.dts)
            && q.pts == (if !cfg.copyTs && tr.nextDts.At? && moved.pts.At?
                            && Wild(moved.pts.v, st.timeBase, tr.nextDts.v, cfg.errorThreshold)
                         then NoPts else moved.pts)
  {
    RescaleExact(0, Mul(MICROSECONDS.num, st.timeBase.den), Mul(st.timeBase.num, MICROSECONDS.den), 0);
  }

  /** Other streams, and packets without dts, only get the accumulated offset. */
  lemma OthersAreShifted(cfg: Config, st: Stream, ck: Clock, tr: Track, p: Stamps)
    requires !st.Timed() || p.dts.NoPts?
    ensures Process(cfg, st, ck, tr, p) == (ck, p.Shift(RescaleQ(ck.offset, MICROSECONDS, st.timeBase)))
  {
  }

  lemma PowDoubles(n: nat)
    ensures Pow2(0) == 1 && Pow2(n + 1) == 2 * Pow2(n)
  {
  }

  /** d is at most half a tick of the time base and one more, in microseconds: the slack that rounding leaves. */
  predicate Slack(d: int, tb: TimeBase) {
    2 * (Abs(d) - 1) * tb.den <= tb.num * AV_TIME_BASE
  }

  /** Moving a timestamp by `delta` microseconds moves its value in microseconds by as much, up to the slack. */
  lemma MoveRounds(x: int, delta: int, tb: TimeBase)
    ensures var y := x - RescaleQ(delta, MICROSECONDS, tb);
            Slack(RescaleQ(y, tb, MICROSECONDS) - (RescaleQ(x, tb, MICROSECONDS) - delta), tb)
  {
    var up, down := Mul(tb.num, MICROSECONDS.den), Mul(MICROSECONDS.num, tb.den);
    var q := RescaleQ(delta, MICROSECONDS, tb);
    RescaleNearest(x, up, down);
    RescaleNearest(delta, down, up);
    RescaleNearest(x - q, up, down);
    RoundTwice(x, delta, q, RescaleQ(x, tb, MICROSECONDS), RescaleQ(x - q, tb, MICROSECONDS), up, down);
    assert up == tb.num * AV_TIME_BASE && down == tb.den;
  }

  lemma RoundTwice(x: int, delta: int, q: int, us: int, z: int, up: int, down: int)
    requires up > 0 && down > 0
    requires 2 * x * up - down <= 2 * us * down <= 2 * x * up + down
    requires 2 * delta * down - up <= 2 * q * up <= 2 * delta * down + up
    requires 2 * (x - q) * up - down <= 2 * z * down <= 2 * (x - q) * up + down
    ensures 2 * (Abs(z - (us - delta)) - 1) * down <= up
  {
    assert 2 * (x - q) * up == 2 * x * up - 2 * q * up;
    var d := z - (us - delta);
    assert 2 * d * down == 2 * z * down - 2 * us * down + 2 * delta * down;
    assert 2 * (d - 1) * down == 2 * d * down - 2 * down;
    assert 2 * (-d - 1) * down == -(2 * d * down) - 2 * down;
  }

  /** Rescaling a sum and adding up the rescaled parts differ by at most one tick. */
  lemma PartsRound(o: int, delta: int, tb: TimeBase)
    ensures var sum := RescaleQ(o, MICROSECONDS, tb) - RescaleQ(delta, MICROSECONDS, tb);
            -1 <= sum - RescaleQ(o - delta, MICROSECONDS, tb) <= 1
  {
    var up, down := Mul(tb.num, MICROSECONDS.den), Mul(MICROSECONDS.num, tb.den);
    RescaleNearest(o, down, up);
    RescaleNearest(delta, down, up);
    RescaleNearest(o - delta, down, up);
    ThreeRoundings(o, delta, RescaleQ(o, MICROSECONDS, tb), RescaleQ(delta, MICROSECONDS, tb),
                   RescaleQ(o - delta, MICROSECONDS, tb), up, down);
  }

  lemma ThreeRoundings(o: int, delta: int, a: int, b: int, c: int, up: int, down: int)
    requires up > 0 && down > 0
    requires 2 * o * down - up <= 2 * a * up <= 2 * o * down + up
    requires 2 * delta * down - up <= 2 * b * up <= 2 * delta * down + up
    requires 2 * (o - delta) * down - up <= 2 * c * up <= 2 * (o - delta) * down + up
    ensures -1 <= a - b - c <= 1
  {
    assert 2 * (o - delta) * down == 2 * o * down - 2 * delta * down;
    var e := 2 * (a - b - c);
    assert e * up == 2 * a * up - 2 * b * up - 2 * c * up;
    if e > 3 { MulStrict(3, e, up); }
    if e < -3 { MulStrict(e, -3, up); }
  }

  /** Two timestamps are both missing or at most one tick apart. */
  predicate OneTick(a: Ts, b: Ts) { if a.At? && b.At? then -1 <= a.v - b.v <= 1 else a.NoPts? && b.NoPts? }

  /** Two times in microseconds that differ by at most a threshold in seconds. */
  predicate NotFar(us: int, expected: int, threshold: real) {
    (us - expected) as real <= threshold * 1000000.0 && (expected - us) as real <= threshold * 1000000.0
  }

  /** Repair of one packet of a stream with any time base, up to rounding. */
  ghost predicate RepairedUpTo(cfg: Config, tb: TimeBase, before: World, r: Read, ck: Clock, p: Stamps)
    requires r.stream < |before.tracks| && r.raw.dts.At?
  {
    var tr := before.tracks[r.stream];
    var q := r.raw.Shift(RescaleQ(ck.offset, MICROSECONDS, tb));
    && p.dts.At? && OneTick(p.dts, q.dts) && OneTick(p.pts, q.pts) && p.duration == r.raw.duration
    && var us := RescaleQ(p.dts.v, tb, MICROSECONDS);
       && (tr.nextDts.At? ==>
             && (NotFar(us, tr.nextDts.v, cfg.deltaThreshold) || Slack(us - tr.nextDts.v, tb))
             && (us + 100000 >= tr.dts || us >= tr.dts || Slack(us - tr.dts, tb)))
       && (tr.nextDts.NoPts? && before.clock.lastTs.At? ==>
             NotFar(us, before.clock.lastTs.v, cfg.deltaThreshold) || Slack(us - before.clock.lastTs.v, tb))
  }

  lemma ProcessRepairsUpTo(cfg: Config, st: Stream, w: World, r: Read)
    requires cfg.discont && !cfg.copyTs && cfg.deltaThreshold >= 0.0 && st.Timed()
    requires r.stream < |w.tracks| && r.raw.dts.At? && Forward(w.tracks[r.stream])
    ensures var (ck, p) := Process(cfg, st, w.clock, w.tracks[r.stream], r.raw);
            RepairedUpTo(cfg, st.timeBase, w, r, ck, p)
  {
    var tr, tb := w.tracks[r.stream], st.timeBase;
    var dts := r.raw.dts.v + RescaleQ(w.clock.offset, MICROSECONDS, tb);
    var jump := Jump(cfg, st, w.clock, tr, dts);
    MoveRounds(dts, jump, tb);
    PartsRound(w.clock.offset, jump, tb);
    RescaleExact(0, Mul(MICROSECONDS.num, tb.den), Mul(tb.num, MICROSECONDS.den), 0);
    SlackBelow(RescaleQ(dts - RescaleQ(jump, MICROSECONDS, tb), tb, MICROSECONDS), tr, tb);
  }

  /** A value within the slack of the prediction is within the slack of the dts before it, or above that. */
  lemma SlackBelow(us: int, tr: Track, tb: TimeBase)
    requires Forward(tr)
    ensures tr.nextDts.At? && Slack(us - tr.nextDts.v, tb) ==> us >= tr.dts || Slack(us - tr.dts, tb)
  {
    if tr.nextDts.At? && us < tr.dts {
      MulAtMost(2 * (Abs(us - tr.dts) - 1), 2 * (Abs(us - tr.nextDts.v) - 1), tb.den);
    }
  }

  /**
   * The same over the whole run for streams of any time base: the offset is exact to a tick, the prediction is met
   * within the threshold and the dts falls by at most 0.1 s, each up to half a tick and a microsecond of rounding.
   */
  lemma EveryDtsIsRepairedUpTo(cfg: Config, sts: seq<Stream>, w: World, rs: seq<Read>, k: nat)
    requires |w.tracks| == |sts| && forall r :: r in rs ==> r.stream < |sts| && r.raw.duration >= 0
    requires forall i :: 0 <= i < |sts| ==> Forward(w.tracks[i])
    requires cfg.discont && !cfg.copyTs && cfg.deltaThreshold >= 0.0
    requires k < |rs| && rs[k].raw.dts.At? && sts[rs[k].stream].Timed()
    ensures var v := After(cfg, sts, w, rs[..k]);
            var (ck, p) := Process(cfg, sts[rs[k].stream], v.clock, v.tracks[rs[k].stream], rs[k].raw);
            && RepairedUpTo(cfg, sts[rs[k].stream].timeBase, v, rs[k], ck, p)
            && After(cfg, sts, w, rs[..k + 1]).clock == ck
  {
    TracksForward(cfg, sts, w, rs[..k]);
    ProcessRepairsUpTo(cfg, sts[rs[k].stream], After(cfg, sts, w, rs[..k]), rs[k]);
    assert rs[..k + 1][..k] == rs[..k];
  }

  /** In a format without discontinuities the last timestamp, sentinel or not, is never looked at. */
  lemma LastTsIsUnread(cfg: Config, st: Stream, ck: Clock, other: Ts, tr: Track, p: Stamps)
    requires !cfg.discont
    ensures var (a, q) := Process(cfg, st, ck, tr, p);
            var (b, r) := Process(cfg, st, ck.(lastTs := other), tr, p);
            q == r && a.offset == b.offset == ck.offset
  {
  }

  lemma UpdateForward(st: Stream, tr: Track, p: Stamps)
    requires p.duration >= 0
    ensures Forward(Update(st, tr, p))
  {
    var u := Update(st, tr, p);
    PredictForward(st, u.dts, p.duration);
  }

  lemma ProcessKeepsDuration(cfg: Config, st: Stream, ck: Clock, tr: Track, p: Stamps)
    ensures Process(cfg, st, ck, tr, p).1.duration == p.duration
  {
  }

  lemma {:induction false} TracksForward(cfg: Config, sts: seq<Stream>, w: World, rs: seq<Read>)
    requires |w.tracks| == |sts| && forall r :: r in rs ==> r.stream < |sts| && r.raw.duration >= 0
    requires forall i :: 0 <= i < |sts| ==> Forward(w.tracks[i])
    ensures forall i :: 0 <= i < |sts| ==> Forward(After(cfg, sts, w, rs).tracks[i])
  {
    if rs != [] {
      var v := After(cfg, sts, w, rs[..|rs| - 1]);
      TracksForward(cfg, sts, w, rs[..|rs| - 1]);
      var r := rs[|rs| - 1];
      var (ck, p) := Process(cfg, sts[r.stream], v.clock, v.tracks[r.stream], r.raw);
      ProcessKeepsDuration(cfg, sts[r.stream], v.clock, v.tracks[r.stream], r.raw);
      UpdateForward(sts[r.stream], v.tracks[r.stream], p);
    }
  }

  /**
   * Over the whole run of a discontinuous format, whatever the other streams do: each packet with a dts on a
   * microsecond audio or video stream leaves with exactly the accumulated offset added, within the threshold of its
   * predicted dts, and at most 0.1 s below the previous dts of its stream.
   */
  lemma EveryDtsIsRepaired(cfg: Config, sts: seq<Stream>, w: World, rs: seq<Read>, k: nat)
    requires |w.tracks| == |sts| && forall r :: r in rs ==> r.stream < |sts| && r.raw.duration >= 0
    requires forall i :: 0 <= i < |sts| ==> Forward(w.tracks[i])
    requires cfg.discont && !cfg.copyTs && cfg.deltaThreshold >= 0.0
    requires k < |rs| && rs[k].raw.dts.At?
    requires sts[rs[k].stream].Timed() && sts[rs[k].stream].timeBase == MICROSECONDS
    ensures var v := After(cfg, sts, w, rs[..k]);
            var (ck, p) := Process(cfg, sts[rs[k].stream], v.clock, v.tracks[rs[k].stream], rs[k].raw);
            && Repaired(cfg, v, rs[k], ck, p) && After(cfg, sts, w, rs[..k + 1]).clock == ck
            && (v.tracks[rs[k].stream].nextDts.At? ==> OnTrack(cfg, v.tracks[rs[k].stream], p))
  {
    hide Process, After, Repaired;
    TracksForward(cfg, sts, w, rs[..k]);
    RunRepairs(cfg, sts[rs[k].stream], After(cfg, sts, w, rs[..k]), rs[k]);
    AfterNext(cfg, sts, w, rs, k);
  }

  /** The dts is within the threshold of the prediction and at most 0.1 s below the dts before it. */
  predicate OnTrack(cfg: Config, tr: Track, p: Stamps)
    requires tr.nextDts.At?
  {
    p.dts.At? && Abs(p.dts.v - tr.nextDts.v) as real <= cfg.deltaThreshold * 1000000.0 && p.dts.v + 100000 >= tr.dts
  }

  lemma RunRepairs(cfg: Config, st: Stream, v: World, r: Read)
    requires cfg.discont && !cfg.copyTs && cfg.deltaThreshold >= 0.0 && st.Timed() && st.timeBase == MICROSECONDS
    requires r.stream < |v.tracks| && r.raw.dts.At? && Forward(v.tracks[r.stream])
    ensures var (ck, p) := Process(cfg, st, v.clock, v.tracks[r.stream], r.raw);
            && Repaired(cfg, v, r, ck, p)
            && (v.tracks[r.stream].nextDts.At? ==> OnTrack(cfg, v.tracks[r.stream], p))
  {
    hide Process, Repaired;
    ProcessRepairs(cfg, st, v, r);
    var (ck, p) := Process(cfg, st, v.clock, v.tracks[r.stream], r.raw);
    RepairedIsNear(cfg, v, r, ck, p);
  }

  lemma AfterNext(cfg: Config, sts: seq<Stream>, w: World, rs: seq<Read>, k: nat)
    requires |w.tracks| == |sts| && (forall r :: r in rs ==> r.stream < |sts|) && k < |rs|
    ensures var v := After(cfg, sts, w, rs[..k]);
            After(cfg, sts, w, rs[..k + 1]).clock
            == Process(cfg, sts[rs[k].stream], v.clock, v.tracks[rs[k].stream], rs[k].raw).0
  {
    assert rs[..k + 1][..k] == rs[..k];
  }

  // ---------- whole runs: looping ----------

  /** One pass over the file's packets. */
  function Pass(e: Extent, audio: bool, ps: seq<Stamps>, tb: TimeBase): Extent {
    if ps == [] then e else Loop(Pass(e, audio, ps[..|ps| - 1], tb), audio, ps[|ps| - 1], tb).0
  }

  /** The extent when pass k starts, with no decoded audio reporting its own end. */
  function AtPass(k: nat, ps: seq<Stamps>, tb: TimeBase): Extent {
    if k == 0 then NO_EXTENT else Seek(Pass(AtPass(k - 1, ps, tb), false, ps, tb), Unset)
  }

  /** lo is the smallest pts and hi the largest packet end of the file. */
  ghost predicate Spans(ps: seq<Stamps>, lo: int, hi: int) {
    && (forall p :: p in ps && p.pts.At? ==> lo <= p.pts.v && p.pts.v + p.duration <= hi)
    && (exists p :: p in ps && p.pts.At? && p.pts.v == lo)
    && (exists p :: p in ps && p.pts.At? && p.pts.v + p.duration == hi)
  }

  /** An extent kept in one time base. */
  predicate InBase(e: Extent, tb: TimeBase) {
    && (e.min.Bound? ==> e.min.tb == tb) && (e.max.Bound? ==> e.max.tb == tb)
    && (e.min.Bound? <==> e.max.Bound?) && (e.tb == tb || e.duration == 0)
  }

  function Least(b: Bound, v: int): int { if b.Unset? then v else Min(b.ts, v) }

  function Greatest(b: Bound, v: int): int { if b.Unset? then v else Max(b.ts, v) }

  lemma ShiftInBase(e: Extent, tb: TimeBase)
    requires InBase(e, tb)
    ensures LoopShift(e, tb) == e.duration
  {
    if e.tb == tb {
      RescaleIdentity(e.duration, tb);
    } else {
      RescaleExact(0, Mul(e.tb.num, tb.den), Mul(tb.num, e.tb.den), 0);
    }
  }

  lemma LoopInBase(e: Extent, p: Stamps, tb: TimeBase)
    requires InBase(e, tb)
    ensures var f := Loop(e, false, p, tb).0;
            && InBase(f, tb) && f.duration == e.duration && f.tb == e.tb
            && Loop(e, false, p, tb).1 == p.Shift(e.duration)
            && if p.pts.NoPts? then f == e
               else f.min == Bound(Least(e.min, p.pts.v + e.duration), tb)
                    && f.max == Bound(Greatest(e.max, p.pts.v + p.duration + e.duration), tb)
  {
    ShiftInBase(e, tb);
    if p.pts.At? {
      if e.max.Bound? { CompareSameBase(e.max.ts, p.pts.v + e.duration + p.duration, tb); }
      if e.min.Bound? { CompareSameBase(e.min.ts, p.pts.v + e.duration, tb); }
    }
  }

  /** A pass that has seen packets spanning lo..hi widens the extent by that span, shifted. */
  lemma {:induction false} PassExtent(e: Extent, ps: seq<Stamps>, tb: TimeBase)
    requires InBase(e, tb)
    ensures var f := Pass(e, false, ps, tb);
            && InBase(f, tb) && f.duration == e.duration && f.tb == e.tb
            && (forall p :: p in ps && p.pts.At? ==>
                  f.min.Bound? && f.min.ts <= p.pts.v + e.duration && p.pts.v + p.duration + e.duration <= f.max.ts)
            && (e.min.Bound? ==> f.min.Bound? && f.min.ts <= e.min.ts && e.max.ts <= f.max.ts)
            && (f.min.Bound? ==> f.min == e.min || exists p :: p in ps && p.pts.At? && f.min.ts == p.pts.v + e.duration)
            && (f.max.Bound? ==>
                  f.max == e.max || exists p :: p in ps && p.pts.At? && f.max.ts == p.pts.v + p.duration + e.duration)
  {
    if ps != [] {
      var n := |ps| - 1;
      PassExtent(e, ps[..n], tb);
      LoopInBase(Pass(e, false, ps[..n], tb), ps[n], tb);
      assert ps == ps[..n] + [ps[n]];
    }
  }

  lemma PassMinMax(e: Extent, ps: seq<Stamps>, tb: TimeBase, lo: int, hi: int)
    requires Spans(ps, lo, hi) && InBase(e, tb)
    ensures var f := Pass(e, false, ps, tb);
            && f.min == Bound(Least(e.min, lo + e.duration), tb) && f.max == Bound(Greatest(e.max, hi + e.duration), tb)
            && f.duration == e.duration && f.tb == e.tb
  {
    PassExtent(e, ps, tb);
    var p :| p in ps && p.pts.At? && p.pts.v == lo;
    var q :| q in ps && q.pts.At? && q.pts.v + q.duration == hi;
  }

  lemma {:induction false} PassCount(k: nat, ps: seq<Stamps>, tb: TimeBase, lo: int, hi: int)
    requires Spans(ps, lo, hi) && lo <= hi
    ensures var e := AtPass(k, ps, tb);
            && InBase(e, tb) && e.duration == k * (hi - lo)
            && (k > 0 ==> e.min == Bound(lo, tb) && e.max == Bound(hi + (k - 1) * (hi - lo), tb))
  {
    if k > 0 {
      PassCount(k - 1, ps, tb, lo, hi);
      PassMinMax(AtPass(k - 1, ps, tb), ps, tb, lo, hi);
      RescaleIdentity(lo, tb);
      Grow(k - 1, hi - lo);
      if k > 1 { Grow(k - 2, hi - lo); }
    }
  }

  lemma Grow(n: nat, step: int)
    requires step >= 0
    ensures 0 <= n * step && (n + 1) * step == n * step + step
  {
  }

  /**
   * Re-reading the same packets, pass k leaves every packet shifted by exactly k times the length of the file:
   * it starts where pass k - 1 ended and ends where pass k + 1 starts.
   */
  lemma SeamlessLoop(k: nat, ps: seq<Stamps>, tb: TimeBase, lo: int, hi: int)
    requires Spans(ps, lo, hi) && lo <= hi
    ensures forall j :: 0 <= j < |ps| ==>
              Loop(Pass(AtPass(k, ps, tb), false, ps[..j], tb), false, ps[j], tb).1 == ps[j].Shift(k * (hi - lo))
    ensures Spans(seq(|ps|, j requires 0 <= j < |ps| => ps[j].Shift(k * (hi - lo))),
                  lo + k * (hi - lo), lo + (k + 1) * (hi - lo))
  {
    hide Pass, AtPass, Loop, Spans;
    PassCount(k, ps, tb, lo, hi);
    forall j | 0 <= j < |ps|
      ensures Loop(Pass(AtPass(k, ps, tb), false, ps[..j], tb), false, ps[j], tb).1 == ps[j].Shift(k * (hi - lo))
    {
      PacketIsShifted(AtPass(k, ps, tb), ps, tb, j);
    }
    assert (k + 1) * (hi - lo) == k * (hi - lo) + (hi - lo);
    ShiftedSpan(ps, lo, hi, k * (hi - lo));
  }

  lemma PacketIsShifted(e: Extent, ps: seq<Stamps>, tb: TimeBase, j: nat)
    requires InBase(e, tb) && j < |ps|
    ensures Loop(Pass(e, false, ps[..j], tb), false, ps[j], tb).1 == ps[j].Shift(e.duration)
  {
    PassExtent(e, ps[..j], tb);
    LoopInBase(Pass(e, false, ps[..j], tb), ps[j], tb);
  }

  lemma ShiftedSpan(ps: seq<Stamps>, lo: int, hi: int, d: int)
    requires Spans(ps, lo, hi)
    ensures Spans(seq(|ps|, j requires 0 <= j < |ps| => ps[j].Shift(d)), lo + d, hi + d)
  {
    var qs := seq(|ps|, j requires 0 <= j < |ps| => ps[j].Shift(d));
    forall q | q in qs && q.pts.At? ensures lo + d <= q.pts.v && q.pts.v + q.duration <= hi + d {
      var j :| 0 <= j < |qs| && qs[j] == q;
      assert ps[j] in ps;
    }
    var i :| 0 <= i < |ps| && ps[i].pts.At? && ps[i].pts.v == lo;
    assert qs[i] in qs;
    var j :| 0 <= j < |ps| && ps[j].pts.At? && ps[j].pts.v + ps[j].duration == hi;
    assert qs[j] in qs;
  }

  // ---------- looping with decoded audio, wrap correction and scale ----------

  /** With an audio decoder packets widen the extent by their pts alone. */
  lemma AudioLoop(e: Extent, p: Stamps, tb: TimeBase)
    requires InBase(e, tb)
    ensures var (f, q) := Loop(e, true, p, tb);
            && q == p.Shift(e.duration) && f.duration == e.duration
            && if p.pts.NoPts? then f == e
               else f.min == Bound(Least(e.min, p.pts.v + e.duration), tb)
                    && f.max == Bound(Greatest(e.max, p.pts.v + e.duration), tb)
  {
    ShiftInBase(e, tb);
    if p.pts.At? {
      if e.max.Bound? { CompareSameBase(e.max.ts, p.pts.v + e.duration, tb); }
      if e.min.Bound? { CompareSameBase(e.min.ts, p.pts.v + e.duration, tb); }
    }
  }

  /** The looped segment reaches from the smallest pts to the later one of the largest end and the end of audio. */
  lemma SeekSpans(e: Extent, end: Bound, tb: TimeBase)
    requires InBase(e, tb) && (end.Bound? ==> end.tb == tb)
    ensures var f := Seek(e, end);
            && f.min == e.min
            && (e.max.Unset? && end.Unset? ==> f.duration == e.duration && f.max.Unset?)
            && (e.max.Bound? || end.Bound? ==>
                  && f.tb == tb && f.max.Bound?
                  && f.max.ts == (if end.Unset? then e.max.ts else Greatest(e.max, end.ts))
                  && f.duration == f.max.ts - (if e.min.Unset? then 0 else e.min.ts))
  {
    if e.max.Bound? && end.Bound? { CompareSameBase(e.max.ts, end.ts, tb); }
    if e.min.Bound? { RescaleIdentity(e.min.ts, tb); }
  }

  /** Any time bases: the widened extent still covers what it covered, and the new packet, in time. */
  lemma WidenCovers(e: Extent, pts: int, end: int, tb: TimeBase)
    ensures var f := Widen(e, pts, end, tb);
            && f.max.Bound? && f.min.Bound? && f.duration == e.duration && f.tb == e.tb
            && f.max in {e.max, Bound(end, tb)} && f.min in {e.min, Bound(pts, tb)}
            && end * tb.num * f.max.tb.den <= f.max.ts * f.max.tb.num * tb.den
            && pts * tb.num * f.min.tb.den >= f.min.ts * f.min.tb.num * tb.den
            && (e.max.Bound? ==> e.max.ts * e.max.tb.num * f.max.tb.den <= f.max.ts * f.max.tb.num * e.max.tb.den)
            && (e.min.Bound? ==> e.min.ts * e.min.tb.num * f.min.tb.den >= f.min.ts * f.min.tb.num * e.min.tb.den)
  {
    if e.max.Bound? { CompareIs(e.max.ts, e.max.tb, end, tb); }
    if e.min.Bound? { CompareIs(e.min.ts, e.min.tb, pts, tb); }
  }

  /** Wrap correction leaves a timestamp at most half a period past the start, and takes off one period otherwise. */
  lemma UnwrappedIs(v: int, start: int, bits: nat)
    requires bits > 0
    ensures var period := 2 * Pow2(bits - 1);
            && period == Pow2(bits)
            && Unwrapped(At(v), start, Pow2(bits)).At?
            && var u := Unwrapped(At(v), start, Pow2(bits)).v;
               if v <= start + Pow2(bits - 1) then u == v else u == v - period
  {
  }

  /** Scaling truncates toward zero, and by 1 it changes nothing. */
  lemma ScaledIs(v: int, scale: real)
    requires scale >= 0.0
    ensures Scaled(At(v), scale).At?
    ensures var u, x := Scaled(At(v), scale).v, v as real * scale;
            && (v >= 0 ==> u as real <= x < u as real + 1.0)
            && (v <= 0 ==> u as real - 1.0 < x <= u as real)
    ensures scale == 1.0 ==> Scaled(At(v), scale) == At(v)
    ensures Scaled(NoPts, scale) == NoPts
  {
    var x := v as real * scale;
    assert v >= 0 ==> x >= 0.0;
    assert v <= 0 ==> x <= 0.0;
  }
}

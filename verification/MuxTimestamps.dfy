/** The muxer's timestamp repair and the state it carries from packet to packet. */
module MuxTimestamps {
  import opened AvMath

  datatype MediaType = Video | Audio | Subtitle | Data | Attachment

  /** The output format flags (AVFMT_NOTIMESTAMPS, AVFMT_TS_NONSTRICT), the stream type and `-xerror`. */
  datatype Config = Config(noTimestamps: bool, nonStrict: bool, mediaType: MediaType, exitOnError: bool) {
    predicate GuardsDts() { mediaType.Audio? || mediaType.Video? || mediaType.Subtitle? }

    /** The setting of the closed form: a strict format, a guarded stream, repairs allowed. */
    predicate Strict() { !noTimestamps && !nonStrict && GuardsDts() && !exitOnError }
  }

  datatype Stamps = Stamps(pts: Ts, dts: Ts) {
    predicate Valid() { pts.At? && dts.At? }
  }

  /** When dts exceeds pts both become the middle one of pts, dts and the successor of the last dts. */
  function Guess(last: Ts, p: Stamps): Stamps {
    if p.Valid() && p.dts.v > p.pts.v then
      var lo, hi := p.pts.v - 1, p.dts.v - 1;
      var d := (if last.NoPts? then lo else Clip(last.v, lo, hi)) + 1;
      Stamps(At(d), At(d))
    else p
  }

  function Floor(cfg: Config, last: Ts): Ts {
    if last.NoPts? || !cfg.GuardsDts() then NoPts else At(last.v + if cfg.nonStrict then 0 else 1)
  }

  /** Raises a dts that lies below the floor, and the pts with it unless the pts lay below the dts. */
  function Raise(floor: Ts, p: Stamps): Stamps {
    if floor.NoPts? || p.dts.NoPts? || p.dts.v >= floor.v then p
    else Stamps(if p.pts.At? && p.pts.v >= p.dts.v then At(Max(p.pts.v, floor.v)) else p.pts, floor)
  }

  predicate NonMonotonic(cfg: Config, last: Ts, p: Stamps) {
    var floor := Floor(cfg, last);
    floor.At? && p.dts.At? && p.dts.v < floor.v
  }

  /** The repaired stamps of one packet when no error is raised. */
  function Repair(cfg: Config, last: Ts, p: Stamps): Stamps {
    if cfg.noTimestamps then p else Raise(Floor(cfg, last), Guess(last, p))
  }

  /** The one error: a non-monotonic dts under `exitOnError`. */
  predicate Refused(cfg: Config, last: Ts, p: Stamps) {
    !cfg.noTimestamps && cfg.exitOnError && NonMonotonic(cfg, last, Guess(last, p))
  }

  class Packet {
    var pts: Ts
    var dts: Ts
    var duration: int
    var timeBase: TimeBase

    function Stamp(): Stamps reads this { Stamps(pts, dts) }
  }

  class MuxStream {
    const cfg: Config
    const timeBase: TimeBase
    /** Streamcopied audio goes through av_rescale_delta at this sample rate. */
    const copiedAudio: bool
    const sampleRate: int
    var lastMuxDts: Ts
    var rescaleDeltaLast: Ts

    constructor (cfg: Config, timeBase: TimeBase, copiedAudio: bool, sampleRate: int)
      ensures this.cfg == cfg && this.timeBase == timeBase
      ensures this.copiedAudio == copiedAudio && this.sampleRate == sampleRate
      ensures lastMuxDts == NoPts && rescaleDeltaLast == NoPts
    {
      this.cfg, this.timeBase, this.copiedAudio, this.sampleRate := cfg, timeBase, copiedAudio, sampleRate;
      lastMuxDts, rescaleDeltaLast := NoPts, NoPts;
    }

    /** The stamps of `pkt` in the stream's time base; `frame` is the codec's frame duration in samples. */
    function Rescaled(pkt: Packet, frame: nat): Stamps
      requires copiedAudio ==> sampleRate > 0 && pkt.dts.At?
      reads this, pkt
    {
      if copiedAudio then
        var d := At(RescaleDelta(pkt.timeBase, pkt.dts.v, Rational(1, sampleRate), frame,
                                 rescaleDeltaLast, timeBase).0);
        Stamps(d, d)
      else Stamps(RescaleTs(pkt.pts, pkt.timeBase, timeBase), RescaleTs(pkt.dts, pkt.timeBase, timeBase))
    }

    /** What av_rescale_delta carries on to the next packet. */
    function DeltaLast(pkt: Packet, frame: nat): Ts
      requires copiedAudio ==> sampleRate > 0 && pkt.dts.At?
      reads this, pkt
    {
      if copiedAudio then
        RescaleDelta(pkt.timeBase, pkt.dts.v, Rational(1, sampleRate), frame, rescaleDeltaLast, timeBase).1
      else rescaleDeltaLast
    }

    method RescaleToStream(pkt: Packet, frame: nat)
      requires copiedAudio ==> sampleRate > 0 && pkt.dts.At?
      modifies `rescaleDeltaLast, pkt
      ensures pkt.Stamp() == old(Rescaled(pkt, frame)) && rescaleDeltaLast == old(DeltaLast(pkt, frame))
      ensures pkt.timeBase == timeBase && pkt.duration == RescaleQ(old(pkt.duration), old(pkt.timeBase), timeBase)
    {
      if copiedAudio {
        var r := RescaleDelta(pkt.timeBase, pkt.dts.v, Rational(1, sampleRate), frame, rescaleDeltaLast, timeBase);
        pkt.dts, rescaleDeltaLast := At(r.0), r.1;
        pkt.pts := pkt.dts;
      } else {
        pkt.pts := RescaleTs(pkt.pts, pkt.timeBase, timeBase);
        pkt.dts := RescaleTs(pkt.dts, pkt.timeBase, timeBase);
      }
      pkt.duration := RescaleQ(pkt.duration, pkt.timeBase, timeBase);
      pkt.timeBase := timeBase;
    }

    method FixupTs(pkt: Packet, frame: nat) returns (ok: bool)
      requires copiedAudio ==> sampleRate > 0 && pkt.dts.At?
      modifies this, pkt
      ensures ok == !Refused(cfg, old(lastMuxDts), old(Rescaled(pkt, frame)))
      ensures ok ==> pkt.Stamp() == Repair(cfg, old(lastMuxDts), old(Rescaled(pkt, frame)))
      ensures ok ==> lastMuxDts == pkt.dts
      ensures !ok ==> lastMuxDts == old(lastMuxDts)
                      && pkt.Stamp() == Guess(old(lastMuxDts), old(Rescaled(pkt, frame)))
      ensures rescaleDeltaLast == old(DeltaLast(pkt, frame))
      ensures pkt.timeBase == timeBase
      ensures pkt.duration == RescaleQ(old(pkt.duration), old(pkt.timeBase), timeBase)
    {
      RescaleToStream(pkt, frame);
      if !cfg.noTimestamps {
        if pkt.dts.At? && pkt.pts.At? && pkt.dts.v > pkt.pts.v {
          // AV_NOPTS_VALUE is INT64_MIN, below every lower clipping bound
          var c := if lastMuxDts.NoPts? then pkt.pts.v - 1 else Clip(lastMuxDts.v, pkt.pts.v - 1, pkt.dts.v - 1);
          pkt.pts, pkt.dts := At(c + 1), At(c + 1);
        }
        if cfg.GuardsDts() && pkt.dts.At? && lastMuxDts.At? {
          var max := lastMuxDts.v + if cfg.nonStrict then 0 else 1;
          if pkt.dts.v < max {
            if cfg.exitOnError { return false; }
            if pkt.pts.At? && pkt.pts.v >= pkt.dts.v { pkt.pts := At(Max(pkt.pts.v, max)); }
            pkt.dts := At(max);
          }
        }
      }
      lastMuxDts := pkt.dts;
      return true;
    }
  }

  // ---------- whole runs ----------

  function LastDts(last: Ts, out: seq<Stamps>): Ts {
    if out == [] then last else out[|out| - 1].dts
  }

  /** The stamps written for a run of packets, each repaired against the dts written just before it. */
  function Written(cfg: Config, last: Ts, ps: seq<Stamps>): (out: seq<Stamps>)
    ensures |out| == |ps|
  {
    if ps == [] then []
    else
      var out := Written(cfg, last, ps[..|ps| - 1]);
      out + [Repair(cfg, LastDts(last, out), ps[|ps| - 1])]
  }

  ghost predicate AllValid(ps: seq<Stamps>) { forall i :: 0 <= i < |ps| ==> ps[i].Valid() }

  /** The earlier one of the two stamps. */
  function Earlier(p: Stamps): int
    requires p.Valid()
  {
    Min(p.pts.v, p.dts.v)
  }

  /** d is the greatest of Earlier(ps[j]) + (k - j) over j <= k. */
  ghost predicate IsPeak(ps: seq<Stamps>, k: int, d: int)
    requires AllValid(ps) && 0 <= k < |ps|
  {
    && (forall j :: 0 <= j <= k ==> Earlier(ps[j]) + (k - j) <= d)
    && (exists j :: 0 <= j <= k && Earlier(ps[j]) + (k - j) == d)
  }

  /** Prefixes of the input give prefixes of the output. */
  lemma {:induction false} WrittenPrefix(cfg: Config, last: Ts, ps: seq<Stamps>, n: nat)
    requires n <= |ps|
    ensures Written(cfg, last, ps)[..n] == Written(cfg, last, ps[..n])
  {
    if n == |ps| {
      assert ps[..n] == ps;
    } else {
      WrittenPrefix(cfg, last, ps[..|ps| - 1], n);
      assert ps[..|ps| - 1][..n] == ps[..n];
    }
  }

  lemma WrittenAt(cfg: Config, last: Ts, ps: seq<Stamps>, k: nat)
    requires k < |ps|
    ensures Written(cfg, last, ps)[k]
            == Repair(cfg, if k == 0 then last else Written(cfg, last, ps)[k - 1].dts, ps[k])
  {
    WrittenPrefix(cfg, last, ps, k + 1);
    WrittenPrefix(cfg, last, ps, k);
    var q := ps[..k + 1];
    assert q[..k] == ps[..k];
    assert Written(cfg, last, ps)[k] == Written(cfg, last, q)[k];
    if k > 0 { assert Written(cfg, last, ps)[k - 1] == Written(cfg, last, ps)[..k][k - 1]; }
  }

  lemma RepairStep(cfg: Config, last: Ts, p: Stamps)
    requires cfg.Strict() && p.Valid()
    ensures Repair(cfg, last, p).dts == At(if last.NoPts? then Earlier(p) else Max(Earlier(p), last.v + 1))
    ensures Repair(cfg, last, p).pts == At(Max(p.pts.v, Repair(cfg, last, p).dts.v))
  {
  }

  /** The closed form of the muxer's output: the k-th dts is the peak, the k-th pts is lifted to it. */
  lemma {:induction false} ClosedForm(cfg: Config, ps: seq<Stamps>, k: nat)
    requires cfg.Strict() && AllValid(ps) && k < |ps|
    ensures Written(cfg, NoPts, ps)[k].Valid()
    ensures IsPeak(ps, k, Written(cfg, NoPts, ps)[k].dts.v)
    ensures Written(cfg, NoPts, ps)[k].pts.v == Max(ps[k].pts.v, Written(cfg, NoPts, ps)[k].dts.v)
  {
    WrittenAt(cfg, NoPts, ps, k);
    if k == 0 {
      RepairStep(cfg, NoPts, ps[0]);
    } else {
      ClosedForm(cfg, ps, k - 1);
      var d := Written(cfg, NoPts, ps)[k - 1].dts;
      RepairStep(cfg, d, ps[k]);
      var j :| 0 <= j <= k - 1 && Earlier(ps[j]) + (k - 1 - j) == d.v;
      assert Earlier(ps[j]) + (k - j) == d.v + 1;
      var e := Max(Earlier(ps[k]), d.v + 1);
      assert Earlier(ps[k]) + (k - k) <= e;
      if e == d.v + 1 { assert Earlier(ps[j]) + (k - j) == e; } else { assert Earlier(ps[k]) + (k - k) == e; }
    }
  }

  /** A stream a strict muxer accepts unchanged. */
  ghost predicate Clean(out: seq<Stamps>) {
    && AllValid(out)
    && (forall k :: 0 <= k < |out| ==> out[k].dts.v <= out[k].pts.v)
    && (forall k :: 0 < k < |out| ==> out[k - 1].dts.v < out[k].dts.v)
  }

  /** Every strict run writes strictly increasing dts, each at most its pts. */
  lemma WrittenIsClean(cfg: Config, ps: seq<Stamps>)
    requires cfg.Strict() && AllValid(ps)
    ensures Clean(Written(cfg, NoPts, ps))
  {
    var out := Written(cfg, NoPts, ps);
    forall k | 0 <= k < |out| ensures out[k].Valid() && out[k].dts.v <= out[k].pts.v { ClosedForm(cfg, ps, k); }
    forall k | 0 < k < |out| ensures out[k - 1].dts.v < out[k].dts.v {
      WrittenAt(cfg, NoPts, ps, k);
      RepairStep(cfg, out[k - 1].dts, ps[k]);
    }
  }

  /** The muxer leaves a stream alone exactly when it is clean, so repairing twice repairs once. */
  lemma {:induction false} UnchangedIffClean(cfg: Config, ps: seq<Stamps>)
    requires cfg.Strict() && AllValid(ps)
    ensures Written(cfg, NoPts, ps) == ps <==> Clean(ps)
    ensures Written(cfg, NoPts, Written(cfg, NoPts, ps)) == Written(cfg, NoPts, ps)
  {
    WrittenIsClean(cfg, ps);
    if Clean(ps) {
      CleanIsFixed(cfg, ps);
    }
    CleanIsFixed(cfg, Written(cfg, NoPts, ps));
  }

  lemma {:induction false} CleanIsFixed(cfg: Config, ps: seq<Stamps>)
    requires cfg.Strict() && Clean(ps)
    ensures Written(cfg, NoPts, ps) == ps
  {
    if ps != [] {
      var n := |ps| - 1;
      CleanIsFixed(cfg, ps[..n]);
      RepairStep(cfg, LastDts(NoPts, ps[..n]), ps[n]);
      assert ps == ps[..n] + [ps[n]];
    }
  }

  /** No strictly increasing dts sequence above the incoming stamps is anywhere smaller. */
  lemma {:induction false} WrittenIsLeast(cfg: Config, ps: seq<Stamps>, other: seq<int>, k: nat)
    requires cfg.Strict() && AllValid(ps) && |other| == |ps| && k < |ps|
    requires forall i :: 0 <= i < |ps| ==> Earlier(ps[i]) <= other[i]
    requires forall i :: 0 < i < |ps| ==> other[i - 1] < other[i]
    ensures Written(cfg, NoPts, ps)[k].Valid() && Written(cfg, NoPts, ps)[k].dts.v <= other[k]
  {
    ClosedForm(cfg, ps, k);
    WrittenAt(cfg, NoPts, ps, k);
    if k == 0 {
      RepairStep(cfg, NoPts, ps[0]);
    } else {
      WrittenIsLeast(cfg, ps, other, k - 1);
      RepairStep(cfg, Written(cfg, NoPts, ps)[k - 1].dts, ps[k]);
    }
  }

  /** Formats that allow equal timestamps: the dts never decreases and stays at most the pts. */
  lemma {:induction false} NonStrictIsMonotone(cfg: Config, ps: seq<Stamps>, k: nat)
    requires !cfg.noTimestamps && cfg.nonStrict && cfg.GuardsDts() && AllValid(ps) && k < |ps|
    ensures Written(cfg, NoPts, ps)[k].Valid()
    ensures Written(cfg, NoPts, ps)[k].dts.v <= Written(cfg, NoPts, ps)[k].pts.v
    ensures k > 0 ==> Written(cfg, NoPts, ps)[k - 1].Valid()
                      && Written(cfg, NoPts, ps)[k - 1].dts.v <= Written(cfg, NoPts, ps)[k].dts.v
  {
    WrittenAt(cfg, NoPts, ps, k);
    if k > 0 { NonStrictIsMonotone(cfg, ps, k - 1); }
  }

  /** For any packets at all, two neighbours that both carry a dts are written strictly increasing. */
  lemma NeighboursIncrease(cfg: Config, ps: seq<Stamps>, k: nat)
    requires cfg.Strict() && 0 < k < |ps|
    requires Written(cfg, NoPts, ps)[k - 1].dts.At? && ps[k].dts.At?
    ensures Written(cfg, NoPts, ps)[k].dts.At?
    ensures Written(cfg, NoPts, ps)[k - 1].dts.v < Written(cfg, NoPts, ps)[k].dts.v
  {
    WrittenAt(cfg, NoPts, ps, k);
  }

  /** A packet without dts resets the carried state, and the next dts may then fall below an earlier one. */
  lemma MissingDtsForgets(cfg: Config)
    requires cfg.Strict()
    ensures var ps := [Stamps(At(5), At(5)), Stamps(NoPts, NoPts), Stamps(At(3), At(3))];
            Written(cfg, NoPts, ps) == ps
  {
    var ps := [Stamps(At(5), At(5)), Stamps(NoPts, NoPts), Stamps(At(3), At(3))];
    WrittenAt(cfg, NoPts, ps, 0);
    WrittenAt(cfg, NoPts, ps, 1);
    WrittenAt(cfg, NoPts, ps, 2);
  }

  // ---------- packets without dts or pts ----------

  /** The stamp a packet with a dts asks for: the earlier one, or the dts when there is no pts. */
  function Asked(p: Stamps): int
    requires p.dts.At?
  {
    if p.pts.At? then Earlier(p) else p.dts.v
  }

  lemma AskedStep(cfg: Config, last: Ts, p: Stamps)
    requires cfg.Strict()
    ensures Repair(cfg, last, p).dts
            == if p.dts.NoPts? then NoPts else At(if last.NoPts? then Asked(p) else Max(Asked(p), last.v + 1))
  {
  }

  /** The packet at which the unbroken series of packets with a dts that ends at k starts. */
  function SegmentStart(ps: seq<Stamps>, k: nat): (i: nat)
    requires k < |ps| && ps[k].dts.At?
    ensures i <= k && (i > 0 ==> ps[i - 1].dts.NoPts?) && forall j :: i <= j <= k ==> ps[j].dts.At?
  {
    if k == 0 || ps[k - 1].dts.NoPts? then k else SegmentStart(ps, k - 1)
  }

  /** d is the greatest of Asked(ps[j]) + (k - j) over i <= j <= k. */
  ghost predicate IsPeakFrom(ps: seq<Stamps>, i: int, k: int, d: int)
    requires 0 <= i <= k < |ps| && forall j :: i <= j <= k ==> ps[j].dts.At?
  {
    && (forall j :: i <= j <= k ==> Asked(ps[j]) + (k - j) <= d)
    && (exists j :: i <= j <= k && Asked(ps[j]) + (k - j) == d)
  }

  /** The closed form for any packets: a missing dts stays missing and starts the maximum afresh. */
  lemma {:induction false} SegmentForm(cfg: Config, ps: seq<Stamps>, k: nat)
    requires cfg.Strict() && k < |ps|
    ensures Written(cfg, NoPts, ps)[k].dts.At? <==> ps[k].dts.At?
    ensures ps[k].dts.At? ==> IsPeakFrom(ps, SegmentStart(ps, k), k, Written(cfg, NoPts, ps)[k].dts.v)
  {
    WrittenAt(cfg, NoPts, ps, k);
    var last := if k == 0 then NoPts else Written(cfg, NoPts, ps)[k - 1].dts;
    AskedStep(cfg, last, ps[k]);
    if k > 0 { SegmentForm(cfg, ps, k - 1); }
    if ps[k].dts.At? {
      if last.NoPts? {
        assert SegmentStart(ps, k) == k && Asked(ps[k]) + (k - k) == Asked(ps[k]);
      } else {
        PeakGrows(ps, SegmentStart(ps, k), k, last.v);
      }
    }
  }

  lemma PeakGrows(ps: seq<Stamps>, i: nat, k: nat, d: int)
    requires i < k < |ps| && (forall j :: i <= j <= k ==> ps[j].dts.At?) && IsPeakFrom(ps, i, k - 1, d)
    ensures IsPeakFrom(ps, i, k, Max(Asked(ps[k]), d + 1))
  {
    var e := Max(Asked(ps[k]), d + 1);
    forall j | i <= j <= k ensures Asked(ps[j]) + (k - j) <= e {
      if j < k { assert Asked(ps[j]) + (k - 1 - j) <= d; }
    }
    var j :| i <= j <= k - 1 && Asked(ps[j]) + (k - 1 - j) == d;
    assert Asked(ps[j]) + (k - j) == d + 1 && Asked(ps[k]) + (k - k) == Asked(ps[k]);
  }

  /** Over all packets that carry a dts, with any others in between, the dts strictly increase. */
  ghost predicate Increasing(out: seq<Stamps>) {
    forall j, k :: 0 <= j < k < |out| && out[j].dts.At? && out[k].dts.At? ==> out[j].dts.v < out[k].dts.v
  }

  predicate StartsSegment(ps: seq<Stamps>, i: nat)
    requires i < |ps|
  {
    ps[i].dts.At? && (i > 0 ==> ps[i - 1].dts.NoPts?)
  }

  predicate EndsSegment(ps: seq<Stamps>, j: nat)
    requires j < |ps|
  {
    ps[j].dts.At? && (j + 1 < |ps| ==> ps[j + 1].dts.NoPts?)
  }

  /** The first packet of every segment asks for more than the peak at which each earlier segment ended. */
  ghost predicate SegmentsRise(ps: seq<Stamps>) {
    forall j, i, d :: 0 <= j < i < |ps| && EndsSegment(ps, j) && StartsSegment(ps, i) ==>
      IsPeakFrom(ps, SegmentStart(ps, j), j, d) ==> d < Asked(ps[i])
  }

  lemma PeakIsUnique(ps: seq<Stamps>, i: nat, k: nat, d: int, e: int)
    requires i <= k < |ps| && (forall j :: i <= j <= k ==> ps[j].dts.At?)
    requires IsPeakFrom(ps, i, k, d) && IsPeakFrom(ps, i, k, e)
    ensures d == e
  {
    var j :| i <= j <= k && Asked(ps[j]) + (k - j) == d;
    var l :| i <= l <= k && Asked(ps[l]) + (k - l) == e;
  }

  /** Within a segment the written dts strictly increase. */
  lemma {:induction false} SegmentIncreases(cfg: Config, ps: seq<Stamps>, j: nat, k: nat)
    requires cfg.Strict() && j <= k < |ps| && forall l :: j <= l <= k ==> ps[l].dts.At?
    ensures Written(cfg, NoPts, ps)[j].dts.At? && Written(cfg, NoPts, ps)[k].dts.At?
    ensures Written(cfg, NoPts, ps)[k].dts.v >= Written(cfg, NoPts, ps)[j].dts.v + (k - j)
  {
    SegmentForm(cfg, ps, j);
    if j < k {
      SegmentIncreases(cfg, ps, j, k - 1);
      WrittenAt(cfg, NoPts, ps, k);
      AskedStep(cfg, Written(cfg, NoPts, ps)[k - 1].dts, ps[k]);
    }
  }

  /** The last packet of the segment that holds j. */
  function SegmentEnd(ps: seq<Stamps>, j: nat): (e: nat)
    requires j < |ps| && ps[j].dts.At?
    ensures j <= e < |ps| && EndsSegment(ps, e) && forall l :: j <= l <= e ==> ps[l].dts.At?
    decreases |ps| - j
  {
    if j + 1 == |ps| || ps[j + 1].dts.NoPts? then j else SegmentEnd(ps, j + 1)
  }

  /** A segment that starts at i writes there what it asks for. */
  lemma StartIsAsked(cfg: Config, ps: seq<Stamps>, i: nat)
    requires cfg.Strict() && i < |ps| && StartsSegment(ps, i)
    ensures Written(cfg, NoPts, ps)[i].dts == At(Asked(ps[i]))
  {
    WrittenAt(cfg, NoPts, ps, i);
    AskedStep(cfg, if i == 0 then NoPts else Written(cfg, NoPts, ps)[i - 1].dts, ps[i]);
    if i > 0 { SegmentForm(cfg, ps, i - 1); }
  }

  lemma {:induction false} EndsBefore(ps: seq<Stamps>, j: nat, i: nat)
    requires j < i < |ps| && ps[j].dts.At? && StartsSegment(ps, i)
    ensures SegmentEnd(ps, j) < i
    decreases |ps| - j
  {
    if ps[j + 1].dts.At? { EndsBefore(ps, j + 1, i); }
  }

  lemma RiseIsEnough(cfg: Config, ps: seq<Stamps>, j: nat, k: nat)
    requires cfg.Strict() && SegmentsRise(ps) && j < k < |ps| && ps[j].dts.At? && ps[k].dts.At?
    ensures Written(cfg, NoPts, ps)[j].dts.At? && Written(cfg, NoPts, ps)[k].dts.At?
    ensures Written(cfg, NoPts, ps)[j].dts.v < Written(cfg, NoPts, ps)[k].dts.v
  {
    var i, e := SegmentStart(ps, k), SegmentEnd(ps, j);
    if i <= j {
      SegmentIncreases(cfg, ps, j, k);
    } else {
      EndsBefore(ps, j, i);
      SegmentIncreases(cfg, ps, j, e);
      SegmentForm(cfg, ps, e);
      StartIsAsked(cfg, ps, i);
      SegmentIncreases(cfg, ps, i, k);
    }
  }

  /** For any packets at all, the written dts strictly increase over the whole run exactly when the segments rise. */
  lemma IncreasingIff(cfg: Config, ps: seq<Stamps>)
    requires cfg.Strict()
    ensures Increasing(Written(cfg, NoPts, ps)) <==> SegmentsRise(ps)
  {
    var out := Written(cfg, NoPts, ps);
    if SegmentsRise(ps) {
      forall j, k | 0 <= j < k < |out| && out[j].dts.At? && out[k].dts.At? ensures out[j].dts.v < out[k].dts.v {
        SegmentForm(cfg, ps, j);
        SegmentForm(cfg, ps, k);
        RiseIsEnough(cfg, ps, j, k);
      }
    }
    if Increasing(out) {
      forall j, i, d | 0 <= j < i < |ps| && EndsSegment(ps, j) && StartsSegment(ps, i)
                       && IsPeakFrom(ps, SegmentStart(ps, j), j, d)
        ensures d < Asked(ps[i])
      {
        SegmentForm(cfg, ps, j);
        PeakIsUnique(ps, SegmentStart(ps, j), j, d, out[j].dts.v);
        StartIsAsked(cfg, ps, i);
      }
    }
  }

  // ---------- formats that allow equal timestamps ----------

  /** One packet: only a dts above its pts that straddles the last dts is moved up by one. */
  lemma NonStrictStep(cfg: Config, last: Ts, p: Stamps)
    requires !cfg.noTimestamps && cfg.nonStrict && cfg.GuardsDts() && p.Valid()
    ensures Repair(cfg, last, p).dts
            == At(if last.NoPts? then Earlier(p)
                  else if p.pts.v <= last.v < p.dts.v then last.v + 1
                  else Max(Earlier(p), last.v))
    ensures Repair(cfg, last, p).pts == At(Max(p.pts.v, Repair(cfg, last, p).dts.v))
  {
  }

  /** What packet j asks for, raised by one at each later packet up to k whose dts lies above it. */
  function Climb(ps: seq<Stamps>, j: nat, k: nat): int
    requires AllValid(ps) && j <= k < |ps|
  {
    if j == k then Earlier(ps[j])
    else
      var d := Climb(ps, j, k - 1);
      if d < ps[k].dts.v then d + 1 else d
  }

  ghost predicate IsHighestClimb(ps: seq<Stamps>, k: nat, d: int)
    requires AllValid(ps) && k < |ps|
  {
    && (forall j: nat :: j <= k ==> Climb(ps, j, k) <= d)
    && (exists j: nat :: j <= k && Climb(ps, j, k) == d)
  }

  lemma ClimbsOn(ps: seq<Stamps>, k: nat, d: int)
    requires AllValid(ps) && 0 < k < |ps| && IsHighestClimb(ps, k - 1, d)
    ensures IsHighestClimb(ps, k, Max(Earlier(ps[k]), if d < ps[k].dts.v then d + 1 else d))
  {
    var e := Max(Earlier(ps[k]), if d < ps[k].dts.v then d + 1 else d);
    forall j: nat | j <= k ensures Climb(ps, j, k) <= e {
      if j < k { assert Climb(ps, j, k - 1) <= d; }
    }
    var j: nat :| j <= k - 1 && Climb(ps, j, k - 1) == d;
    assert Climb(ps, j, k) == (if d < ps[k].dts.v then d + 1 else d) && Climb(ps, k, k) == Earlier(ps[k]);
  }

  /** The closed form where equal stamps are allowed: the k-th dts is the highest of the climbs that reach k. */
  lemma {:induction false} NonStrictForm(cfg: Config, ps: seq<Stamps>, k: nat)
    requires !cfg.noTimestamps && cfg.nonStrict && cfg.GuardsDts() && AllValid(ps) && k < |ps|
    ensures Written(cfg, NoPts, ps)[k].Valid()
    ensures IsHighestClimb(ps, k, Written(cfg, NoPts, ps)[k].dts.v)
    ensures Written(cfg, NoPts, ps)[k].pts.v == Max(ps[k].pts.v, Written(cfg, NoPts, ps)[k].dts.v)
  {
    WrittenAt(cfg, NoPts, ps, k);
    if k == 0 {
      NonStrictStep(cfg, NoPts, ps[0]);
      assert Climb(ps, 0, 0) == Earlier(ps[0]);
    } else {
      NonStrictForm(cfg, ps, k - 1);
      var last := Written(cfg, NoPts, ps)[k - 1].dts;
      NonStrictStep(cfg, last, ps[k]);
      ClimbsOn(ps, k, last.v);
    }
  }

  // ---------- other formats and streams ----------

  /** The strict setting covers audio, video and subtitles. */
  lemma StrictIff(cfg: Config)
    ensures cfg.Strict() <==> !cfg.noTimestamps && !cfg.nonStrict && !cfg.exitOnError
                              && cfg.mediaType in {Audio, Video, Subtitle}
  {
  }

  /** Formats without timestamps get every packet as it is. */
  lemma {:induction false} NoTimestampsUntouched(cfg: Config, last: Ts, ps: seq<Stamps>)
    requires cfg.noTimestamps
    ensures Written(cfg, last, ps) == ps
  {
    if ps != [] { NoTimestampsUntouched(cfg, last, ps[..|ps| - 1]); }
  }

  /** Data and attachments change only when dts exceeds pts: both become the middle of pts, dts and the next dts. */
  lemma UnguardedRepair(cfg: Config, last: Ts, p: Stamps)
    requires !cfg.noTimestamps && cfg.mediaType in {Data, Attachment}
    ensures if p.Valid() && p.dts.v > p.pts.v then
              var q := Repair(cfg, last, p);
              && q.dts.At? && q.pts == q.dts && p.pts.v <= q.dts.v <= p.dts.v
              && (last.NoPts? || last.v < p.pts.v ==> q.dts == p.pts)
              && (last.At? && last.v >= p.dts.v ==> q.dts == p.dts)
              && (last.At? && p.pts.v <= last.v < p.dts.v ==> q.dts.v == last.v + 1)
            else Repair(cfg, last, p) == p
  {
  }

  /** The only error: under `exitOnError`, a dts on a guarded stream that does not follow the last one. */
  lemma RefusedIff(cfg: Config, last: Ts, p: Stamps)
    ensures Refused(cfg, last, p) <==>
            && !cfg.noTimestamps && cfg.exitOnError && cfg.mediaType in {Audio, Video, Subtitle}
            && last.At? && p.dts.At? && (if cfg.nonStrict then p.dts.v < last.v else p.dts.v <= last.v)
  {
  }

  /** Streamcopied audio: both stamps are one, whose position in samples is close to the packet's dts, or carried on. */
  lemma CopiedAudioIs(ms: MuxStream, pkt: Packet, frame: nat)
    requires ms.copiedAudio && ms.sampleRate > 0 && pkt.dts.At?
    ensures var r, next := ms.Rescaled(pkt, frame), ms.DeltaLast(pkt, frame);
            && r.pts == r.dts && r.dts.At? && next.At?
            && var pos, tb := next.v - frame, pkt.timeBase;
               && Close(pos, pkt.dts.v, Mul(tb.num, ms.sampleRate), Mul(1, tb.den))
               && r.dts.v in {RescaleQ(pos, Rational(1, ms.sampleRate), ms.timeBase),
                              RescaleQ(pkt.dts.v, tb, ms.timeBase)}
  {
    DeltaIs(pkt.timeBase, pkt.dts.v, Rational(1, ms.sampleRate), frame, ms.rescaleDeltaLast, ms.timeBase);
  }

  /** Other streams: each stamp and the duration within half a unit of the packet's. */
  lemma RescaledIs(ms: MuxStream, pkt: Packet, frame: nat)
    requires !ms.copiedAudio
    ensures var r := ms.Rescaled(pkt, frame);
            var up, down := Mul(pkt.timeBase.num, ms.timeBase.den), Mul(ms.timeBase.num, pkt.timeBase.den);
            && r.pts.At? == pkt.pts.At? && r.dts.At? == pkt.dts.At?
            && (r.pts.At? ==> 2 * pkt.pts.v * up - down <= 2 * r.pts.v * down <= 2 * pkt.pts.v * up + down)
            && (r.dts.At? ==> 2 * pkt.dts.v * up - down <= 2 * r.dts.v * down <= 2 * pkt.dts.v * up + down)
  {
    var up, down := Mul(pkt.timeBase.num, ms.timeBase.den), Mul(ms.timeBase.num, pkt.timeBase.den);
    if pkt.pts.At? { RescaleNearest(pkt.pts.v, up, down); }
    if pkt.dts.At? { RescaleNearest(pkt.dts.v, up, down); }
  }
}

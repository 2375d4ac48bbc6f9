/** Frame-rate conversion: how often each video frame is repeated or dropped on its way to the encoder. */
module VideoSync {
  import opened Common

  datatype SyncMethod = Passthrough | Cfr | Vfr | Vscfr

  /** vsync method, `-frame_drop_threshold` and `-dts_error_threshold`. */
  datatype Config = Config(sync: SyncMethod, dropThreshold: real, errorThreshold: real) {
    predicate Constant() { sync.Cfr? || sync.Vscfr? }
  }

  /** A frame leaving the filtergraph: its position and length in output time-base units. */
  datatype Input = Input(id: int, syncIpts: real, duration: real) {
    function End(): real { syncIpts + duration }
  }

  /** A frame sent on: its timestamp and which input frame it shows. */
  datatype Sent = Sent(pts: int, id: int)

  /** llrint: to nearest, halves to even. */
  function Llrint(x: real): (r: int)
    ensures -0.5 <= x - r as real <= 0.5
    ensures x - r as real == 0.5 || x - r as real == -0.5 ==> r % 2 == 0
  {
    var f := x.Floor;
    var d := x - f as real;
    if d < 0.5 || (d == 0.5 && f % 2 == 0) then f else f + 1
  }

  function Median3(a: int, b: int, c: int): int {
    var max2 := if a >= b then a else b;
    var min2 := if a >= b then b else a;
    var m := if c >= max2 then max2 else c;
    if m >= min2 then m else min2
  }

  /** The result is one of the three, with two of them on either side of it. */
  lemma MedianIsMiddle(a: int, b: int, c: int)
    ensures var m := Median3(a, b, c);
            && m in {a, b, c}
            && ((a <= m && b <= m) || (a <= m && c <= m) || (b <= m && c <= m))
            && ((a >= m && b >= m) || (a >= m && c >= m) || (b >= m && c >= m))
  {
    var m := Median3(a, b, c);
    assert m == a || m == b || m == c;
  }

  /** Everything the conversion remembers, with the counters and what has been sent so far. */
  datatype State = State(
    nextPts: int, frameNumber: nat, hist: seq<int>, lastDropped: int,
    drop: int, dup: int, lastFrame: Option<int>, sent: seq<Sent>)

  const INITIAL := State(0, 0, [0, 0, 0], 0, 0, 0, None, [])

  /** How many copies to send, how many of them of the previous frame, and where to start. */
  datatype Decision = Decision(nb: int, prev: int, nextPts: int)

  function Decide(cfg: Config, nextPts: int, frameNumber: nat, f: Input): Decision {
    var delta := f.End() - nextPts as real;
    var clip := f.syncIpts < nextPts as real && delta > 0.0 && !cfg.sync.Passthrough?;
    var ipts := if clip then nextPts as real else f.syncIpts;
    var delta0 := ipts - nextPts as real;
    match cfg.sync
    case Passthrough => Decision(1, 0, Llrint(ipts))
    case Vfr =>
      if delta <= -0.6 then Decision(0, 0, nextPts)
      else Decision(1, 0, if delta > 0.6 then Llrint(ipts) else nextPts)
    case _ =>
      var jump := cfg.sync.Vscfr? && frameNumber == 0 && delta0 >= 0.5;
      var delta := if jump then f.duration else delta;
      var delta0 := if jump then 0.0 else delta0;
      var next := if jump then Llrint(ipts) else nextPts;
      if (cfg.dropThreshold != 0.0 && delta < cfg.dropThreshold && frameNumber > 0) || delta < -1.1 then
        Decision(0, 0, next)
      else if delta > 1.1 then
        Decision(Llrint(delta), if delta0 > 1.1 then Llrint(delta0 - 0.6) else 0, next)
      else Decision(1, 0, next)
  }

  function Flag(b: bool): int { if b then 1 else 0 }

  /** Copies that are not duplicates: the pending dropped frame, if now shown, and the new frame. */
  function Fresh(s: State, nb: int, prev: int): int {
    Flag(prev != 0 && s.lastDropped != 0) + Flag(nb > prev)
  }

  predicate TooMany(cfg: Config, s: State, nb: int, prev: int) {
    nb > Fresh(s, nb, prev) && nb as real > cfg.errorThreshold * 30.0
  }

  /** The bookkeeping at the end of video_sync_process; `present` is false at the end of the stream. */
  function Account(cfg: Config, s: State, nb: int, prev: int, present: bool): State
    requires |s.hist| == 3
  {
    var t := s.(hist := [prev] + s.hist[..2], drop := s.drop + Flag(prev == 0 && s.lastDropped != 0));
    if TooMany(cfg, s, nb, prev) then t.(drop := t.drop + 1)
    else
      t.(dup := t.dup + (if nb > Fresh(s, nb, prev) then nb - Fresh(s, nb, prev) else 0),
         lastDropped := Flag(nb == prev && present))
  }

  /** n consecutive timestamps, the first `prev` of them showing the previous frame when there is one. */
  function Copies(start: int, n: int, prev: int, last: Option<int>, id: int): (out: seq<Sent>)
    decreases n
  {
    if n <= 0 then []
    else
      Copies(start, n - 1, prev, last, id)
      + [Sent(start + n - 1, if n - 1 < prev && last.Some? then last.value else id)]
  }

  lemma {:induction false} CopiesAre(start: int, n: int, prev: int, last: Option<int>, id: int)
    ensures var out := Copies(start, n, prev, last, id);
            && |out| == (if n <= 0 then 0 else n)
            && forall i :: 0 <= i < |out| ==>
                 out[i] == Sent(start + i, if i < prev && last.Some? then last.value else id)
  {
    if n > 0 { CopiesAre(start, n - 1, prev, last, id); }
  }

  function Emit(s: State, n: int, prev: int, id: int): State
  {
    if n <= 0 then s
    else s.(nextPts := s.nextPts + n, frameNumber := s.frameNumber + n,
            sent := s.sent + Copies(s.nextPts, n, prev, s.lastFrame, id))
  }

  predicate Skips(cfg: Config, s: State, f: Input) {
    var d := Decide(cfg, s.nextPts, s.frameNumber, f);
    TooMany(cfg, s, d.nb, d.prev)
  }

  function Median(s: State): int
    requires |s.hist| == 3
  {
    Median3(s.hist[0], s.hist[1], s.hist[2])
  }

  /** video_sync_process on a frame: the state before the copies are sent, their number, those of the previous frame. */
  function Synced(cfg: Config, s: State, f: Input): (State, int, int)
    requires |s.hist| == 3
  {
    var d := Decide(cfg, s.nextPts, s.frameNumber, f);
    (Account(cfg, s.(nextPts := d.nextPts), d.nb, d.prev, true), if Skips(cfg, s, f) then 0 else d.nb, d.prev)
  }

  /** The state in which the bookkeeping of the end of the stream starts. */
  function AtEnd(s: State): State
    requires |s.hist| == 3
  {
    if Median(s) == 0 && s.lastDropped != 0 then s.(drop := s.drop + 1, lastDropped := s.lastDropped + 1) else s
  }

  /** video_sync_process at the end of the stream. */
  function Flushed(cfg: Config, s: State): (State, int, int)
    requires |s.hist| == 3
  {
    var n := Median(s);
    (Account(cfg, AtEnd(s), n, n, false), if TooMany(cfg, AtEnd(s), n, n) then 0 else n, n)
  }

  /** One input frame, all sends succeeding. */
  function Step(cfg: Config, s: State, f: Input): (t: State)
    requires |s.hist| == 3
    ensures |t.hist| == 3
  {
    var (t, n, prev) := Synced(cfg, s, f);
    Emit(t, n, prev, f.id).(lastFrame := Some(f.id))
  }

  /** The end of the stream once the graph has produced a frame. */
  function Flush(cfg: Config, s: State): State
    requires |s.hist| == 3
  {
    var (t, n, prev) := Flushed(cfg, s);
    if s.lastFrame.None? then t else Emit(t, n, prev, s.lastFrame.value)
  }

  /** The end of the stream, which calls for a flush only when the graph has produced a frame. */
  function Ended(cfg: Config, s: State, gotFrame: bool): State
    requires |s.hist| == 3
  {
    if gotFrame then Flush(cfg, s) else s
  }

  class OutputFilter {
    const cfg: Config
    var nextPts: int
    var frameNumber: nat
    var framesPrevHist: seq<int>
    var lastDropped: int
    var nbFramesDrop: int
    var nbFramesDup: int
    var lastFrame: Option<int>
    /** What the scheduler has been sent. */
    var sent: seq<Sent>

    ghost predicate Valid() reads this { |framesPrevHist| == 3 }

    function Now(): State reads this {
      State(nextPts, frameNumber, framesPrevHist, lastDropped, nbFramesDrop, nbFramesDup, lastFrame, sent)
    }

    constructor (cfg: Config)
      ensures Valid() && this.cfg == cfg && Now() == INITIAL
    {
      this.cfg := cfg;
      nextPts, frameNumber, framesPrevHist, lastDropped := 0, 0, [0, 0, 0], 0;
      nbFramesDrop, nbFramesDup, lastFrame, sent := 0, 0, None, [];
    }

    /** The copies of `frame` and of its predecessor to send; may move the output position. */
    method CountCopies(frame: Input) returns (nb: int, prev: int)
      modifies `nextPts
      ensures Decision(nb, prev, nextPts) == Decide(cfg, old(nextPts), frameNumber, frame)
    {
      var syncIpts, duration := frame.syncIpts, frame.duration;
      var delta0 := syncIpts - nextPts as real;
      var delta := delta0 + duration;
      prev, nb := 0, 1;
      if delta0 < 0.0 && delta > 0.0 && !cfg.sync.Passthrough? {
        syncIpts := nextPts as real;
        duration := duration + delta0;
        delta0 := 0.0;
      }
      if cfg.sync.Passthrough? {
        nextPts := Llrint(syncIpts);
      } else if cfg.sync.Vfr? {
        if delta <= -0.6 {
          nb := 0;
        } else if delta > 0.6 {
          nextPts := Llrint(syncIpts);
        }
      } else {
        if cfg.sync.Vscfr? && frameNumber == 0 && delta0 >= 0.5 {
          delta := duration;
          delta0 := 0.0;
          nextPts := Llrint(syncIpts);
        }
        if cfg.dropThreshold != 0.0 && delta < cfg.dropThreshold && frameNumber > 0 {
          nb := 0;
        } else if delta < -1.1 {
          nb := 0;
        } else if delta > 1.1 {
          nb := Llrint(delta);
          if delta0 > 1.1 { prev := Llrint(delta0 - 0.6); }
        }
      }
    }

    /** The bookkeeping shared by frames and the end of the stream; an oversized count is cut to nothing. */
    method Finish(count: int, prev: int, present: bool) returns (nb: int)
      requires Valid()
      modifies `framesPrevHist, `lastDropped, `nbFramesDrop, `nbFramesDup
      ensures Valid() && Now() == Account(cfg, old(Now()), count, prev, present)
      ensures nb == if TooMany(cfg, old(Now()), count, prev) then 0 else count
    {
      nb := count;
      framesPrevHist := [prev] + framesPrevHist[..2];
      if prev == 0 && lastDropped != 0 { nbFramesDrop := nbFramesDrop + 1; }
      var shownNew := Flag(prev != 0 && lastDropped != 0) + Flag(nb > prev);
      if nb > shownNew {
        if nb as real > cfg.errorThreshold * 30.0 {
          nbFramesDrop := nbFramesDrop + 1;
          return 0;
        }
        nbFramesDup := nbFramesDup + (nb - shownNew);
      }
      lastDropped := Flag(nb == prev && present);
    }

    method VideoSyncProcess(frame: Option<Input>) returns (nb: int, prev: int)
      requires Valid()
      modifies this
      ensures Valid()
      ensures frame.Some? ==> (Now(), nb, prev) == Synced(cfg, old(Now()), frame.value)
      ensures frame.None? ==> (Now(), nb, prev) == Flushed(cfg, old(Now()))
    {
      if frame.None? {
        nb := Median3(framesPrevHist[0], framesPrevHist[1], framesPrevHist[2]);
        prev := nb;
        if nb == 0 && lastDropped != 0 {
          nbFramesDrop := nbFramesDrop + 1;
          lastDropped := lastDropped + 1;
        }
      } else {
        nb, prev := CountCopies(frame.value);
      }
      nb := Finish(nb, prev, frame.Some?);
    }

    /** The copies of the previous frame and of `frame`; without `frame` they are all of the previous one. */
    method SendCopies(frame: Option<Input>, nb: int, prev: int)
      requires Valid() && (frame.None? ==> prev == nb || nb <= 0)
      modifies `nextPts, `frameNumber, `sent
      ensures Valid()
      ensures frame.Some? ==> Now() == Emit(old(Now()), nb, prev, frame.value.id)
      ensures frame.None? ==>
        Now() == if lastFrame.Some? then Emit(old(Now()), nb, prev, lastFrame.value) else old(Now())
    {
      ghost var t := Now();
      ghost var id := if frame.Some? then frame.value.id else if lastFrame.Some? then lastFrame.value else 0;
      var i := 0;
      while i < nb
        invariant 0 <= i && (nb > 0 ==> i <= nb) && (nb <= 0 ==> i == 0)
        invariant frame.None? && lastFrame.None? ==> i == 0
        invariant Now() == Emit(t, i, prev, id)
      {
        var shown;
        if i < prev && lastFrame.Some? {
          shown := lastFrame.value;
        } else if frame.Some? {
          shown := frame.value.id;
        } else {
          break;
        }
        assert t.sent + Copies(t.nextPts, i + 1, prev, t.lastFrame, id) == sent + [Sent(nextPts, shown)];
        sent := sent + [Sent(nextPts, shown)];
        frameNumber, nextPts := frameNumber + 1, nextPts + 1;
        i := i + 1;
      }
    }

    /** A video frame, or the end of the stream; `gotFrame` tells whether the graph ever sent a frame. */
    method OutputFrame(frame: Option<Input>, gotFrame: bool)
      requires Valid()
      modifies this
      ensures Valid()
      ensures Now() == if frame.Some? then Step(cfg, old(Now()), frame.value) else Ended(cfg, old(Now()), gotFrame)
    {
      var nb, prev := Flag(frame.Some?), 0;
      if frame.Some? || gotFrame {
        nb, prev := VideoSyncProcess(frame);
      }
      SendCopies(frame, nb, prev);
      if frame.Some? { lastFrame := Some(frame.value.id); }
    }
  }

  // ---------- whole runs ----------

  function Run(cfg: Config, ins: seq<Input>): (s: State)
    ensures |s.hist| == 3
  {
    if ins == [] then INITIAL else Step(cfg, Run(cfg, ins[..|ins| - 1]), ins[|ins| - 1])
  }

  ghost predicate NonNegative(ins: seq<Input>) {
    forall i :: 0 <= i < |ins| ==> ins[i].duration >= 0.0
  }

  /** No frame of the run hits the oversized-duplication guard. */
  ghost predicate NeverSkips(cfg: Config, ins: seq<Input>) {
    forall k :: 0 <= k < |ins| ==> !Skips(cfg, Run(cfg, ins[..k]), ins[k])
  }

  lemma RunPrefix(cfg: Config, ins: seq<Input>)
    requires ins != []
    ensures var p := ins[..|ins| - 1];
            && (NonNegative(ins) ==> NonNegative(p))
            && (NeverSkips(cfg, ins) ==> NeverSkips(cfg, p) && !Skips(cfg, Run(cfg, p), ins[|ins| - 1]))
  {
    var p := ins[..|ins| - 1];
    forall k | 0 <= k < |p| ensures p[..k] == ins[..k] {}
  }

  /** How far the output may lag behind the input. */
  function Lag(cfg: Config): real {
    var base := if cfg.sync.Vscfr? then 1.0 else 0.5;
    if cfg.dropThreshold > base then cfg.dropThreshold else base
  }

  /** One frame at constant rate keeps the drift between frame end and output position in bounds. */
  lemma DriftStep(cfg: Config, s: State, f: Input)
    requires |s.hist| == 3 && cfg.Constant() && f.duration >= 0.0
    requires f.End() - s.nextPts as real >= -2.1
    requires !Skips(cfg, s, f)
    ensures -2.1 <= f.End() - Step(cfg, s, f).nextPts as real <= Lag(cfg)
  {
    var d := Decide(cfg, s.nextPts, s.frameNumber, f);
    assert d.nb >= 0;
    assert Step(cfg, s, f).nextPts == d.nextPts + d.nb;
  }

  /**
   * With non-decreasing frame ends, after every frame the number of output frames tracks input time:
   * at most 2.1 frames ahead and, with no drop threshold, at most half a frame behind.
   */
  lemma {:induction false} DriftBound(cfg: Config, ins: seq<Input>)
    requires cfg.Constant() && NonNegative(ins) && NeverSkips(cfg, ins) && ins != []
    requires ins[0].End() >= -2.1
    requires forall i :: 0 < i < |ins| ==> ins[i - 1].End() <= ins[i].End()
    ensures -2.1 <= ins[|ins| - 1].End() - Run(cfg, ins).nextPts as real <= Lag(cfg)
  {
    var n := |ins| - 1;
    RunPrefix(cfg, ins);
    if n > 0 { DriftBound(cfg, ins[..n]); }
    DriftStep(cfg, Run(cfg, ins[..n]), ins[n]);
  }

  /** Copies of the previous frame never exceed the copies sent. */
  lemma PrevAtMostNb(cfg: Config, nextPts: int, frameNumber: nat, f: Input)
    requires f.duration >= 0.0
    ensures 0 <= Decide(cfg, nextPts, frameNumber, f).prev <= Decide(cfg, nextPts, frameNumber, f).nb
  {
    var delta0, delta := f.syncIpts - nextPts as real, f.End() - nextPts as real;
    if delta0 > 1.1 { LlrintMonotone(delta0 - 0.6, delta); }
  }

  lemma LlrintMonotone(x: real, y: real)
    requires x <= y
    ensures Llrint(x) <= Llrint(y)
  {
  }

  /** A skip that counts a pending drop without clearing it: the one way a frame is counted twice. */
  predicate CountsTwice(cfg: Config, s: State, f: Input) {
    Skips(cfg, s, f) && Decide(cfg, s.nextPts, s.frameNumber, f).prev == 0 && s.lastDropped != 0
  }

  function Recounts(cfg: Config, ins: seq<Input>): nat {
    if ins == [] then 0
    else
      var p := ins[..|ins| - 1];
      Recounts(cfg, p) + Flag(CountsTwice(cfg, Run(cfg, p), ins[|ins| - 1]))
  }

  function Out(s: State): int { |s.sent| + s.drop + s.lastDropped }

  lemma LedgerStep(cfg: Config, s: State, f: Input)
    requires |s.hist| == 3 && f.duration >= 0.0 && s.lastDropped in {0, 1}
    ensures Step(cfg, s, f).lastDropped in {0, 1}
    ensures Out(Step(cfg, s, f)) - Step(cfg, s, f).dup == Out(s) - s.dup + 1 + Flag(CountsTwice(cfg, s, f))
  {
    var d := Decide(cfg, s.nextPts, s.frameNumber, f);
    PrevAtMostNb(cfg, s.nextPts, s.frameNumber, f);
    CopiesAre(d.nextPts, d.nb, d.prev, s.lastFrame, f.id);
  }

  /** The exact ledger of any run in any sync mode: frames out, dropped and pending against in and duplicated. */
  lemma {:induction false} Ledger(cfg: Config, ins: seq<Input>)
    requires NonNegative(ins)
    ensures Run(cfg, ins).lastDropped in {0, 1}
    ensures Out(Run(cfg, ins)) == |ins| + Run(cfg, ins).dup + Recounts(cfg, ins)
    ensures NeverSkips(cfg, ins) ==> Recounts(cfg, ins) == 0
  {
    if ins != [] {
      RunPrefix(cfg, ins);
      var p := ins[..|ins| - 1];
      Ledger(cfg, p);
      LedgerStep(cfg, Run(cfg, p), ins[|ins| - 1]);
    }
  }

  lemma StepHistory(cfg: Config, s: State, f: Input)
    requires |s.hist| == 3 && f.duration >= 0.0 && forall h :: h in s.hist ==> h >= 0
    ensures forall h :: h in Step(cfg, s, f).hist ==> h >= 0
    ensures Step(cfg, s, f).lastFrame == Some(f.id)
  {
    PrevAtMostNb(cfg, s.nextPts, s.frameNumber, f);
    var hist := Step(cfg, s, f).hist;
    assert hist == [Decide(cfg, s.nextPts, s.frameNumber, f).prev] + s.hist[..2];
    ShiftNonNegative(hist[0], s.hist);
  }

  lemma ShiftNonNegative(p: int, h: seq<int>)
    requires p >= 0 && |h| == 3 && forall x :: x in h ==> x >= 0
    ensures forall x :: x in [p] + h[..2] ==> x >= 0
  {
    assert h[0] in h && h[1] in h;
    assert [p] + h[..2] == [p, h[0], h[1]];
  }

  lemma {:induction false} HistoryNonNegative(cfg: Config, ins: seq<Input>)
    requires NonNegative(ins)
    ensures forall h :: h in Run(cfg, ins).hist ==> h >= 0
    ensures if ins == [] then Run(cfg, ins) == INITIAL else Run(cfg, ins).lastFrame.Some?
  {
    if ins != [] {
      RunPrefix(cfg, ins);
      HistoryNonNegative(cfg, ins[..|ins| - 1]);
      StepHistory(cfg, Run(cfg, ins[..|ins| - 1]), ins[|ins| - 1]);
    }
  }

  /** The end of the stream double-counts a pending drop that meets a zero median, or is cut as oversized. */
  predicate FlushMiscounts(cfg: Config, s: State)
    requires |s.hist| == 3
  {
    (Median(s) == 0 && s.lastDropped != 0) || TooMany(cfg, s, Median(s), Median(s))
  }

  lemma LedgerFlush(cfg: Config, s: State)
    requires |s.hist| == 3 && s.lastDropped in {0, 1} && Median(s) >= 0
    requires s.lastFrame.None? ==> Median(s) == 0
    ensures Out(Flush(cfg, s)) - Flush(cfg, s).dup == Out(s) - s.dup + Flag(FlushMiscounts(cfg, s))
  {
    var n := Median(s);
    var t := Account(cfg, AtEnd(s), n, n, false);
    if s.lastFrame.Some? { CopiesAre(t.nextPts, n, n, s.lastFrame, s.lastFrame.value); }
  }

  /** At the end of the stream the ledger is off by one exactly when there is a flush and it miscounts. */
  lemma LedgerAtEnd(cfg: Config, ins: seq<Input>, gotFrame: bool)
    requires NonNegative(ins)
    ensures var s, t := Run(cfg, ins), Ended(cfg, Run(cfg, ins), gotFrame);
            Out(t) == |ins| + t.dup + Recounts(cfg, ins) + Flag(gotFrame && FlushMiscounts(cfg, s))
  {
    hide Run, Recounts, Flush, FlushMiscounts, Median;
    Ledger(cfg, ins);
    MedianOfRun(cfg, ins);
    LedgerFlush(cfg, Run(cfg, ins));
  }

  lemma MedianOfRun(cfg: Config, ins: seq<Input>)
    requires NonNegative(ins)
    ensures Median(Run(cfg, ins)) >= 0 && (Run(cfg, ins).lastFrame.None? ==> Median(Run(cfg, ins)) == 0)
  {
    HistoryNonNegative(cfg, ins);
    var h := Run(cfg, ins).hist;
    MedianIsMiddle(h[0], h[1], h[2]);
    assert Median3(h[0], h[1], h[2]) in h;
  }

  lemma RunSnoc(cfg: Config, ins: seq<Input>, f: Input)
    ensures Run(cfg, ins + [f]) == Step(cfg, Run(cfg, ins), f)
    ensures Recounts(cfg, ins + [f]) == Recounts(cfg, ins) + Flag(CountsTwice(cfg, Run(cfg, ins), f))
  {
    assert (ins + [f])[..|ins|] == ins;
  }

  /** Two short frames fill the output ahead of time; a third one is dropped and pending. */
  const SHORT: seq<Input> := [] + [Short(0)] + [Short(1)] + [Short(2)]

  function Short(id: int): Input { Input(id, 0.0, 0.5) }

  lemma ShortRun(cfg: Config)
    requires cfg.sync.Cfr? && cfg.dropThreshold == 0.0 && cfg.errorThreshold >= 1.0
    ensures var s := Run(cfg, SHORT);
            s.hist == [0, 0, 0] && s.lastDropped == 1 && s.nextPts == 2 && Recounts(cfg, SHORT) == 0
  {
    assert Run(cfg, []) == INITIAL && Recounts(cfg, []) == 0;
    hide Run, Recounts;
    PlainFrame(cfg, [], Short(0));
    PlainFrame(cfg, [] + [Short(0)], Short(1));
    PlainFrame(cfg, [] + [Short(0)] + [Short(1)], Short(2));
  }

  lemma PlainFrame(cfg: Config, ins: seq<Input>, f: Input)
    requires cfg.sync.Cfr? && cfg.dropThreshold == 0.0 && cfg.errorThreshold >= 1.0
    requires Run(cfg, ins).hist == [0, 0, 0] && f.End() - Run(cfg, ins).nextPts as real <= 1.1
    ensures var s, t := Run(cfg, ins), Run(cfg, ins + [f]);
            var n := Flag(f.End() - s.nextPts as real >= -1.1);
            && t.nextPts == s.nextPts + n && t.lastDropped == 1 - n && t.hist == [0, 0, 0]
            && Recounts(cfg, ins + [f]) == Recounts(cfg, ins)
  {
    hide Run, Recounts, Step, CountsTwice;
    RunSnoc(cfg, ins, f);
    PlainStep(cfg, Run(cfg, ins), f);
  }

  /** A run whose pending drop is counted twice at the end: three frames in, none duplicated, four accounted for. */
  lemma PendingDropCountedTwice()
    ensures var cfg := Config(Cfr, 0.0, 108000.0);
            && FlushMiscounts(cfg, Run(cfg, SHORT))
            && Out(Flush(cfg, Run(cfg, SHORT))) == |SHORT| + Flush(cfg, Run(cfg, SHORT)).dup + 1
  {
    hide Run, Recounts, Flush;
    var cfg := Config(Cfr, 0.0, 108000.0);
    ShortRun(cfg);
    LedgerAtEnd(cfg, SHORT, true);
  }

  /** A run in which an oversized skip counts the pending drop without clearing it: five accounted for after four. */
  lemma SkippedDropCountedTwice()
    ensures var cfg := Config(Cfr, 0.0, 1.0);
            var ins := SHORT + [Input(3, 2.0, 40.0)];
            && CountsTwice(cfg, Run(cfg, SHORT), Input(3, 2.0, 40.0))
            && Out(Run(cfg, ins)) == |ins| + Run(cfg, ins).dup + 1
  {
    hide Run, Recounts, Step, CountsTwice;
    var cfg := Config(Cfr, 0.0, 1.0);
    var f := Input(3, 2.0, 40.0);
    ShortRun(cfg);
    LongFrame(cfg, Run(cfg, SHORT), f);
    RunSnoc(cfg, SHORT, f);
    assert NonNegative(SHORT + [f]);
    Ledger(cfg, SHORT + [f]);
  }

  lemma LongFrame(cfg: Config, s: State, f: Input)
    requires cfg == Config(Cfr, 0.0, 1.0) && s.nextPts == 2 && s.lastDropped == 1 && f == Input(3, 2.0, 40.0)
    ensures CountsTwice(cfg, s, f)
  {
    assert Decide(cfg, s.nextPts, s.frameNumber, f) == Decision(40, 0, 2);
  }

  /** Without long frames at constant rate a step sends one copy, or none when the frame ends too early. */
  lemma PlainStep(cfg: Config, s: State, f: Input)
    requires cfg.sync.Cfr? && cfg.dropThreshold == 0.0 && cfg.errorThreshold >= 1.0
    requires s.hist == [0, 0, 0] && f.End() - s.nextPts as real <= 1.1
    ensures var t, n := Step(cfg, s, f), Flag(f.End() - s.nextPts as real >= -1.1);
            t.nextPts == s.nextPts + n && t.lastDropped == 1 - n && t.hist == [0, 0, 0]
    ensures !CountsTwice(cfg, s, f)
  {
    var d := Decide(cfg, s.nextPts, s.frameNumber, f);
    assert d.prev == 0 && d.nb == Flag(f.End() - s.nextPts as real >= -1.1) && d.nextPts == s.nextPts;
    assert [0] + s.hist[..2] == [0, 0, 0];
  }

  // ---------- timestamps ----------

  /** The timestamps sent so far are consecutive and the next one continues them. */
  ghost predicate Consecutive(s: State) {
    && s.frameNumber == |s.sent|
    && (forall i :: 0 <= i < |s.sent| ==> s.sent[i].pts == s.nextPts - |s.sent| + i)
  }

  lemma EmitConsecutive(s: State, n: int, prev: int, id: int)
    requires Consecutive(s)
    ensures Consecutive(Emit(s, n, prev, id))
    ensures Emit(s, n, prev, id).nextPts - |Emit(s, n, prev, id).sent| == s.nextPts - |s.sent|
  {
    CopiesAre(s.nextPts, n, prev, s.lastFrame, id);
  }

  lemma StepConsecutive(cfg: Config, s: State, f: Input)
    requires |s.hist| == 3 && cfg.Constant() && Consecutive(s)
    ensures Consecutive(Step(cfg, s, f))
    ensures cfg.sync.Cfr? ==> Step(cfg, s, f).nextPts - |Step(cfg, s, f).sent| == s.nextPts - |s.sent|
  {
    var (t, n, prev) := Synced(cfg, s, f);
    assert t.sent == s.sent && t.frameNumber == s.frameNumber;
    assert cfg.sync.Cfr? || s.frameNumber > 0 ==> t.nextPts == s.nextPts;
    EmitConsecutive(t, n, prev, f.id);
  }

  lemma FlushConsecutive(cfg: Config, s: State)
    requires |s.hist| == 3 && Consecutive(s)
    ensures Consecutive(Flush(cfg, s))
  {
    var (t, n, prev) := Flushed(cfg, s);
    assert t.sent == s.sent && t.frameNumber == s.frameNumber && t.nextPts == s.nextPts;
    if s.lastFrame.Some? { EmitConsecutive(t, n, prev, s.lastFrame.value); }
  }

  /** At constant rate, for any input at all, the whole run sends consecutive timestamps, flush included. */
  lemma {:induction false} ConstantRateIsGapless(cfg: Config, ins: seq<Input>)
    requires cfg.Constant()
    ensures Consecutive(Run(cfg, ins)) && Consecutive(Flush(cfg, Run(cfg, ins)))
    ensures cfg.sync.Cfr? ==> Run(cfg, ins).nextPts == |Run(cfg, ins).sent|
  {
    if ins != [] {
      ConstantRateIsGapless(cfg, ins[..|ins| - 1]);
      StepConsecutive(cfg, Run(cfg, ins[..|ins| - 1]), ins[|ins| - 1]);
    }
    FlushConsecutive(cfg, Run(cfg, ins));
  }

  ghost predicate Increasing(s: State) {
    && (forall i, j :: 0 <= i < j < |s.sent| ==> s.sent[i].pts < s.sent[j].pts)
    && (forall i :: 0 <= i < |s.sent| ==> s.sent[i].pts < s.nextPts)
  }

  lemma StepIncreases(cfg: Config, s: State, f: Input)
    requires cfg.sync.Vfr? && s.hist == [0, 0, 0] && Increasing(s)
    ensures Step(cfg, s, f).hist == [0, 0, 0] && Increasing(Step(cfg, s, f))
  {
    var d := Decide(cfg, s.nextPts, s.frameNumber, f);
    assert d.prev == 0 && 0 <= d.nb <= 1 && d.nextPts >= s.nextPts;
    var (t, n, prev) := Synced(cfg, s, f);
    assert t.sent == s.sent && t.nextPts == d.nextPts && t.hist == [0] + s.hist[..2];
    CopiesAre(t.nextPts, n, prev, t.lastFrame, f.id);
  }

  lemma FlushSendsNothing(cfg: Config, s: State)
    requires s.hist == [0, 0, 0]
    ensures Flush(cfg, s).sent == s.sent
  {
    assert Median(s) == 0;
  }

  /** At variable rate the timestamps strictly increase even when the input timestamps go backwards. */
  lemma {:induction false} VariableRateIncreases(cfg: Config, ins: seq<Input>)
    requires cfg.sync.Vfr?
    ensures Increasing(Run(cfg, ins))
    ensures Run(cfg, ins).hist == [0, 0, 0] && Flush(cfg, Run(cfg, ins)).sent == Run(cfg, ins).sent
  {
    if ins != [] {
      VariableRateIncreases(cfg, ins[..|ins| - 1]);
      StepIncreases(cfg, Run(cfg, ins[..|ins| - 1]), ins[|ins| - 1]);
    }
    FlushSendsNothing(cfg, Run(cfg, ins));
  }

  /** The frames shown so far never go back, and none is later than the last one received. */
  ghost predicate InOrder(sent: seq<Sent>, last: Option<int>) {
    && (forall i, j :: 0 <= i < j < |sent| ==> sent[i].id <= sent[j].id)
    && (forall i :: 0 <= i < |sent| ==> last.Some? && sent[i].id <= last.value)
  }

  lemma EmitInOrder(s: State, n: int, prev: int, id: int)
    requires InOrder(s.sent, s.lastFrame) && (s.lastFrame.Some? ==> s.lastFrame.value <= id)
    ensures InOrder(Emit(s, n, prev, id).sent, Some(id))
  {
    CopiesAre(s.nextPts, n, prev, s.lastFrame, id);
  }

  lemma StepInOrder(cfg: Config, s: State, f: Input)
    requires |s.hist| == 3 && InOrder(s.sent, s.lastFrame) && (s.lastFrame.Some? ==> s.lastFrame.value <= f.id)
    ensures InOrder(Step(cfg, s, f).sent, Some(f.id)) && Step(cfg, s, f).lastFrame == Some(f.id)
  {
    var (t, n, prev) := Synced(cfg, s, f);
    assert t.sent == s.sent && t.lastFrame == s.lastFrame;
    EmitInOrder(t, n, prev, f.id);
  }

  lemma FlushInOrder(cfg: Config, s: State)
    requires |s.hist| == 3 && InOrder(s.sent, s.lastFrame)
    ensures InOrder(Flush(cfg, s).sent, s.lastFrame)
  {
    var (t, n, prev) := Flushed(cfg, s);
    assert t.sent == s.sent && t.lastFrame == s.lastFrame;
    if s.lastFrame.Some? { EmitInOrder(t, n, prev, s.lastFrame.value); }
  }

  /** In every mode the frames shown appear in input order, also across repeats of an older frame and the flush. */
  lemma {:induction false} FramesInOrder(cfg: Config, ins: seq<Input>)
    requires forall i :: 0 < i < |ins| ==> ins[i - 1].id <= ins[i].id
    ensures var s := Run(cfg, ins);
            && s.lastFrame == (if ins == [] then None else Some(ins[|ins| - 1].id))
            && InOrder(s.sent, s.lastFrame) && InOrder(Flush(cfg, s).sent, s.lastFrame)
  {
    if ins != [] {
      var n := |ins| - 1;
      var r := Run(cfg, ins[..n]);
      FramesInOrder(cfg, ins[..n]);
      assert n > 0 ==> r.lastFrame == Some(ins[n - 1].id);
      StepInOrder(cfg, r, ins[n]);
    }
    FlushInOrder(cfg, Run(cfg, ins));
  }
}

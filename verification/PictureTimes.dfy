/** When each picture is shown: repeats of the previous picture in a gap, and how early and how late one appears. */
module PictureTimes {
  import opened Common
  import opened VideoSync

  /** The copies one frame adds, and where the output position goes. */
  lemma StepCopies(cfg: Config, s: State, f: Input)
    requires |s.hist| == 3 && !Skips(cfg, s, f)
    ensures var d := Decide(cfg, s.nextPts, s.frameNumber, f);
            && Step(cfg, s, f).sent == s.sent + Copies(d.nextPts, d.nb, d.prev, s.lastFrame, f.id)
            && Step(cfg, s, f).nextPts == d.nextPts + (if d.nb > 0 then d.nb else 0)
            && Step(cfg, s, f).lastFrame == Some(f.id)
  {
  }

  /** The frame starts more than 1.1 after the output position, and the output does not jump to it. */
  predicate Gap(cfg: Config, s: State, f: Input) {
    f.syncIpts - s.nextPts as real > 1.1 && (cfg.sync.Cfr? || s.frameNumber > 0)
  }

  /** In a gap the previous picture is repeated up to within half a unit of the new frame's position minus 0.6. */
  lemma GapRepeatsPrevious(cfg: Config, s: State, f: Input) returns (first: int)
    requires cfg.Constant() && |s.hist| == 3 && f.duration >= 0.0 && !Skips(cfg, s, f)
    requires s.lastFrame.Some? && Gap(cfg, s, f)
    ensures -0.5 <= first as real - (f.syncIpts - 0.6) <= 0.5
    ensures forall k :: |s.sent| <= k < |Step(cfg, s, f).sent| ==>
              var x := Step(cfg, s, f).sent[k];
              x.id == if x.pts < first then s.lastFrame.value else f.id
  {
    var d := Decide(cfg, s.nextPts, s.frameNumber, f);
    first := s.nextPts + Llrint(f.syncIpts - s.nextPts as real - 0.6);
    StepCopies(cfg, s, f);
    CopiesAre(d.nextPts, d.nb, d.prev, s.lastFrame, f.id);
    assert d.nb > 0 ==> d.nextPts == s.nextPts && d.prev == first - s.nextPts;
  }

  /** Without a gap every copy shows the new picture. */
  lemma NoGapShowsNew(cfg: Config, s: State, f: Input)
    requires cfg.Constant() && |s.hist| == 3 && f.duration >= 0.0 && !Skips(cfg, s, f) && !Gap(cfg, s, f)
    ensures forall k :: |s.sent| <= k < |Step(cfg, s, f).sent| ==> Step(cfg, s, f).sent[k].id == f.id
  {
    var d := Decide(cfg, s.nextPts, s.frameNumber, f);
    StepCopies(cfg, s, f);
    CopiesAre(d.nextPts, d.nb, d.prev, s.lastFrame, f.id);
    assert d.prev == 0;
  }

  // ---------- whole runs ----------

  /** The pictures are numbered in the order received. */
  ghost predicate Numbered(ins: seq<Input>) {
    forall k :: 0 <= k < |ins| ==> ins[k].id == k
  }

  /** The setting: constant rate, no oversized skip, numbered pictures. */
  ghost predicate Setting(cfg: Config, ins: seq<Input>) {
    cfg.Constant() && NonNegative(ins) && NeverSkips(cfg, ins) && Numbered(ins)
  }

  /** How early a picture may be shown: 1.1, or the drop threshold when that is larger. */
  function Lead(cfg: Config): real { if cfg.dropThreshold > 1.1 then cfg.dropThreshold else 1.1 }

  lemma SettingPrefix(cfg: Config, ins: seq<Input>)
    requires Setting(cfg, ins) && ins != []
    ensures Setting(cfg, ins[..|ins| - 1]) && !Skips(cfg, Run(cfg, ins[..|ins| - 1]), ins[|ins| - 1])
  {
    RunPrefix(cfg, ins);
  }

  /** No copy of a picture after the first comes more than `lead` before its position. */
  ghost predicate NotEarly(ins: seq<Input>, sent: seq<Sent>, lead: real) {
    forall j :: 0 <= j < |sent| ==>
      && 0 <= sent[j].id < |ins|
      && (sent[j].id > 0 ==> sent[j].pts as real >= ins[sent[j].id].syncIpts - lead)
  }

  /** The output position is not more than 1.1 before the start of the last frame. */
  lemma PositionFollows(cfg: Config, s: State, f: Input)
    requires cfg.Constant() && |s.hist| == 3 && f.duration >= 0.0 && !Skips(cfg, s, f)
    ensures Step(cfg, s, f).nextPts as real >= f.syncIpts - Lead(cfg) && Step(cfg, s, f).nextPts >= s.nextPts
  {
    StepCopies(cfg, s, f);
  }

  /** One frame: the copies it adds are early neither for the previous picture nor for the new one. */
  lemma StepNotEarly(cfg: Config, s: State, f: Input, last: Input)
    requires cfg.Constant() && |s.hist| == 3 && f.duration >= 0.0 && !Skips(cfg, s, f)
    requires s.lastFrame == Some(last.id) && s.nextPts as real >= last.syncIpts - Lead(cfg) && last.id != f.id
    ensures forall k :: |s.sent| <= k < |Step(cfg, s, f).sent| ==>
              var x := Step(cfg, s, f).sent[k];
              && (x.id == last.id || x.id == f.id)
              && x.pts as real >= (if x.id == f.id then f else last).syncIpts - Lead(cfg)
  {
    var d := Decide(cfg, s.nextPts, s.frameNumber, f);
    StepCopies(cfg, s, f);
    CopiesAre(d.nextPts, d.nb, d.prev, s.lastFrame, f.id);
    if Gap(cfg, s, f) {
      var first := GapRepeatsPrevious(cfg, s, f);
    } else {
      NoGapShowsNew(cfg, s, f);
    }
  }

  lemma FirstStep(cfg: Config, f: Input)
    requires !Skips(cfg, INITIAL, f)
    ensures forall k :: 0 <= k < |Step(cfg, INITIAL, f).sent| ==> Step(cfg, INITIAL, f).sent[k].id == f.id
  {
    var d := Decide(cfg, 0, 0, f);
    StepCopies(cfg, INITIAL, f);
    CopiesAre(d.nextPts, d.nb, d.prev, None, f.id);
  }

  lemma SentGrows(cfg: Config, s: State, f: Input)
    requires |s.hist| == 3
    ensures |s.sent| <= |Step(cfg, s, f).sent| && Step(cfg, s, f).sent[..|s.sent|] == s.sent
  {
  }

  /** The copies the end of the stream adds: as many as the middle one of the last three counts, all of one picture. */
  lemma FlushRepeats(cfg: Config, s: State) returns (n: int)
    requires |s.hist| == 3 && s.lastFrame.Some? && forall h :: h in s.hist ==> h >= 0
    ensures var a, b, c := s.hist[0], s.hist[1], s.hist[2];
            && n in {a, b, c}
            && ((a <= n && b <= n) || (a <= n && c <= n) || (b <= n && c <= n))
            && ((a >= n && b >= n) || (a >= n && c >= n) || (b >= n && c >= n))
    ensures var out := Flush(cfg, s).sent;
            && |s.sent| <= |out| && out[..|s.sent|] == s.sent && (|out| == |s.sent| || |out| == |s.sent| + n)
            && (n as real <= cfg.errorThreshold * 30.0 ==> |out| == |s.sent| + n)
            && forall k :: |s.sent| <= k < |out| ==> out[k] == Sent(s.nextPts + k - |s.sent|, s.lastFrame.value)
  {
    n := Median(s);
    var (t, m, p) := Flushed(cfg, s);
    assert t.nextPts == s.nextPts && t.lastFrame == s.lastFrame && t.sent == s.sent && m in {0, n};
    assert n as real <= cfg.errorThreshold * 30.0 ==> !TooMany(cfg, AtEnd(s), n, n) && m == n;
    MedianIsMiddle(s.hist[0], s.hist[1], s.hist[2]);
    assert n in s.hist;
    CopiesAre(s.nextPts, n, n, s.lastFrame, s.lastFrame.value);
  }

  /** How many copies of the previous picture frame k asks for, none before the first frame. */
  function PrevAt(cfg: Config, ins: seq<Input>, k: int): int
    requires k < |ins|
  {
    if k < 0 then 0
    else Decide(cfg, Run(cfg, ins[..k]).nextPts, Run(cfg, ins[..k]).frameNumber, ins[k]).prev
  }

  /** What the flush takes the middle of: the counts of the last three frames. */
  lemma {:induction false} HistoryIs(cfg: Config, ins: seq<Input>)
    ensures var n := |ins|;
            Run(cfg, ins).hist == [PrevAt(cfg, ins, n - 1), PrevAt(cfg, ins, n - 2), PrevAt(cfg, ins, n - 3)]
  {
    if ins != [] {
      var n := |ins| - 1;
      HistoryIs(cfg, ins[..n]);
      PrevOfPrefix(cfg, ins, n, n - 1);
      PrevOfPrefix(cfg, ins, n, n - 2);
      HistoryNext(cfg, Run(cfg, ins[..n]), ins[n]);
    }
  }

  lemma PrevOfPrefix(cfg: Config, ins: seq<Input>, n: nat, k: int)
    requires k < n <= |ins|
    ensures PrevAt(cfg, ins[..n], k) == PrevAt(cfg, ins, k)
  {
    if k >= 0 { assert ins[..n][..k] == ins[..k]; }
  }

  lemma HistoryNext(cfg: Config, s: State, f: Input)
    requires |s.hist| == 3
    ensures Step(cfg, s, f).hist == [Decide(cfg, s.nextPts, s.frameNumber, f).prev, s.hist[0], s.hist[1]]
  {
    assert s.hist[..2] == [s.hist[0], s.hist[1]];
  }

  /** Over any run at constant rate, flush included, no picture after the first is shown before its lead. */
  lemma {:induction false} NeverShownEarly(cfg: Config, ins: seq<Input>)
    requires Setting(cfg, ins)
    ensures NotEarly(ins, Run(cfg, ins).sent, Lead(cfg)) && NotEarly(ins, Flush(cfg, Run(cfg, ins)).sent, Lead(cfg))
    ensures ins != [] ==> Run(cfg, ins).nextPts as real >= ins[|ins| - 1].syncIpts - Lead(cfg)
                          && Run(cfg, ins).lastFrame == Some(|ins| - 1)
  {
    if ins != [] {
      var n := |ins| - 1;
      var s, f := Run(cfg, ins[..n]), ins[n];
      SettingPrefix(cfg, ins);
      NeverShownEarly(cfg, ins[..n]);
      NextNotEarly(cfg, ins, s, Run(cfg, ins));
    }
    FlushNotEarly(cfg, ins);
  }

  lemma NextNotEarly(cfg: Config, ins: seq<Input>, s: State, t: State)
    requires cfg.Constant() && NonNegative(ins) && Numbered(ins) && ins != []
    requires |s.hist| == 3 && !Skips(cfg, s, ins[|ins| - 1]) && t == Step(cfg, s, ins[|ins| - 1])
    requires NotEarly(ins[..|ins| - 1], s.sent, Lead(cfg)) && (|ins| == 1 ==> s == INITIAL)
    requires |ins| > 1 ==> s.nextPts as real >= ins[|ins| - 2].syncIpts - Lead(cfg) && s.lastFrame == Some(|ins| - 2)
    ensures NotEarly(ins, t.sent, Lead(cfg)) && t.nextPts as real >= ins[|ins| - 1].syncIpts - Lead(cfg)
    ensures t.lastFrame == Some(|ins| - 1)
  {
    hide Step, NotEarly, Skips;
    var n := |ins| - 1;
    var f := ins[n];
    PositionFollows(cfg, s, f);
    StepCopies(cfg, s, f);
    SentGrows(cfg, s, f);
    if n == 0 { FirstStep(cfg, f); } else { StepNotEarly(cfg, s, f, ins[n - 1]); }
    AppendNotEarly(ins, n, s.sent, t.sent, Lead(cfg));
  }

  lemma FlushNotEarly(cfg: Config, ins: seq<Input>)
    requires NonNegative(ins) && NotEarly(ins, Run(cfg, ins).sent, Lead(cfg))
    requires ins != [] ==> Run(cfg, ins).nextPts as real >= ins[|ins| - 1].syncIpts - Lead(cfg)
                           && Run(cfg, ins).lastFrame == Some(|ins| - 1)
    ensures NotEarly(ins, Flush(cfg, Run(cfg, ins)).sent, Lead(cfg))
  {
    HistoryNonNegative(cfg, ins);
    if ins != [] {
      var n := FlushRepeats(cfg, Run(cfg, ins));
      FlushAppends(ins, Run(cfg, ins).sent, Flush(cfg, Run(cfg, ins)).sent, Run(cfg, ins).nextPts, Lead(cfg));
    }
  }

  lemma FlushAppends(ins: seq<Input>, before: seq<Sent>, now: seq<Sent>, next: int, lead: real)
    requires ins != [] && NotEarly(ins, before, lead) && |before| <= |now| && now[..|before|] == before
    requires next as real >= ins[|ins| - 1].syncIpts - lead
    requires forall k :: |before| <= k < |now| ==> now[k] == Sent(next + k - |before|, |ins| - 1)
    ensures NotEarly(ins, now, lead)
  {
    forall j | 0 <= j < |now|
      ensures 0 <= now[j].id < |ins| && (now[j].id > 0 ==> now[j].pts as real >= ins[now[j].id].syncIpts - lead)
    {
      if j < |before| { assert now[j] == before[j]; }
    }
  }

  lemma AppendNotEarly(ins: seq<Input>, n: nat, before: seq<Sent>, now: seq<Sent>, lead: real)
    requires n == |ins| - 1 && NotEarly(ins[..n], before, lead) && |before| <= |now| && now[..|before|] == before
    requires forall k :: |before| <= k < |now| ==>
               && 0 <= now[k].id <= n
               && (now[k].id > 0 ==> now[k].pts as real >= ins[now[k].id].syncIpts - lead)
    ensures NotEarly(ins, now, lead)
  {
    forall j | 0 <= j < |now|
      ensures 0 <= now[j].id < |ins| && (now[j].id > 0 ==> now[j].pts as real >= ins[now[j].id].syncIpts - lead)
    {
      if j < |before| { assert now[j] == before[j]; }
    }
  }

  // ---------- no picture is late ----------

  /** Each picture sent has a copy at most 2.1 after its end. */
  ghost predicate NotLate(ins: seq<Input>, sent: seq<Sent>) {
    forall j :: 0 <= j < |sent| ==> 0 <= sent[j].id < |ins| && SeenBy(sent, j, ins[sent[j].id].End() + 2.1)
  }

  /** The picture of copy j has a copy up to there that is sent by the time. */
  ghost predicate SeenBy(sent: seq<Sent>, j: nat, time: real)
    requires j < |sent|
  {
    exists i :: 0 <= i <= j && sent[i].id == sent[j].id && sent[i].pts as real <= time
  }

  lemma StillSeen(before: seq<Sent>, now: seq<Sent>, j: nat, time: real)
    requires j < |before| <= |now| && now[..|before|] == before && SeenBy(before, j, time)
    ensures now[j] == before[j] && SeenBy(now, j, time)
  {
    var i :| 0 <= i <= j && before[i].id == before[j].id && before[i].pts as real <= time;
    assert now[i] == before[i] && now[j] == before[j];
  }

  /** Of the copies one frame adds, the first of each of the two pictures is at most 2.1 after the picture's end. */
  lemma StepNotLate(cfg: Config, s: State, f: Input, last: Input, k: nat) returns (i: nat)
    requires cfg.Constant() && |s.hist| == 3 && f.duration >= 0.0 && !Skips(cfg, s, f)
    requires s.lastFrame == Some(last.id) && last.id != f.id
    requires last.End() - s.nextPts as real >= -2.1 && f.End() - s.nextPts as real >= -2.1
    requires |s.sent| <= k < |Step(cfg, s, f).sent|
    ensures |s.sent| <= i <= k && Step(cfg, s, f).sent[i].id == Step(cfg, s, f).sent[k].id
    ensures Step(cfg, s, f).sent[k].id in {last.id, f.id}
    ensures Step(cfg, s, f).sent[i].pts as real
            <= (if Step(cfg, s, f).sent[k].id == f.id then f else last).End() + 2.1
  {
    var d := Decide(cfg, s.nextPts, s.frameNumber, f);
    StepCopies(cfg, s, f);
    CopiesAre(d.nextPts, d.nb, d.prev, s.lastFrame, f.id);
    PrevAtMostNb(cfg, s.nextPts, s.frameNumber, f);
    i := |s.sent| + if k - |s.sent| < d.prev then 0 else d.prev;
    var start := f.syncIpts - s.nextPts as real;
    assert d.prev > 0 ==> d.nextPts == s.nextPts && d.prev as real <= start - 0.1;
    assert d.nextPts as real <= f.End() + 2.1;
  }

  lemma FirstNotLate(cfg: Config, f: Input)
    requires cfg.Constant() && f.duration >= 0.0 && !Skips(cfg, INITIAL, f) && f.End() >= -2.1
    ensures forall k :: 0 <= k < |Step(cfg, INITIAL, f).sent| ==> Step(cfg, INITIAL, f).sent[k].id == f.id
    ensures Step(cfg, INITIAL, f).sent != [] ==> Step(cfg, INITIAL, f).sent[0].pts as real <= f.End() + 2.1
  {
    var d := Decide(cfg, 0, 0, f);
    StepCopies(cfg, INITIAL, f);
    CopiesAre(d.nextPts, d.nb, d.prev, None, f.id);
  }

  lemma NextNotLate(cfg: Config, ins: seq<Input>, s: State, t: State)
    requires cfg.Constant() && NonNegative(ins) && Numbered(ins) && ins != []
    requires |s.hist| == 3 && !Skips(cfg, s, ins[|ins| - 1]) && t == Step(cfg, s, ins[|ins| - 1])
    requires NotLate(ins[..|ins| - 1], s.sent) && (|ins| == 1 ==> s == INITIAL)
    requires ins[|ins| - 1].End() - s.nextPts as real >= -2.1
    requires |ins| > 1 ==> ins[|ins| - 2].End() - s.nextPts as real >= -2.1 && s.lastFrame == Some(|ins| - 2)
    ensures NotLate(ins, t.sent)
  {
    hide Step, Skips, SeenBy;
    var n := |ins| - 1;
    SentGrows(cfg, s, ins[n]);
    forall j: nat | j < |t.sent| ensures 0 <= t.sent[j].id < |ins| && SeenBy(t.sent, j, ins[t.sent[j].id].End() + 2.1) {
      if j < |s.sent| {
        StillSeen(s.sent, t.sent, j, ins[s.sent[j].id].End() + 2.1);
      } else if n > 0 {
        CopySeen(cfg, s, ins[n], ins[n - 1], j);
      } else {
        FirstNotLate(cfg, ins[0]);
        CopyOfFirst(t.sent, j, ins[0]);
      }
    }
  }

  lemma CopyOfFirst(sent: seq<Sent>, j: nat, f: Input)
    requires j < |sent| && (forall k :: 0 <= k < |sent| ==> sent[k].id == f.id) && sent[0].pts as real <= f.End() + 2.1
    ensures SeenBy(sent, j, f.End() + 2.1)
  {
    assert sent[0].id == sent[j].id;
  }

  lemma CopySeen(cfg: Config, s: State, f: Input, last: Input, j: nat)
    requires cfg.Constant() && |s.hist| == 3 && f.duration >= 0.0 && !Skips(cfg, s, f)
    requires s.lastFrame == Some(last.id) && last.id != f.id
    requires last.End() - s.nextPts as real >= -2.1 && f.End() - s.nextPts as real >= -2.1
    requires |s.sent| <= j < |Step(cfg, s, f).sent|
    ensures Step(cfg, s, f).sent[j].id in {last.id, f.id}
    ensures SeenBy(Step(cfg, s, f).sent, j, (if Step(cfg, s, f).sent[j].id == f.id then f else last).End() + 2.1)
  {
    hide Step, Skips;
    var i := StepNotLate(cfg, s, f, last, j);
  }

  /** Frame ends never decrease, from -2.1 on. */
  ghost predicate Rising(ins: seq<Input>) {
    && (ins != [] ==> ins[0].End() >= -2.1)
    && (forall i :: 0 < i < |ins| ==> ins[i - 1].End() <= ins[i].End())
  }

  /** What the drift bound says of the frame before the last and of the last one, when the last one comes. */
  lemma DriftBefore(cfg: Config, ins: seq<Input>)
    requires cfg.Constant() && NonNegative(ins) && NeverSkips(cfg, ins) && Rising(ins) && ins != []
    ensures var n, next := |ins| - 1, Run(cfg, ins[..|ins| - 1]).nextPts;
            && ins[n].End() - next as real >= -2.1 && Rising(ins[..n])
            && (n > 0 ==> ins[n - 1].End() - next as real >= -2.1)
  {
    var n := |ins| - 1;
    RunPrefix(cfg, ins);
    RisingPrefix(ins, n);
    if n > 0 {
      hide Run, NeverSkips, NonNegative;
      assert ins[..n][|ins[..n]| - 1] == ins[n - 1];
      DriftBound(cfg, ins[..n]);
    } else {
      assert Run(cfg, ins[..n]) == INITIAL;
    }
  }

  lemma RisingPrefix(ins: seq<Input>, n: nat)
    requires Rising(ins) && n < |ins|
    ensures Rising(ins[..n]) && (n > 0 ==> ins[n - 1].End() <= ins[n].End()) && (n == 0 ==> ins[n].End() >= -2.1)
  {
  }

  /** With non-decreasing frame ends every picture that is shown at all first appears at most 2.1 after its end. */
  lemma {:induction false} NeverShownLate(cfg: Config, ins: seq<Input>)
    requires Setting(cfg, ins) && Rising(ins)
    ensures NotLate(ins, Run(cfg, ins).sent)
    ensures ins != [] ==> Run(cfg, ins).lastFrame == Some(|ins| - 1)
  {
    if ins != [] {
      hide NotLate, Rising, Setting, Step, NonNegative, NeverSkips, Numbered, Skips;
      var n := |ins| - 1;
      SettingPrefix(cfg, ins);
      SettingSays(cfg, ins);
      DriftBefore(cfg, ins);
      NeverShownLate(cfg, ins[..n]);
      LastFrameIs(cfg, ins);
      LateNext(cfg, ins);
    }
  }

  lemma LateNext(cfg: Config, ins: seq<Input>)
    requires cfg.Constant() && NonNegative(ins) && Numbered(ins) && ins != []
    requires var n := |ins| - 1;
             var s := Run(cfg, ins[..n]);
             && !Skips(cfg, s, ins[n]) && NotLate(ins[..n], s.sent) && ins[n].End() - s.nextPts as real >= -2.1
             && (n > 0 ==> ins[n - 1].End() - s.nextPts as real >= -2.1 && s.lastFrame == Some(n - 1))
    ensures NotLate(ins, Run(cfg, ins).sent)
  {
    hide NotLate, Step, Skips;
    NextNotLate(cfg, ins, Run(cfg, ins[..|ins| - 1]), Run(cfg, ins));
  }

  lemma SettingSays(cfg: Config, ins: seq<Input>)
    requires Setting(cfg, ins)
    ensures cfg.Constant() && NonNegative(ins) && NeverSkips(cfg, ins) && Numbered(ins)
  {
  }

  lemma LastFrameIs(cfg: Config, ins: seq<Input>)
    requires Numbered(ins) && ins != []
    ensures Run(cfg, ins).lastFrame == Some(|ins| - 1)
  {
  }

  // ---------- which frames are sent ----------

  /** At constant rate a frame adds no copy exactly when it ends too early for the output position. */
  lemma DroppedIff(cfg: Config, s: State, f: Input)
    requires cfg.Constant() && |s.hist| == 3 && f.duration >= 0.0 && !Skips(cfg, s, f)
    requires cfg.sync.Cfr? || s.frameNumber > 0
    ensures var drift := f.End() - s.nextPts as real;
            Step(cfg, s, f).sent == s.sent
            <==> drift < -1.1 || (cfg.dropThreshold != 0.0 && drift < cfg.dropThreshold && s.frameNumber > 0)
  {
    var d := Decide(cfg, s.nextPts, s.frameNumber, f);
    StepCopies(cfg, s, f);
    CopiesAre(d.nextPts, d.nb, d.prev, s.lastFrame, f.id);
    if d.nb > 0 { assert |Step(cfg, s, f).sent| == |s.sent| + d.nb; }
  }

  /** At variable rate a frame is sent exactly when it ends at most 0.6 before the output position, and once. */
  lemma VariableRateStep(cfg: Config, s: State, f: Input)
    requires cfg.sync.Vfr? && |s.hist| == 3 && f.duration >= 0.0
    ensures var t := Step(cfg, s, f);
            if f.End() - s.nextPts as real <= -0.6 then t.sent == s.sent && t.nextPts == s.nextPts
            else exists p: int ::
                   && t.sent == s.sent + [Sent(p, f.id)] && t.nextPts == p + 1 && p >= s.nextPts
                   && f.syncIpts - 0.6 <= p as real <= f.End() + 0.6
  {
    var d := Decide(cfg, s.nextPts, s.frameNumber, f);
    assert !Skips(cfg, s, f);
    StepCopies(cfg, s, f);
    assert d.nb > 0 ==> Copies(d.nextPts, 1, 0, s.lastFrame, f.id) == [Sent(d.nextPts, f.id)] by {
      assert Copies(d.nextPts, 0, 0, s.lastFrame, f.id) == [];
    }
  }

  /** Passthrough sends every frame once, at its position rounded. */
  lemma {:induction false} PassthroughSendsEach(cfg: Config, ins: seq<Input>)
    requires cfg.sync.Passthrough?
    ensures var out := Run(cfg, ins).sent;
            && |out| == |ins|
            && forall k :: 0 <= k < |ins| ==>
                 out[k].id == ins[k].id && -0.5 <= ins[k].syncIpts - out[k].pts as real <= 0.5
  {
    if ins != [] {
      hide Step;
      var n := |ins| - 1;
      PassthroughSendsEach(cfg, ins[..n]);
      PassthroughStep(cfg, Run(cfg, ins[..n]), ins[n]);
    }
  }

  lemma PassthroughStep(cfg: Config, s: State, f: Input)
    requires cfg.sync.Passthrough? && |s.hist| == 3
    ensures exists p: int :: Step(cfg, s, f).sent == s.sent + [Sent(p, f.id)] && -0.5 <= f.syncIpts - p as real <= 0.5
  {
    var p := Llrint(f.syncIpts);
    assert !Skips(cfg, s, f);
    StepCopies(cfg, s, f);
    assert Copies(p, 0, 0, s.lastFrame, f.id) == [];
    assert Copies(p, 1, 0, s.lastFrame, f.id) == [Sent(p, f.id)];
  }
}

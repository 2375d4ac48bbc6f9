/** What the two counters of the frame-rate conversion count: repeats of pictures, and pictures never shown. */
module PictureCounts {
  import opened Common
  import opened VideoSync
  import opened PictureTimes

  /** The pictures that have been sent at least once. */
  function Shown(sent: seq<Sent>): set<int> { set x | x in sent :: x.id }

  lemma ShownAppend(a: seq<Sent>, b: seq<Sent>)
    ensures Shown(a + b) == Shown(a) + Shown(b)
  {
  }

  lemma ShownCopies(start: int, n: int, prev: int, last: int, id: int)
    requires 0 <= prev <= n
    ensures Shown(Copies(start, n, prev, Some(last), id))
            == (if prev > 0 then {last} else {}) + (if n > prev then {id} else {})
  {
    var out := Copies(start, n, prev, Some(last), id);
    CopiesAre(start, n, prev, Some(last), id);
    if prev > 0 { assert out[0].id == last; }
    if n > prev { assert out[prev].id == id; }
    forall x | x in out ensures (x.id == last && prev > 0) || (x.id == id && n > prev) {
      var i :| 0 <= i < |out| && out[i] == x;
    }
  }

  lemma ShownFirst(start: int, n: int, prev: int, id: int)
    requires n >= 0
    ensures Shown(Copies(start, n, prev, None, id)) == if n > 0 then {id} else {}
  {
    var out := Copies(start, n, prev, None, id);
    CopiesAre(start, n, prev, None, id);
    if n > 0 { assert out[0].id == id; }
  }

  /**
   * After n frames: the copies that are not duplicates are as many as the pictures shown, and a drop is pending
   * exactly while the last picture has not been shown.
   */
  ghost predicate Counted(s: State, n: nat) {
    && (forall x :: x in Shown(s.sent) ==> 0 <= x < n)
    && |s.sent| - s.dup == |Shown(s.sent)|
    && s.lastFrame == (if n == 0 then None else Some(n - 1))
    && s.lastDropped == Flag(n > 0 && n - 1 !in Shown(s.sent))
  }

  /** The first frame, in a gap, does not ask for as many copies of a previous picture as there are copies. */
  predicate FirstFits(cfg: Config, f: Input) {
    var d := Decide(cfg, 0, 0, f);
    d.nb == 0 || d.nb != d.prev
  }

  /** The pictures and the number of copies one frame adds. */
  lemma StepShown(cfg: Config, s: State, f: Input, last: int)
    requires |s.hist| == 3 && f.duration >= 0.0 && !Skips(cfg, s, f) && s.lastFrame == Some(last)
    ensures var d, t := Decide(cfg, s.nextPts, s.frameNumber, f), Step(cfg, s, f);
            && 0 <= d.prev <= d.nb && |t.sent| == |s.sent| + d.nb && t.lastFrame == Some(f.id)
            && Shown(t.sent)
               == Shown(s.sent) + (if d.prev > 0 then {last} else {}) + (if d.nb > d.prev then {f.id} else {})
  {
    var d := Decide(cfg, s.nextPts, s.frameNumber, f);
    PrevAtMostNb(cfg, s.nextPts, s.frameNumber, f);
    StepCopies(cfg, s, f);
    hide Step, Decide, Shown, Skips, Copies;
    CopiesAre(d.nextPts, d.nb, d.prev, s.lastFrame, f.id);
    ShownCopies(d.nextPts, d.nb, d.prev, last, f.id);
    ShownAppend(s.sent, Copies(d.nextPts, d.nb, d.prev, s.lastFrame, f.id));
  }

  lemma StepCounts(cfg: Config, s: State, f: Input, n: nat)
    requires n > 0 && |s.hist| == 3 && f.duration >= 0.0 && !Skips(cfg, s, f) && Counted(s, n) && f.id == n
    ensures Counted(Step(cfg, s, f), n + 1)
  {
    hide Step, Decide, Shown, Skips;
    var d := Decide(cfg, s.nextPts, s.frameNumber, f);
    StepShown(cfg, s, f, n - 1);
    StepDup(cfg, s, f);
    OneMore(Shown(s.sent), d.prev > 0, n - 1, d.nb > d.prev, n, Shown(Step(cfg, s, f).sent));
  }

  lemma StepDup(cfg: Config, s: State, f: Input)
    requires |s.hist| == 3 && f.duration >= 0.0 && !Skips(cfg, s, f) && s.lastDropped in {0, 1}
    ensures var d, t := Decide(cfg, s.nextPts, s.frameNumber, f), Step(cfg, s, f);
            && t.dup == s.dup + d.nb - Flag(d.prev > 0 && s.lastDropped == 1) - Flag(d.nb > d.prev)
            && t.lastDropped == Flag(d.nb == d.prev)
  {
    PrevAtMostNb(cfg, s.nextPts, s.frameNumber, f);
  }

  /** Adding two elements under conditions. */
  lemma OneMore(before: set<int>, p: bool, x: int, q: bool, y: int, now: set<int>)
    requires x != y && y !in before && now == before + (if p then {x} else {}) + (if q then {y} else {})
    ensures |now| == |before| + Flag(p && x !in before) + Flag(q)
    ensures y in now <==> q
  {
    var mid := before + if p then {x} else {};
    assert |mid| == |before| + Flag(p && x !in before);
    assert now == mid + if q then {y} else {};
  }

  lemma FirstCounts(cfg: Config, f: Input)
    requires f.duration >= 0.0 && !Skips(cfg, INITIAL, f) && f.id == 0
    ensures var t := Step(cfg, INITIAL, f);
            && (FirstFits(cfg, f) ==> Counted(t, 1))
            && (!FirstFits(cfg, f) ==> |t.sent| - t.dup == 0 && Shown(t.sent) == {0} && t.lastDropped == 1)
  {
    hide Step, Decide, Shown, Skips;
    FirstShown(cfg, f);
    StepDup(cfg, INITIAL, f);
  }

  lemma FirstShown(cfg: Config, f: Input)
    requires f.duration >= 0.0 && !Skips(cfg, INITIAL, f)
    ensures var d, t := Decide(cfg, 0, 0, f), Step(cfg, INITIAL, f);
            && 0 <= d.prev <= d.nb && |t.sent| == d.nb && t.lastFrame == Some(f.id)
            && Shown(t.sent) == if d.nb > 0 then {f.id} else {}
  {
    var d := Decide(cfg, 0, 0, f);
    PrevAtMostNb(cfg, 0, 0, f);
    StepCopies(cfg, INITIAL, f);
    hide Step, Decide, Shown, Skips, Copies;
    CopiesAre(d.nextPts, d.nb, d.prev, None, f.id);
    ShownFirst(d.nextPts, d.nb, d.prev, f.id);
    ShownAppend([], Copies(d.nextPts, d.nb, d.prev, None, f.id));
    NothingShown();
  }

  lemma NothingShown()
    ensures Shown([]) == {}
  {
  }

  lemma {:induction false} RunIsCounted(cfg: Config, ins: seq<Input>)
    requires NonNegative(ins) && NeverSkips(cfg, ins) && Numbered(ins) && (ins != [] ==> FirstFits(cfg, ins[0]))
    ensures Counted(Run(cfg, ins), |ins|)
  {
    if ins != [] {
      hide Step, Counted, FirstFits, Skips;
      RunPrefix(cfg, ins);
      var n := |ins| - 1;
      RunIsCounted(cfg, ins[..n]);
      if n == 0 { FirstCounts(cfg, ins[0]); } else { StepCounts(cfg, Run(cfg, ins[..n]), ins[n], n); }
    }
  }

  /**
   * What the counters mean, in any mode: duplicates are the copies beyond the first of each picture, and drops are
   * the pictures never shown, without the one whose drop is pending.
   */
  lemma CountersMean(cfg: Config, ins: seq<Input>)
    requires NonNegative(ins) && NeverSkips(cfg, ins) && Numbered(ins) && (ins != [] ==> FirstFits(cfg, ins[0]))
    ensures Counted(Run(cfg, ins), |ins|)
    ensures var s := Run(cfg, ins);
            && s.dup == |s.sent| - |Shown(s.sent)|
            && s.drop == |ins| - |Shown(s.sent)| - Flag(ins != [] && |ins| - 1 !in Shown(s.sent))
  {
    hide Run, Counted, Recounts, Shown, NeverSkips, FirstFits;
    RunIsCounted(cfg, ins);
    Ledger(cfg, ins);
    CountedSays(Run(cfg, ins), |ins|);
  }

  lemma CountedSays(s: State, n: nat)
    requires Counted(s, n)
    ensures |s.sent| - s.dup == |Shown(s.sent)| && s.lastDropped == Flag(n > 0 && n - 1 !in Shown(s.sent))
  {
  }

  /** A first picture repeated through a gap can be shown and yet count as pending, each of its copies a duplicate. */
  lemma FirstPictureMiscounted()
    ensures var cfg, f := Config(Cfr, 0.0, 108000.0), Input(0, 5.2, 0.1);
            && !FirstFits(cfg, f) && |Step(cfg, INITIAL, f).sent| == Step(cfg, INITIAL, f).dup == 5
            && Shown(Step(cfg, INITIAL, f).sent) == {0} && Step(cfg, INITIAL, f).lastDropped == 1
  {
    hide Step, Decide, Shown, Skips;
    var cfg, f := Config(Cfr, 0.0, 108000.0), Input(0, 5.2, 0.1);
    FirstDecision(cfg, f);
    FirstCounts(cfg, f);
    FirstShown(cfg, f);
    StepDup(cfg, INITIAL, f);
  }

  lemma FirstDecision(cfg: Config, f: Input)
    requires cfg == Config(Cfr, 0.0, 108000.0) && f == Input(0, 5.2, 0.1)
    ensures Decide(cfg, 0, 0, f) == Decision(5, 5, 0) && !Skips(cfg, INITIAL, f) && !FirstFits(cfg, f)
  {
    assert Llrint(5.3) == 5 && Llrint(4.6) == 5;
  }
}

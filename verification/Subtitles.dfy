/** Delayed subtitles: each one is held back until its successor, real or heartbeat-made, fixes its duration. */
module Subtitles {
  import opened AvMath
  import opened Common

  /** Start in microseconds, display time in milliseconds (an unsigned 32-bit field). */
  datatype Subtitle = Subtitle(pts: int, endDisplayTime: int, rects: nat, text: string) {
    predicate Valid() { 0 <= endDisplayTime < TWO_32 }

    /** The time it disappears. */
    function End(): int { pts + 1000 * endDisplayTime }
  }

  /** The conversion applied when an int meets the unsigned display time. */
  function ToUint32(x: int): int { x % TWO_32 }

  /** The display time, in milliseconds, that ends `prev` when `next` starts. */
  function Duration(prev: Subtitle, next: Subtitle): int {
    ToInt32(Rescale(next.pts - prev.pts, 1000, AV_TIME_BASE))
  }

  function Shortened(prev: Subtitle, next: Subtitle): Subtitle {
    var end := Duration(prev, next);
    if ToUint32(end) < prev.endDisplayTime then prev.(endDisplayTime := ToUint32(end)) else prev
  }

  datatype State = State(held: Option<Subtitle>, sent: seq<Subtitle>)

  function Feed(fix: bool, s: State, sub: Subtitle): State {
    if !fix then s.(sent := s.sent + [sub])
    else if s.held.None? || Duration(s.held.value, sub) <= 0 then s.(held := Some(sub))
    else State(Some(sub), s.sent + [Shortened(s.held.value, sub)])
  }

  /** A heartbeat splits a held subtitle that shows something and started before the signal. */
  predicate Splits(fix: bool, s: State, signal: int) {
    fix && s.held.Some? && s.held.value.rects > 0 && signal > s.held.value.pts
  }

  function Heartbeat(fix: bool, s: State, signal: int): State {
    if Splits(fix, s, signal) then Feed(fix, s, s.held.value.(pts := signal)) else s
  }

  class Frame {
    var buf: Option<Subtitle>

    constructor ()
      ensures buf == None
    {
      buf := None;
    }
  }

  class Decoder {
    const fixSubDuration: bool
    /** The held subtitle's frame and a spare one; they swap places. */
    var prev0: Frame
    var prev1: Frame
    const heartbeat: Frame
    var sent: seq<Subtitle>

    ghost predicate Valid() reads this, prev0 {
      prev0 != prev1 && heartbeat != prev0 && heartbeat != prev1 && (!fixSubDuration ==> prev0.buf == None)
    }

    function Now(): State reads this, prev0 { State(prev0.buf, sent) }

    constructor (fix: bool)
      ensures Valid() && fixSubDuration == fix && Now() == State(None, [])
      ensures fresh(prev0) && fresh(prev1) && fresh(heartbeat)
    {
      fixSubDuration := fix;
      prev0 := new Frame();
      prev1 := new Frame();
      heartbeat := new Frame();
      sent := [];
    }

    method ProcessSubtitle(frame: Frame)
      requires Valid() && frame.buf.Some? && frame != prev0 && frame != prev1
      modifies this, frame, prev0, prev1
      ensures Valid() && {prev0, prev1} == {old(prev0), old(prev1)}
      ensures Now() == Feed(fixSubDuration, old(Now()), old(frame.buf.value))
      ensures frame.buf == None
    {
      var sub := frame.buf.value;
      if fixSubDuration {
        var end := 1;
        if prev0.buf.Some? {
          var prev := prev0.buf.value;
          end := ToInt32(Rescale(sub.pts - prev.pts, 1000, AV_TIME_BASE));
          if ToUint32(end) < prev.endDisplayTime {
            prev0.buf := Some(prev.(endDisplayTime := ToUint32(end)));
          }
        }
        prev1.buf := frame.buf;
        frame.buf := None;
        var out := prev0;
        prev0, prev1 := prev1, prev0;
        if end <= 0 || out.buf.None? { return; }
        sent := sent + [out.buf.value];
        out.buf := None;
      } else {
        sent := sent + [sub];
        frame.buf := None;
      }
    }

    method FixSubDurationHeartbeat(signal: int)
      requires Valid()
      modifies this, prev0, prev1, heartbeat
      ensures Valid() && {prev0, prev1} == {old(prev0), old(prev1)}
      ensures Now() == Heartbeat(fixSubDuration, old(Now()), signal)
    {
      if !fixSubDuration || prev0.buf.None? || prev0.buf.value.rects == 0 || signal <= prev0.buf.value.pts { return; }
      heartbeat.buf := Some(prev0.buf.value.(pts := signal));
      ProcessSubtitle(heartbeat);
    }
  }

  // ---------- whole runs ----------

  datatype Event = Decoded(sub: Subtitle) | Beat(signal: int)

  function Step(fix: bool, s: State, e: Event): State {
    match e
    case Decoded(sub) => Feed(fix, s, sub)
    case Beat(signal) => Heartbeat(fix, s, signal)
  }

  function Run(fix: bool, es: seq<Event>): State {
    if es == [] then State(None, []) else Step(fix, Run(fix, es[..|es| - 1]), es[|es| - 1])
  }

  /** All subtitles that entered the decoder's queue, decoded or made by a heartbeat, in order. */
  function Entered(es: seq<Event>): seq<Subtitle> {
    if es == [] then []
    else
      var before := Entered(es[..|es| - 1]);
      match es[|es| - 1]
      case Decoded(sub) => before + [sub]
      case Beat(signal) =>
        if before != [] && before[|before| - 1].rects > 0 && signal > before[|before| - 1].pts
        then before + [before[|before| - 1].(pts := signal)] else before
  }

  /** Each subtitle that has a successor, shortened to it, in order; left out when no positive duration remains. */
  function Due(fs: seq<Subtitle>): seq<Subtitle> {
    if |fs| < 2 then []
    else
      var p, q := fs[|fs| - 2], fs[|fs| - 1];
      Due(fs[..|fs| - 1]) + if Duration(p, q) > 0 then [Shortened(p, q)] else []
  }

  /**
   * With duration fixing, at every moment the last subtitle that entered is held and each earlier one has been sent
   * exactly once, in order, or dropped because its computed duration is not positive.
   */
  lemma {:induction false} SentExactlyOnce(es: seq<Event>)
    ensures var s, fs := Run(true, es), Entered(es);
            && s.sent == Due(fs)
            && s.held == if fs == [] then None else Some(fs[|fs| - 1])
  {
    if es != [] {
      SentExactlyOnce(es[..|es| - 1]);
      var fs, before := Entered(es), Entered(es[..|es| - 1]);
      if fs != before { assert fs[..|fs| - 1] == before; }
    }
  }

  /** Without duration fixing every decoded subtitle passes straight through. */
  lemma {:induction false} PassThrough(es: seq<Event>)
    ensures Run(false, es).held == None
    ensures Run(false, es).sent == OnlyDecoded(es)
  {
    if es != [] { PassThrough(es[..|es| - 1]); }
  }

  function OnlyDecoded(es: seq<Event>): seq<Subtitle> {
    if es == [] then []
    else OnlyDecoded(es[..|es| - 1]) + if es[|es| - 1].Decoded? then [es[|es| - 1].sub] else []
  }

  /** A sent subtitle ends within half a millisecond of its successor's start exactly when that lies later. */
  lemma EndsBySuccessor(p: Subtitle, q: Subtitle)
    requires p.Valid() && Duration(p, q) > 0
    ensures Shortened(p, q).Valid() && Shortened(p, q).endDisplayTime <= p.endDisplayTime
    ensures Shortened(p, q).End() <= q.pts + 500 <==> p.pts < q.pts
  {
    var ms := Rescale(q.pts - p.pts, 1000, AV_TIME_BASE);
    RescaleNearest(q.pts - p.pts, 1000, AV_TIME_BASE);
    assert Duration(p, q) == ToInt32(ms);
  }

  /** The successor rule on whole runs: subtitles entering at strictly increasing times never overlap by more. */
  lemma {:induction false} NoOverlap(fs: seq<Subtitle>, k: nat)
    requires forall i :: 0 <= i < |fs| ==> fs[i].Valid()
    requires forall i :: 0 < i < |fs| ==> fs[i - 1].pts < fs[i].pts
    requires k < |Due(fs)|
    ensures exists i :: 0 <= i < |fs| - 1 && Due(fs)[k].pts == fs[i].pts && Due(fs)[k].End() <= fs[i + 1].pts + 500
  {
    var n := |fs|;
    var p, q := fs[n - 2], fs[n - 1];
    if k < |Due(fs[..n - 1])| {
      NoOverlap(fs[..n - 1], k);
    } else {
      EndsBySuccessor(p, q);
      assert Due(fs)[k].pts == fs[n - 2].pts && Due(fs)[k].End() <= fs[n - 2 + 1].pts + 500;
    }
  }

  /** A jump back of 2^32 ms wraps to a positive duration: the subtitle is sent and outlives its successor's start. */
  lemma WrappedDurationIsSent()
    ensures var p := Subtitle(TWO_32 * 1000, 5000, 1, "");
            var q := Subtitle(1000, 5000, 1, "");
            Duration(p, q) == 1 && Shortened(p, q).End() > q.pts + 500
  {
  }

  /** The time from p to q, rounded to milliseconds, fits an int. */
  predicate Fits(p: Subtitle, q: Subtitle) { q.pts - p.pts + 500 < 2147483648000 }

  /** A time not before p in milliseconds: what Duration makes of it. */
  lemma DurationIs(p: Subtitle, q: Subtitle)
    requires p.pts < q.pts
    ensures var ms := (q.pts - p.pts + 500) / 1000;
            Rescale(q.pts - p.pts, 1000, AV_TIME_BASE) == ms && (Fits(p, q) <==> ms < TWO_32 / 2)
            && (Fits(p, q) ==> Duration(p, q) == ms) && -TWO_32 / 2 <= Duration(p, q) < TWO_32 / 2
  {
    var d := q.pts - p.pts;
    assert (d * 1000 + 500000) / 1000000 == (d + 500) / 1000;
  }

  /**
   * A subtitle sent before a later one stays until its own end or until that starts, whichever comes first, to half
   * a millisecond, exactly when the time between them fits an int or the wrapped time is not shorter than its own.
   */
  lemma StaysUntilSuccessor(p: Subtitle, q: Subtitle)
    requires p.Valid() && p.pts < q.pts && Duration(p, q) > 0
    ensures Shortened(p, q).pts == p.pts && Shortened(p, q).End() <= Min(p.End(), q.pts + 500)
    ensures Shortened(p, q).End() >= Min(p.End(), q.pts) - 500 <==> Fits(p, q) || p.endDisplayTime <= Duration(p, q)
  {
    DurationIs(p, q);
    EndsBySuccessor(p, q);
  }

  /** A gap of 2^32 ms and 5 more: the subtitle is cut to 5 ms although its successor is weeks away. */
  lemma LongGapCutsShort()
    ensures var p, q := Subtitle(0, 5000, 1, ""), Subtitle((TWO_32 + 5) * 1000, 5000, 1, "");
            Duration(p, q) == 5 && Shortened(p, q).End() == 5000 && p.End() == 5000000
  {
  }
}

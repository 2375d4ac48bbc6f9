/**
 * What a filtering thread sends to the consumers of its outputs, when sends may be refused and the end of the
 * stream may be reached on several paths. The answers to the sends are an input; results of other foreign calls
 * are arbitrary.
 */
module OutputProtocol {

  datatype Status = Ok | Again | Eof | Error

  /** How the scheduler answers a send. */
  type Answer = s: Status | s != Again witness Ok

  /** A send that was started on an output, with the scheduler's answer. */
  datatype Event =
    | Frame(answer: Status)
    | Dummy(answer: Status)  // the encoder-initialising frame of an output that never saw one
    | End(answer: Status)    // NULL

  /**
   * Frames, then at most one NULL and nothing after it; nothing at all follows a refused frame. Dummy frames come
   * before anything else, and one that goes through is followed by NULL.
   */
  ghost predicate WellFormed(t: seq<Event>) { forall k :: 0 <= k < |t| ==> Placed(t, k) }

  /** Event k is where it may be. */
  predicate Placed(t: seq<Event>, k: nat)
    requires k < |t|
  {
    match t[k]
    case End(_) => k == |t| - 1
    case Frame(answer) => answer.Ok? || k == |t| - 1
    case Dummy(answer) => (k > 0 ==> t[k - 1].Dummy?) && (answer.Ok? ==> k == |t| - 2 && t[k + 1].End?)
  }

  /** An output that may still be sent to: no NULL and no refused frame so far. */
  ghost predicate Open(t: seq<Event>) {
    forall k :: 0 <= k < |t| ==> !t[k].End? && (t[k].Frame? ==> t[k].answer.Ok?)
  }

  /** An output that is finished: its last send was NULL or a refused frame. */
  ghost predicate Finished(t: seq<Event>) {
    t != [] && (t[|t| - 1].End? || (t[|t| - 1].Frame? && !t[|t| - 1].answer.Ok?))
  }

  /** A trace as the protocol allows it, finished exactly when the flag says so. */
  ghost predicate Good(t: seq<Event>, flag: bool) { WellFormed(t) && if flag then Finished(t) else Open(t) }

  /** Behind an open trace the events keep their places. */
  lemma StillPlaced(t: seq<Event>, more: seq<Event>, k: nat)
    requires WellFormed(t) && Open(t) && k < |t|
    ensures Placed(t + more, k)
  {
    var u := t + more;
    assert Placed(t, k) && u[k] == t[k] && (k > 0 ==> u[k - 1] == t[k - 1]);
    assert k + 1 < |t| ==> !t[k + 1].End?;
  }

  lemma AppendFrame(t: seq<Event>, a: Answer)
    requires Good(t, false)
    ensures Good(t + [Frame(a)], !a.Ok?) && !LastRefused(t)
  {
    forall k: nat | k < |t| + 1 ensures Placed(t + [Frame(a)], k) {
      if k < |t| { StillPlaced(t, [Frame(a)], k); }
    }
  }

  /** A refused dummy frame, on an output that saw none but dummy frames. */
  lemma AppendDummy(t: seq<Event>, a: Answer)
    requires Good(t, false) && !a.Ok? && forall k :: 0 <= k < |t| ==> t[k].Dummy?
    ensures Good(t + [Dummy(a)], false) && !LastRefused(t)
  {
    forall k: nat | k < |t| + 1 ensures Placed(t + [Dummy(a)], k) {
      if k < |t| { StillPlaced(t, [Dummy(a)], k); }
    }
  }

  lemma AppendEnd(t: seq<Event>, dummied: bool, a: Answer)
    requires Good(t, false) && (dummied ==> forall k :: 0 <= k < |t| ==> t[k].Dummy?)
    ensures Good(t + (if dummied then [Dummy(Ok), End(a)] else [End(a)]), true) && !LastRefused(t)
  {
    var more := if dummied then [Dummy(Ok), End(a)] else [End(a)];
    forall k: nat | k < |t| + |more| ensures Placed(t + more, k) {
      if k < |t| { StillPlaced(t, more, k); }
    }
  }

  /** The last send was a dummy frame refused with EOF. */
  predicate DummyRefused(t: seq<Event>) { t != [] && t[|t| - 1] == Dummy(Eof) }

  ghost function CountSet(flags: seq<bool>): nat {
    if flags == [] then 0 else CountSet(flags[..|flags| - 1]) + if flags[|flags| - 1] then 1 else 0
  }

  /** Setting a clear flag raises the count by one. */
  lemma {:induction false} CountAfterSet(flags: seq<bool>, i: nat)
    requires i < |flags| && !flags[i]
    ensures CountSet(flags[i := true]) == CountSet(flags) + 1
  {
    var n := |flags| - 1;
    if i == n {
      assert flags[i := true][..n] == flags[..n];
    } else {
      CountAfterSet(flags[..n], i);
      assert flags[i := true][..n] == flags[..n][i := true];
    }
  }

  // ---------- what the thread's counters say of the traces ----------

  /** The last send was a refused frame. */
  predicate LastRefused(t: seq<Event>) { t != [] && t[|t| - 1].Frame? && !t[|t| - 1].answer.Ok? }

  function RefusedFlags(sent: seq<seq<Event>>): seq<bool> {
    seq(|sent|, i requires 0 <= i < |sent| => LastRefused(sent[i]))
  }

  /** Some frame was accepted on some output. */
  ghost predicate Accepted(sent: seq<seq<Event>>) {
    exists i, k :: 0 <= i < |sent| && 0 <= k < |sent[i]| && sent[i][k] == Frame(Ok)
  }

  /** Every NULL comes right after a dummy frame. */
  ghost predicate EndsAreDummied(sent: seq<seq<Event>>) {
    forall i, k :: 0 <= i < |sent| && 0 <= k < |sent[i]| && sent[i][k].End? ==> k > 0 && sent[i][k - 1] == Dummy(Ok)
  }

  /** `done` counts the outputs with a refused frame; `got`: a frame was accepted, without which ends are dummied. */
  ghost predicate Tallied(sent: seq<seq<Event>>, done: nat, got: bool) {
    && done == CountSet(RefusedFlags(sent)) && (got <==> Accepted(sent)) && (!got ==> EndsAreDummied(sent))
  }

  lemma FlagsAfter(sent: seq<seq<Event>>, i: nat, t: seq<Event>)
    requires i < |sent| && !LastRefused(sent[i])
    ensures CountSet(RefusedFlags(sent[i := t])) == CountSet(RefusedFlags(sent)) + if LastRefused(t) then 1 else 0
  {
    var flags := RefusedFlags(sent);
    if LastRefused(t) {
      CountAfterSet(flags, i);
      assert RefusedFlags(sent[i := t]) == flags[i := true];
    } else {
      assert RefusedFlags(sent[i := t]) == flags;
    }
  }

  lemma TallyFrame(sent: seq<seq<Event>>, done: nat, got: bool, i: nat, a: Answer)
    requires Tallied(sent, done, got) && i < |sent| && !LastRefused(sent[i])
    ensures Tallied(sent[i := sent[i] + [Frame(a)]], done + (if a.Ok? then 0 else 1), got || a.Ok?)
  {
    var t := sent[i] + [Frame(a)];
    var now := sent[i := t];
    FlagsAfter(sent, i, t);
    if got {
      var j, k :| 0 <= j < |sent| && 0 <= k < |sent[j]| && sent[j][k] == Frame(Ok);
      assert now[j][k] == Frame(Ok);
    }
    if a.Ok? { assert now[i][|t| - 1] == Frame(Ok); }
    forall j, k | 0 <= j < |now| && 0 <= k < |now[j]| && now[j][k] == Frame(Ok) ensures got || a.Ok? {
      if j != i || k < |sent[i]| { assert sent[j][k] == Frame(Ok); }
    }
    if !got && !a.Ok? {
      forall j, k | 0 <= j < |now| && 0 <= k < |now[j]| && now[j][k].End? ensures k > 0 && now[j][k - 1] == Dummy(Ok) {
        assert sent[j][k] == now[j][k];
      }
    }
  }

  /** A refused dummy frame, or NULL, right behind a dummy frame when none was accepted. */
  lemma TallyOther(sent: seq<seq<Event>>, done: nat, got: bool, i: nat, more: seq<Event>)
    requires Tallied(sent, done, got) && i < |sent| && !LastRefused(sent[i])
    requires match |more|
             case 1 => if got then more[0].End? else more[0].Dummy?
             case 2 => !got && more[0] == Dummy(Ok) && more[1].End?
             case _ => false
    ensures Tallied(sent[i := sent[i] + more], done, got)
  {
    var t := sent[i] + more;
    var now := sent[i := t];
    FlagsAfter(sent, i, t);
    if got {
      var j, k :| 0 <= j < |sent| && 0 <= k < |sent[j]| && sent[j][k] == Frame(Ok);
      assert now[j][k] == Frame(Ok);
    }
    forall j, k | 0 <= j < |now| && 0 <= k < |now[j]| && now[j][k] == Frame(Ok) ensures got {
      assert j != i || k < |sent[i]|;
      assert sent[j][k] == Frame(Ok);
    }
    if !got {
      forall j, k | 0 <= j < |now| && 0 <= k < |now[j]| && now[j][k].End? ensures k > 0 && now[j][k - 1] == Dummy(Ok) {
        if j != i || k < |sent[i]| { assert sent[j][k] == now[j][k]; }
      }
    }
  }

  /** Before any frame was accepted an open output has seen dummy frames only. */
  lemma OnlyDummies(sent: seq<seq<Event>>, done: nat, i: nat)
    requires Tallied(sent, done, false) && i < |sent| && Good(sent[i], false)
    ensures forall k :: 0 <= k < |sent[i]| ==> sent[i][k].Dummy?
  {
    forall k | 0 <= k < |sent[i]| ensures sent[i][k].Dummy? {
      assert sent[i][k] != Frame(Ok);
    }
  }

  lemma NothingTallied(n: nat)
    ensures Tallied(seq(n, _ => []), 0, false)
  {
    var sent: seq<seq<Event>> := seq(n, _ => []);
    NoneSet(RefusedFlags(sent));
  }

  lemma {:induction false} NoneSet(flags: seq<bool>)
    requires forall i :: 0 <= i < |flags| ==> !flags[i]
    ensures CountSet(flags) == 0
  {
    if flags != [] { NoneSet(flags[..|flags| - 1]); }
  }

  // ---------- ending the outputs when no frame was ever seen ----------

  /** Ending one output with the answers from number n on: the status, whether its flag is set, the next answer. */
  function Close(answers: nat -> Answer, n: nat): (Status, bool, nat) {
    if answers(n).Ok? then (if answers(n + 1).Error? then Error else Ok, true, n + 2) else (answers(n), false, n + 1)
  }

  /** Ending the outputs from number i on; a dummy frame refused with EOF ends the thread without an error. */
  function EndAll(eof: seq<bool>, i: nat, answers: nat -> Answer, n: nat): (Status, seq<bool>, nat)
    decreases |eof| - i
  {
    if i >= |eof| then (Ok, eof, n)
    else if eof[i] then EndAll(eof, i + 1, answers, n)
    else
      var (status, flag, next) := Close(answers, n);
      if status.Ok? then EndAll(eof[i := true], i + 1, answers, next)
      else (if status.Eof? then Ok else status, eof[i := flag], next)
  }

  /** The outputs from number i on that are still open. */
  function OpenFrom(eof: seq<bool>, i: nat): nat
    decreases |eof| - i
  {
    if i >= |eof| then 0 else (if eof[i] then 0 else 1) + OpenFrom(eof, i + 1)
  }

  /** The m-th dummy frame from answer n on is refused with EOF, and all sends before it go through. */
  ghost predicate RefusedAt(answers: nat -> Answer, n: nat, m: nat) {
    answers(n + 2 * m).Eof? && forall l: nat :: l < m ==> Through(answers, n, l)
  }

  /** The l-th dummy frame from answer n on and the NULL after it go through. */
  predicate Through(answers: nat -> Answer, n: nat, l: nat) {
    answers(n + 2 * l).Ok? && !answers(n + 2 * l + 1).Error?
  }

  ghost predicate LeavesOpen(r: (Status, seq<bool>, nat)) {
    r.0.Ok? && exists j :: 0 <= j < |r.1| && !r.1[j]
  }

  /** Success with an output left open happens exactly when some dummy frame is the first send to fail, with EOF. */
  lemma {:induction false} LeavesOpenIff(eof: seq<bool>, i: nat, answers: nat -> Answer, n: nat)
    requires forall j :: 0 <= j < i && j < |eof| ==> eof[j]
    ensures LeavesOpen(EndAll(eof, i, answers, n))
            <==> exists m: nat :: m < OpenFrom(eof, i) && RefusedAt(answers, n, m)
    decreases |eof| - i
  {
    if i < |eof| {
      if eof[i] {
        LeavesOpenIff(eof, i + 1, answers, n);
      } else if answers(n).Ok? && !answers(n + 1).Error? {
        LeavesOpenIff(eof[i := true], i + 1, answers, n + 2);
        OpenSame(eof, i, i + 1);
        NotAtOnce(answers, n, n + 2, OpenFrom(eof, i + 1));
      } else {
        if answers(n).Eof? { assert !EndAll(eof, i, answers, n).1[i] && RefusedAt(answers, n, 0); }
        forall m: nat | RefusedAt(answers, n, m) ensures answers(n).Eof? {
          assert m > 0 ==> Through(answers, n, 0);
        }
      }
    }
  }

  /** When both sends to the first output go through, the dummy refused is the first or one of the later outputs'. */
  lemma NotAtOnce(answers: nat -> Answer, n: nat, later: nat, count: nat)
    requires later == n + 2 && answers(n).Ok? && !answers(n + 1).Error?
    ensures (exists m: nat :: m < count && RefusedAt(answers, later, m))
            <==> exists m: nat :: m < count + 1 && RefusedAt(answers, n, m)
  {
    if m: nat :| m < count && RefusedAt(answers, later, m) {
      RefusedLater(answers, n, later, m);
      assert RefusedAt(answers, n, m + 1);
    }
    if m: nat :| m < count + 1 && RefusedAt(answers, n, m) {
      assert m > 0;
      RefusedLater(answers, n, later, m - 1);
      assert RefusedAt(answers, later, m - 1);
    }
  }

  lemma RefusedLater(answers: nat -> Answer, n: nat, later: nat, m: nat)
    requires later == n + 2 && answers(n).Ok? && !answers(n + 1).Error?
    ensures RefusedAt(answers, later, m) <==> RefusedAt(answers, n, m + 1)
  {
    assert Through(answers, n, 0);
    forall l: nat ensures Through(answers, later, l) <==> Through(answers, n, l + 1) {}
    if RefusedAt(answers, later, m) {
      forall l: nat | l < m + 1 ensures Through(answers, n, l) {
        assert l > 0 ==> Through(answers, later, l - 1);
      }
    }
    if RefusedAt(answers, n, m + 1) {
      forall l: nat | l < m ensures Through(answers, later, l) {
        assert Through(answers, n, l + 1);
      }
    }
  }

  lemma {:induction false} OpenSame(eof: seq<bool>, i: nat, k: nat)
    requires i < k && i < |eof|
    ensures OpenFrom(eof[i := true], k) == OpenFrom(eof, k)
    decreases |eof| - k
  {
    if k < |eof| { OpenSame(eof, i, k + 1); }
  }

  /** Two outputs, no frame seen, the first dummy frame refused with EOF: success, and both outputs stay open. */
  lemma RefusedDummyLeavesOpen()
    ensures EndAll([false, false], 0, n => Eof, 0) == (Ok, [false, false], 1)
    ensures LeavesOpen(EndAll([false, false], 0, n => Eof, 0))
  {
    assert [false, false][0 := false] == [false, false];
    assert ![false, false][0];
  }

  class FilterThread {
    const video: seq<bool>
    const answers: nat -> Answer
    const eofOut: array<bool>
    var nbOutputsDone: nat
    var gotFrame: bool
    var configured: bool
    var sent: seq<seq<Event>>
    var asked: nat
    /** The reads of the sinks, each with its outcome. */
    ghost var polls: seq<(nat, Status)>

    ghost predicate Valid() reads this, eofOut {
      && eofOut.Length == |video| == |sent|
      && (forall i :: 0 <= i < |sent| ==> Good(sent[i], eofOut[i]))
      && nbOutputsDone <= CountSet(eofOut[..]) && Tallied(sent, nbOutputsDone, gotFrame)
    }

    /** Nothing new was sent on an output whose end had been reached, and sent events stay. */
    twostate predicate Extends() reads this, eofOut {
      && |sent| == |old(sent)| == eofOut.Length
      && (forall i :: 0 <= i < |sent| ==>
           old(sent[i]) <= sent[i] && (old(eofOut[i]) ==> eofOut[i] && sent[i] == old(sent[i])))
    }

    /** Only output i was touched. */
    twostate predicate Only(i: nat) reads this, eofOut {
      && configured == old(configured) && polls == old(polls) && |sent| == |old(sent)| == eofOut.Length
      && forall j :: 0 <= j < |sent| && j != i ==> sent[j] == old(sent[j]) && eofOut[j] == old(eofOut[j])
    }

    constructor (video: seq<bool>, answers: nat -> Answer)
      ensures Valid() && fresh(eofOut) && this.video == video && this.answers == answers && asked == 0
      ensures !configured && !gotFrame
      ensures forall i :: 0 <= i < |video| ==> sent[i] == [] && !eofOut[i]
    {
      this.video, this.answers, asked := video, answers, 0;
      eofOut := new bool[|video|](_ => false);
      nbOutputsDone, gotFrame, configured, polls := 0, false, false, [];
      sent := seq(|video|, _ => []);
      NothingTallied(|video|);
    }

    /** sch_filter_send: accepted, EOF or an error. */
    method Send() returns (answer: Answer)
      modifies `asked
      ensures answer == answers(old(asked)) && asked == old(asked) + 1
    {
      answer, asked := answers(asked), asked + 1;
    }

    method CloseOutput(i: nat) returns (ret: Answer)
      requires Valid() && i < |sent| && !eofOut[i]
      modifies this, eofOut
      ensures Valid() && Extends() && Only(i) && gotFrame == old(gotFrame)
      ensures old(gotFrame) ==> eofOut[i]
      ensures !old(gotFrame) ==> (ret, eofOut[i], asked) == Close(answers, old(asked))
      ensures eofOut[i] ==> sent[i][|sent[i]| - 1].End? && !ret.Eof?
      ensures !eofOut[i] ==> !ret.Ok? && (ret.Eof? ==> DummyRefused(sent[i]))
    {
      hide Good, Tallied;
      var dummied := !gotFrame;
      if dummied {
        ret := Send();
        if !ret.Ok? {
          OnlyDummies(sent, nbOutputsDone, i);
          AppendDummy(sent[i], ret);
          TallyOther(sent, nbOutputsDone, gotFrame, i, [Dummy(ret)]);
          sent := sent[i := sent[i] + [Dummy(ret)]];
          return;
        }
      }
      ret := SendEnd(i, dummied);
      if ret.Eof? { ret := Ok; }
    }

    /** Sets the flag and sends NULL, after the dummy frame that went through, if there was one. */
    method SendEnd(i: nat, dummied: bool) returns (answer: Answer)
      requires Valid() && i < |sent| && !eofOut[i] && dummied == !gotFrame
      modifies `sent, `asked, eofOut
      ensures answer == answers(old(asked)) && asked == old(asked) + 1
      ensures Valid() && Extends() && Only(i) && eofOut[i]
      ensures sent[i] == old(sent[i]) + (if dummied then [Dummy(Ok)] else []) + [End(answer)]
    {
      hide Good, Tallied;
      if dummied { OnlyDummies(sent, nbOutputsDone, i); }
      CountAfterSet(eofOut[..], i);
      ghost var flags := eofOut[..];
      eofOut[i] := true;
      assert eofOut[..] == flags[i := true];
      answer := Send();
      AppendEnd(sent[i], dummied, answer);
      var more := if dummied then [Dummy(Ok), End(answer)] else [End(answer)];
      TallyOther(sent, nbOutputsDone, gotFrame, i, more);
      sent := sent[i := sent[i] + more];
    }

    /** A frame was refused: the output is finished without a NULL. */
    method Finish(i: nat)
      requires eofOut.Length == |video| == |sent| && i < |sent| && !eofOut[i]
      requires nbOutputsDone <= CountSet(eofOut[..])
      modifies `nbOutputsDone, eofOut
      ensures nbOutputsDone == old(nbOutputsDone) + 1 <= CountSet(eofOut[..])
      ensures eofOut[..] == old(eofOut[..])[i := true]
    {
      CountAfterSet(eofOut[..], i);
      ghost var flags := eofOut[..];
      eofOut[i] := true;
      assert eofOut[..] == flags[i := true];
      nbOutputsDone := nbOutputsDone + 1;
    }

    /** Sends one copy; a refusal finishes the output. */
    method SendCopy(i: nat) returns (ret: Answer)
      requires Valid() && i < |sent| && !eofOut[i]
      modifies this, eofOut
      ensures Valid() && Extends() && Only(i)
      ensures ret == answers(old(asked)) && asked == old(asked) + 1
      ensures ret.Ok? <==> !eofOut[i]
      ensures gotFrame == (old(gotFrame) || ret.Ok?)
    {
      hide Good, Tallied;
      ret := Send();
      AppendFrame(sent[i], ret);
      TallyFrame(sent, nbOutputsDone, gotFrame, i, ret);
      sent := sent[i := sent[i] + [Frame(ret)]];
      if ret.Ok? {
        gotFrame := true;
      } else {
        Finish(i);
      }
    }

    /** The end of the stream reached on output i, or a frame taken from it; `copies` is the sync code's choice. */
    method OutputFrame(i: nat, frame: bool, copies: int) returns (ret: Answer)
      requires Valid() && i < |sent| && !eofOut[i]
      modifies this, eofOut
      ensures Valid() && Extends() && Only(i) && (old(gotFrame) ==> gotFrame)
      ensures !frame && ret.Ok? ==> eofOut[i]
      ensures !frame && !old(gotFrame) ==> !gotFrame && (ret, eofOut[i], asked) == Close(answers, old(asked))
      ensures ret.Eof? ==> !frame && !old(gotFrame) && !eofOut[i] && DummyRefused(sent[i])
    {
      var nb := if frame then 1 else 0;
      if video[i] && (frame || gotFrame) { nb := copies; }
      var n := 0;
      while n < nb
        invariant Valid() && !eofOut[i] && Extends() && Only(i) && (old(gotFrame) ==> gotFrame)
        invariant !frame && !old(gotFrame) ==> nb == 0 && !gotFrame && asked == old(asked)
        decreases nb - n
      {
        // without an incoming frame only a remembered previous one can be repeated
        var available: bool := *;
        if !frame && !available { break; }
        var referenced: bool := *;
        if !referenced { return Error; }
        ret := SendCopy(i);
        if !ret.Ok? { return if ret.Eof? then Ok else Error; }
        n := n + 1;
      }
      if frame { return Ok; }
      ret := CloseOutput(i);
    }

    /** One read of sink i; `Again` ends the drain. With `queued` frames left the sink may still fail. */
    method OutputStep(i: nat, queued: bool) returns (ret: Status)
      requires Valid() && i < |sent|
      modifies this, eofOut
      ensures Valid() && Extends() && configured == old(configured)
      ensures polls == old(polls) + [(i, ret)]
      ensures ret.Ok? ==> queued
    {
      hide Good, Tallied;
      var got: Status, copies: int, prepared: bool := *, *, *;
      match got {
        case Eof =>
          ret := Again;
          if !eofOut[i] {
            ret := OutputFrame(i, false, copies);
            if ret.Ok? { ret := Again; }
          }
        case Again => ret := Again;
        case Error => ret := Error;
        case Ok =>
          ret := if !queued then Again else if eofOut[i] then Ok else Error;
          if queued && !eofOut[i] && prepared { ret := OutputFrame(i, true, copies); }
      }
      polls := polls + [(i, ret)];
    }

    /** Reap all sinks until each has nothing more; `queued[i]` frames wait in sink i. */
    method ReadFrames(queued: seq<nat>) returns (ret: Status)
      requires Valid() && |queued| == |sent|
      modifies this, eofOut
      ensures Valid() && Extends() && configured == old(configured)
      ensures old(polls) <= polls
      ensures ret.Ok? && configured ==> forall i :: 0 <= i < |video| ==> (i, Again) in polls[|old(polls)|..]
    {
      hide Good, Tallied;
      if !configured { return Ok; }
      if nbOutputsDone >= |video| { return Eof; }
      for i := 0 to |sent|
        invariant Valid() && Extends() && configured == old(configured) && |sent| == |old(sent)|
        invariant old(polls) <= polls && forall j :: 0 <= j < i ==> (j, Again) in polls[|old(polls)|..]
      {
        ret := DrainSink(i, queued[i]);
        if !ret.Again? { return; }
      }
      ret := *;
      if ret.Again? { ret := Ok; }
    }

    /** Reads sink i until it has nothing more or fails. */
    method DrainSink(i: nat, queued: nat) returns (ret: Status)
      requires Valid() && i < |sent|
      modifies this, eofOut
      ensures Valid() && Extends() && configured == old(configured) && !ret.Ok?
      ensures old(polls) < polls && polls[|polls| - 1] == (i, ret)
    {
      hide Good, Tallied;
      var left := queued;
      ret := OutputStep(i, left > 0);
      while ret.Ok?
        invariant Valid() && Extends() && configured == old(configured) && (ret.Ok? ==> left > 0)
        invariant old(polls) < polls && polls[|polls| - 1] == (i, ret)
        decreases left, ret.Ok?
      {
        left := left - 1;
        ret := OutputStep(i, left > 0);
      }
    }

    /**
     * The thread: the graph may be configured at once or by an input; any number of inputs, each followed by a drain,
     * then the end of every output still open. Every output's trace stays well formed on every path. When the thread
     * succeeds with a graph, all outputs are ended exactly when no dummy frame was refused with EOF, so always when a
     * frame was seen. `flags` and `next` are the flags and the next answer at the end of the inputs, from which the
     * outputs are ended when no frame was seen.
     */
    method Run(initially: bool, inputs: seq<seq<nat>>)
      returns (ret: Status, ghost flags: seq<bool>, ghost next: nat)
      requires Valid() && forall k :: 0 <= k < |inputs| ==> |inputs[k]| == |video|
      modifies this, eofOut
      ensures Valid() && Extends()
      ensures ret.Ok? && configured ==> (AllEnded() <==> forall i :: 0 <= i < |sent| ==> !DummyRefused(sent[i]))
      ensures ret.Ok? && configured && gotFrame ==> AllEnded()
      ensures |flags| == |video| && forall i :: 0 <= i < |video| && old(eofOut[i]) ==> flags[i]
      ensures inputs == [] ==> flags == old(eofOut[..]) && next == old(asked)
      ensures ret.Ok? && configured && !gotFrame ==> (ret, eofOut[..], asked) == EndAll(flags, 0, answers, next)
      ensures inputs == [] && configured && !old(configured) && !old(gotFrame) ==>
        (ret, eofOut[..], asked) == EndAll(flags, 0, answers, next)
    {
      hide Good, Tallied;
      flags, next := eofOut[..], asked;
      if initially {
        var accepted: bool := *;
        if !accepted {
          ret := Error;
          return;
        }
        configured := true;
      }
      ret := FilterInputs(inputs);
      flags, next := eofOut[..], asked;
      if !ret.Ok? || !configured { return; }
      ret := EndOutputs();
    }

    /** The inputs, until there are no more or all consumers are done. */
    method FilterInputs(inputs: seq<seq<nat>>) returns (ret: Status)
      requires Valid() && forall k :: 0 <= k < |inputs| ==> |inputs[k]| == |video|
      modifies this, eofOut
      ensures Valid() && Extends() && (ret.Ok? || ret.Error?)
      ensures inputs == [] ==> ret.Ok? && configured == old(configured) && gotFrame == old(gotFrame)
      ensures inputs == [] ==> asked == old(asked) && eofOut[..] == old(eofOut[..])
    {
      hide Good, Tallied;
      for k := 0 to |inputs|
        invariant Valid() && Extends()
        invariant k == 0 ==> configured == old(configured) && gotFrame == old(gotFrame)
        invariant k == 0 ==> asked == old(asked) && eofOut[..] == old(eofOut[..])
      {
        var configures: bool, accepted: Answer := *, *;
        configured := configured || configures;
        if accepted.Error? { return Error; }
        if accepted.Ok? {
          ret := ReadFrames(inputs[k]);
          if ret.Eof? { return Ok; }
          if !ret.Ok? { return Error; }
        }
      }
      return Ok;
    }

    ghost predicate AllEnded() reads this, eofOut {
      eofOut.Length == |sent| && forall i :: 0 <= i < |sent| ==> eofOut[i]
    }

    /** An ended output's last send was not a dummy frame. */
    lemma AllFinished()
      requires Valid() && AllEnded()
      ensures forall i :: 0 <= i < |sent| ==> !DummyRefused(sent[i])
    {
    }

    /** Ends every output still open; the scheduler may refuse a dummy frame with EOF, which ends the thread. */
    method EndOutputs() returns (ret: Status)
      requires Valid()
      modifies this, eofOut
      ensures Valid() && Extends() && configured == old(configured) && gotFrame == old(gotFrame)
      ensures ret.Ok? ==> (AllEnded() <==> forall i :: 0 <= i < |sent| ==> !DummyRefused(sent[i]))
      ensures ret.Ok? && gotFrame ==> AllEnded()
      ensures !gotFrame ==> (ret, eofOut[..], asked) == EndAll(old(eofOut[..]), 0, answers, old(asked))
    {
      hide Good, Tallied;
      for i := 0 to |sent|
        invariant Valid() && Extends() && configured == old(configured) && gotFrame == old(gotFrame)
        invariant |sent| == |old(sent)| && forall j :: 0 <= j < i ==> eofOut[j]
        invariant !gotFrame ==> EndAll(eofOut[..], i, answers, asked) == EndAll(old(eofOut[..]), 0, answers, old(asked))
      {
        if !eofOut[i] {
          var copies: int := *;
          ghost var flags := eofOut[..];
          ret := OutputFrame(i, false, copies);
          assert eofOut[..] == flags[i := eofOut[i]];
          if ret.Eof? {
            assert DummyRefused(sent[i]);
            return Ok;
          }
          if !ret.Ok? { return Error; }
        }
      }
      AllFinished();
      return Ok;
    }
  }
}

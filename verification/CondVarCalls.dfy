/** What whole calls of signal, wait and broadcast do, from the call to the return, among any other threads' steps. */
module CondVarCalls {
  import opened Common
  import opened CondVar

  /** The run ends in u, the first state in which thread t is outside all operations. */
  ghost predicate UntilReturn(exclusive: bool, s: State, acts: seq<Action>, u: State, t: nat)
    decreases |acts|
  {
    t < |s.pc|
    && if s.pc[t].Idle? then acts == [] && s == u
       else acts != [] && Enabled(s, acts[0].t, acts[0].op, exclusive)
            && UntilReturn(exclusive, Do(s, acts[0].t, acts[0].op), acts[1..], u, t)
  }

  /** How many of the steps satisfy the test; a step is a state and the thread that moves. */
  ghost function Steps(s: State, acts: seq<Action>, test: (State, nat) -> bool): nat
    decreases |acts|
  {
    if acts == [] || !Enabled(s, acts[0].t, acts[0].op, false) then 0
    else Bit(test(s, acts[0].t)) + Steps(Do(s, acts[0].t, acts[0].op), acts[1..], test)
  }

  /** Thread t posts the event. */
  function Posts(t: nat): (State, nat) -> bool { (s: State, r: nat) => r == t && r < |s.pc| && s.pc[r].SignalPost? }

  /** Thread t checks the waiter count and sees a waiter. */
  function Sees(t: nat): (State, nat) -> bool {
    (s: State, r: nat) => r == t && r < |s.pc| && s.pc[r].SignalCheck? && s.waitCount != 0
  }

  /** Thread t takes the event. */
  function Takes(t: nat): (State, nat) -> bool { (s: State, r: nat) => r == t && r < |s.pc| && s.pc[r].WaitEvent? }

  // ---------- the mutex ----------

  /** Only its holder gives the mutex away, and only a free mutex is taken, by the thread that moves. */
  lemma MutexHandover(s: State, t: nat, op: Op)
    requires Enabled(s, t, op, false)
    ensures var u := Do(s, t, op);
            match s.owner
            case None => u.owner == None || u.owner == Some(t)
            case Some(x) => u.owner == s.owner || (u.owner == None && (x == t || s.pc[t].WaitUnlock?))
  {
  }

  // ---------- signal ----------

  /** What is known of the one signalling thread. */
  lemma SignallerFacts(s: State, t: nat)
    requires Inv(s) && t < |s.pc| && Signalling(s.pc[t])
    ensures !s.pc[t].SignalAck? ==> !s.event && !s.ack
    ensures s.pc[t].SignalPost? ==> s.released == s.mark
    ensures s.pc[t].SignalAck? ==> s.released == s.mark + 1 - Bit(s.event) && !(s.event && s.ack)
  {
    Occupied(s.pc, t);
  }

  /** No second thread stands at a signalling place. */
  lemma OnlySignaller(s: State, t: nat, r: nat)
    requires Inv(s) && t < |s.pc| && r < |s.pc| && r != t && Signalling(s.pc[t])
    ensures !Signalling(s.pc[r])
  {
    MoveCensus(s.pc, t, Idle);
    Occupied(s.pc[t := Idle], r);
  }

  /** Another thread's step leaves the signaller where it is, and releases nobody without the event. */
  lemma OthersKeep(s: State, t: nat, r: nat, op: Op)
    requires Inv(s) && t < |s.pc| && Signalling(s.pc[t]) && r != t && Enabled(s, r, op, true)
    ensures var u := Do(s, r, op);
            u.pc[t] == s.pc[t] && u.mark == s.mark && (!s.event ==> u.released == s.released)
  {
    OnlySignaller(s, t, r);
  }

  predicate InPlainSignal(p: Pc) { p == SignalCheck(false) || p == SignalPost(false) || p == SignalAck(false) }

  /** What is still to be released, seen and posted when a plain signal stands at p. */
  ghost predicate Rest(s: State, acts: seq<Action>, u: State, t: nat)
    requires t < |s.pc|
  {
    var seen, posted := Steps(s, acts, Sees(t)), Steps(s, acts, Posts(t));
    && !u.event && !u.ack
    && match s.pc[t]
       case SignalCheck(_) => u.released == s.released + posted && posted == seen <= 1
       case SignalPost(_) => u.released == s.released + 1 && posted == 1 && seen == 0
       case _ => u.released == s.mark + 1 && posted == 0 && seen == 0
  }

  /** The signaller's own step, with the rest of the call known from there on. */
  lemma SignallerGoes(s: State, acts: seq<Action>, u: State, t: nat)
    requires Inv(s) && t < |s.pc| && InPlainSignal(s.pc[t])
    requires acts != [] && acts[0].t == t && Enabled(s, t, acts[0].op, true)
    requires var v := Do(s, t, acts[0].op);
             && (v.pc[t].Idle? ==> acts[1..] == [] && v == u)
             && (!v.pc[t].Idle? ==> InPlainSignal(v.pc[t]) ==> Rest(v, acts[1..], u, t))
    ensures Rest(s, acts, u, t)
  {
    SignallerFacts(s, t);
  }

  /** Another thread's step, with the rest of the call known from there on. */
  lemma OtherGoes(s: State, acts: seq<Action>, u: State, t: nat)
    requires Inv(s) && t < |s.pc| && InPlainSignal(s.pc[t])
    requires acts != [] && acts[0].t != t && Enabled(s, acts[0].t, acts[0].op, true)
    requires t < |Do(s, acts[0].t, acts[0].op).pc| && Rest(Do(s, acts[0].t, acts[0].op), acts[1..], u, t)
    ensures Rest(s, acts, u, t)
  {
    SignallerFacts(s, t);
    OthersKeep(s, t, acts[0].t, acts[0].op);
    hide Inv;
  }

  lemma {:induction false} SignalRuns(s: State, acts: seq<Action>, u: State, t: nat)
    requires Inv(s) && UntilReturn(true, s, acts, u, t) && InPlainSignal(s.pc[t])
    ensures Rest(s, acts, u, t)
    decreases |acts|
  {
    hide Inv, Rest;
    var a := acts[0];
    var v := Do(s, a.t, a.op);
    StepKeepsInv(s, a.t, a.op);
    if a.t == t {
      if !v.pc[t].Idle? { SignalRuns(v, acts[1..], u, t); }
      SignallerGoes(s, acts, u, t);
    } else {
      OthersKeep(s, t, a.t, a.op);
      SignalRuns(v, acts[1..], u, t);
      OtherGoes(s, acts, u, t);
    }
  }

  /**
   * A whole call of signal, whatever other threads do meanwhile: it releases exactly one waiter if its check saw one
   * and nobody otherwise, posts the event as often, and leaves both semaphores reset.
   */
  lemma SignalCall(s: State, t: nat, acts: seq<Action>, u: State)
    requires Inv(s) && Enabled(s, t, Signal, true) && UntilReturn(true, Do(s, t, Signal), acts, u, t)
    ensures var v := Do(s, t, Signal);
            var seen := Steps(v, acts, Sees(t));
            seen <= 1 && Steps(v, acts, Posts(t)) == seen && u.released == s.released + seen && !u.event && !u.ack
  {
    StepKeepsInv(s, t, Signal);
    SignalRuns(Do(s, t, Signal), acts, u, t);
  }

  /** Taking the ack ends a plain signal, and takes a broadcast back to its loop. */
  lemma AckReturns(s: State, t: nat)
    requires t < |s.pc| && s.pc[t].SignalAck? && s.ack
    ensures Do(s, t, Go).pc[t] == (if s.pc[t] == SignalAck(false) then Idle else BroadcastCheck)
    ensures forall r :: 0 <= r < |s.pc| && r != t ==> Do(s, t, Go).pc[r] == s.pc[r]
  {
  }

  // ---------- wait ----------

  predicate InWait(p: Pc) { p.WaitUnlock? || p.WaitEvent? || p.WaitLeave? || p.WaitAck? || p.WaitLock? }

  lemma {:induction false} WaitRuns(s: State, acts: seq<Action>, u: State, t: nat)
    requires UntilReturn(false, s, acts, u, t) && InWait(s.pc[t])
    ensures u.owner == Some(t)
    ensures Steps(s, acts, Takes(t)) == if s.pc[t].WaitUnlock? || s.pc[t].WaitEvent? then 1 else 0
    decreases |acts|
  {
    var a := acts[0];
    var v := Do(s, a.t, a.op);
    if !v.pc[t].Idle? { WaitRuns(v, acts[1..], u, t); }
  }

  /** A whole call of wait, with any number of signallers, takes the event exactly once and returns with the mutex. */
  lemma WaitCall(s: State, t: nat, acts: seq<Action>, u: State)
    requires Enabled(s, t, Wait, false) && UntilReturn(false, Do(s, t, Wait), acts, u, t)
    ensures u.owner == Some(t) && Steps(Do(s, t, Wait), acts, Takes(t)) == 1
  {
    WaitRuns(Do(s, t, Wait), acts, u, t);
  }

  // ---------- broadcast ----------

  /** Waiters already released and those that still wait for the event, together. */
  function Served(s: State, c: Census): int { s.released + s.waitCount - c.leave }

  lemma ServedCounts(s: State, b: nat, t: nat, op: Op, c: Census)
    requires Broadcasting(s, b) && Enabled(s, t, op, true) && (t != b ==> !Signalling(s.pc[t]))
    ensures Served(Do(s, t, op), c.Add(s.pc[t], -1).Add(Do(s, t, op).pc[t], 1)) == Served(s, c)
  {
  }

  lemma ServedStays(s: State, b: nat, t: nat, op: Op)
    requires Broadcasting(s, b) && Enabled(s, t, op, true)
    ensures Served(Do(s, t, op), Do(s, t, op).Count()) == Served(s, s.Count())
  {
    hide CensusOf, Census.Add, Census.Of, Served;
    DoCensus(s, t, op);
    if t != b { OnlyBroadcaster(s, b, t); }
    ServedCounts(s, b, t, op, s.Count());
  }

  lemma {:induction false} BroadcastRuns(s: State, b: nat, acts: seq<Action>, u: State)
    requires Broadcasting(s, b) && UntilReturn(true, s, acts, u, b)
    ensures BroadcastOver(u, b) && Served(u, u.Count()) == Served(s, s.Count())
    decreases |acts|
  {
    var a := acts[0];
    var v := Do(s, a.t, a.op);
    BroadcastStep(s, b, a.t, a.op);
    ServedStays(s, b, a.t, a.op);
    if !v.pc[b].Idle? { BroadcastRuns(v, b, acts[1..], u); }
  }

  /** A whole call of broadcast by the holder of the mutex releases exactly the threads that were waiting. */
  lemma BroadcastCall(s: State, b: nat, acts: seq<Action>, u: State)
    requires Inv(s) && s.owner == Some(b) && Enabled(s, b, Broadcast, true)
    requires UntilReturn(true, Do(s, b, Broadcast), acts, u, b)
    ensures u.released == s.released + s.waitCount && u.waitCount == 0 && !u.event && !u.ack
  {
    var v := Do(s, b, Broadcast);
    StepKeepsInv(s, b, Broadcast);
    BroadcastRuns(v, b, acts, u);
    NoneLeaves(s);
    NoneLeaves(u);
    DoCensus(s, b, Broadcast);
  }

  /** Outside a signal nobody is on the way out. */
  lemma NoneLeaves(s: State)
    requires Inv(s) && (s.Count().Signallers() == 0 || s.waitCount == 0)
    ensures s.Count().leave == 0
  {
    assert s.Count().NonNegative();
  }
}

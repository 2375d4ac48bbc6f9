/**
 * Condition variables built from two auto-reset event semaphores and a waiter count, as interleaved atomic steps
 * of any number of threads sharing one mutex and one condition variable. There are no timed waits.
 */
module CondVar {
  import opened Common

  /** Where a thread stands; the operations tagged `all` belong to a broadcast's loop. */
  datatype Pc =
    | Idle
    | WaitUnlock  // wait_count incremented, mutex still held
    | WaitEvent   // blocked on event_sem
    | WaitLeave   // took the event, wait_count not yet decremented
    | WaitAck     // decremented, ack_sem not yet posted
    | WaitLock    // waiting to take the mutex back
    | BroadcastCheck
    | SignalCheck(all: bool)
    | SignalPost(all: bool)
    | SignalAck(all: bool)  // blocked on ack_sem

  /** How many threads stand at each place that matters; broadcast and plain signal places are merged. */
  datatype Census = Census(unlock: int, event: int, leave: int, ack: int, checking: int, posting: int, acking: int) {
    function Add(p: Pc, k: int): Census {
      Census(unlock + (if p.WaitUnlock? then k else 0), event + (if p.WaitEvent? then k else 0),
             leave + (if p.WaitLeave? then k else 0), ack + (if p.WaitAck? then k else 0),
             checking + (if p.BroadcastCheck? || p.SignalCheck? then k else 0),
             posting + (if p.SignalPost? then k else 0), acking + (if p.SignalAck? then k else 0))
    }

    function Signallers(): int { checking + posting + acking }

    predicate NonNegative() {
      unlock >= 0 && event >= 0 && leave >= 0 && ack >= 0 && checking >= 0 && posting >= 0 && acking >= 0
    }

    /** Threads counted with place p; idle ones and those taking the mutex back are not counted. */
    function Of(p: Pc): int {
      match p
      case Idle | WaitLock => 1
      case WaitUnlock => unlock
      case WaitEvent => event
      case WaitLeave => leave
      case WaitAck => ack
      case BroadcastCheck => checking
      case SignalCheck(_) => checking
      case SignalPost(_) => posting
      case SignalAck(_) => acking
    }
  }

  function At(pc: seq<Pc>, p: Pc): nat { multiset(pc)[p] }

  function CensusOf(pc: seq<Pc>): Census {
    Census(At(pc, WaitUnlock), At(pc, WaitEvent), At(pc, WaitLeave), At(pc, WaitAck),
           At(pc, BroadcastCheck) + At(pc, SignalCheck(true)) + At(pc, SignalCheck(false)),
           At(pc, SignalPost(true)) + At(pc, SignalPost(false)), At(pc, SignalAck(true)) + At(pc, SignalAck(false)))
  }

  /** `released` counts the waiters that took the event; `mark` is its value when the signaller saw a waiter. */
  datatype State = State(
    pc: seq<Pc>, owner: Option<nat>, waitCount: int, event: bool, ack: bool, released: nat, mark: nat)
  {
    function Count(): Census { CensusOf(pc) }

    function Goto(t: nat, p: Pc): State
      requires t < |pc|
    {
      this.(pc := pc[t := p])
    }
  }

  /** What a thread does next: start an operation when idle, or go on with the one it is in. */
  datatype Op = Lock | Unlock | Wait | Signal | Broadcast | Go

  /** Whether thread t may take the step; `exclusive` admits one signalling thread at a time. */
  predicate Enabled(s: State, t: nat, op: Op, exclusive: bool) {
    t < |s.pc| &&
    match op
    case Lock => s.pc[t] == Idle && s.owner.None?
    case Unlock => s.pc[t] == Idle && s.owner == Some(t)
    case Wait => s.pc[t] == Idle && s.owner == Some(t)
    case Signal => s.pc[t] == Idle && (exclusive ==> s.Count().Signallers() == 0)
    case Broadcast => s.pc[t] == Idle && (exclusive ==> s.Count().Signallers() == 0)
    case Go =>
      match s.pc[t]
      case Idle => false
      case WaitEvent => s.event
      case WaitLock => s.owner.None?
      case SignalAck(_) => s.ack
      case _ => true
  }

  /** One atomic step of thread t. */
  function Do(s: State, t: nat, op: Op): State
    requires Enabled(s, t, op, false)
  {
    match op
    case Lock => s.(owner := Some(t))
    case Unlock => s.(owner := None)
    case Wait => s.Goto(t, WaitUnlock).(waitCount := s.waitCount + 1)
    case Signal => s.Goto(t, SignalCheck(false))
    case Broadcast => s.Goto(t, BroadcastCheck)
    case Go =>
      match s.pc[t]
      case Idle => s
      case WaitUnlock => s.Goto(t, WaitEvent).(owner := None)
      case WaitEvent => s.Goto(t, WaitLeave).(event := false, released := s.released + 1)
      case WaitLeave => s.Goto(t, WaitAck).(waitCount := s.waitCount - 1)
      case WaitAck => s.Goto(t, WaitLock).(ack := true)
      case WaitLock => s.Goto(t, Idle).(owner := Some(t))
      case BroadcastCheck => s.Goto(t, if s.waitCount != 0 then SignalCheck(true) else Idle)
      case SignalCheck(all) =>
        if s.waitCount != 0 then s.Goto(t, SignalPost(all)).(mark := s.released)
        else s.Goto(t, if all then BroadcastCheck else Idle)
      case SignalPost(all) => s.Goto(t, SignalAck(all)).(event := true)
      case SignalAck(all) => s.Goto(t, if all then BroadcastCheck else Idle).(ack := false)
  }

  /** All threads outside, mutex free, both semaphores reset. */
  function Initial(threads: nat): State {
    State(seq(threads, _ => Idle), None, 0, false, false, 0, 0)
  }

  function Bit(b: bool): nat { if b then 1 else 0 }

  /**
   * wait_count is the number of threads between increment and decrement, at most one thread signals, and exactly
   * while it waits for the ack there is one token: the event, a waiter on its way out, or the ack.
   */
  predicate Balanced(s: State, c: Census) {
    && s.waitCount == c.unlock + c.event + c.leave
    && c.Signallers() <= 1
    && Bit(s.event) + Bit(s.ack) + c.leave + c.ack == c.acking
    && (c.posting > 0 ==> s.waitCount > 0 && s.released == s.mark)
    && (s.event ==> s.waitCount > 0)
    && (c.acking > 0 ==> s.released == s.mark + 1 - Bit(s.event))
  }

  ghost predicate Inv(s: State) {
    && Balanced(s, s.Count())
    && (forall t :: 0 <= t < |s.pc| && s.pc[t] == WaitUnlock ==> s.owner == Some(t))
  }

  lemma InitialInv(threads: nat)
    ensures Inv(Initial(threads))
  {
    NoneStands(threads, WaitUnlock);
    NoneStands(threads, WaitEvent);
    NoneStands(threads, WaitLeave);
    NoneStands(threads, WaitAck);
    NoneStands(threads, BroadcastCheck);
    NoneStands(threads, SignalCheck(true));
    NoneStands(threads, SignalCheck(false));
    NoneStands(threads, SignalPost(true));
    NoneStands(threads, SignalPost(false));
    NoneStands(threads, SignalAck(true));
    NoneStands(threads, SignalAck(false));
  }

  lemma NoneStands(threads: nat, p: Pc)
    requires p != Idle
    ensures At(Initial(threads).pc, p) == 0
  {
    assert p !in Initial(threads).pc;
  }

  /** A move takes one thread from the count of its old place to that of its new one. */
  lemma MoveAt(pc: seq<Pc>, t: nat, p: Pc, q: Pc)
    requires t < |pc|
    ensures At(pc[t := p], q) == At(pc, q) + Bit(q == p) - Bit(q == pc[t])
    ensures At(pc, pc[t]) >= 1
  {
    assert multiset(pc[t := p]) == multiset(pc) - multiset{pc[t]} + multiset{p};
    assert pc[t] in multiset(pc);
  }

  lemma MoveWaiter(pc: seq<Pc>, t: nat, p: Pc)
    requires t < |pc|
    ensures var a, c := CensusOf(pc[t := p]), CensusOf(pc).Add(pc[t], -1).Add(p, 1);
            a.unlock == c.unlock && a.event == c.event && a.leave == c.leave && a.ack == c.ack
  {
    MoveAt(pc, t, p, WaitUnlock);
    MoveAt(pc, t, p, WaitEvent);
    MoveAt(pc, t, p, WaitLeave);
    MoveAt(pc, t, p, WaitAck);
  }

  lemma MoveSignaller(pc: seq<Pc>, t: nat, p: Pc)
    requires t < |pc|
    ensures var a, c := CensusOf(pc[t := p]), CensusOf(pc).Add(pc[t], -1).Add(p, 1);
            a.checking == c.checking && a.posting == c.posting && a.acking == c.acking
  {
    MoveAt(pc, t, p, BroadcastCheck);
    MoveAt(pc, t, p, SignalCheck(true));
    MoveAt(pc, t, p, SignalCheck(false));
    MoveAt(pc, t, p, SignalPost(true));
    MoveAt(pc, t, p, SignalPost(false));
    MoveAt(pc, t, p, SignalAck(true));
    MoveAt(pc, t, p, SignalAck(false));
  }

  lemma MoveCensus(pc: seq<Pc>, t: nat, p: Pc)
    requires t < |pc|
    ensures CensusOf(pc[t := p]) == CensusOf(pc).Add(pc[t], -1).Add(p, 1)
    ensures CensusOf(pc).NonNegative() && CensusOf(pc).Of(pc[t]) >= 1
  {
    hide CensusOf, Census.Add;
    Occupied(pc, t);
    MoveWaiter(pc, t, p);
    MoveSignaller(pc, t, p);
  }

  lemma Occupied(pc: seq<Pc>, t: nat)
    requires t < |pc|
    ensures CensusOf(pc).NonNegative() && CensusOf(pc).Of(pc[t]) >= 1
  {
    assert pc[t] in multiset(pc);
  }

  lemma DoCensus(s: State, t: nat, op: Op)
    requires Enabled(s, t, op, false)
    ensures Do(s, t, op).Count() == s.Count().Add(s.pc[t], -1).Add(Do(s, t, op).pc[t], 1)
    ensures s.Count().NonNegative() && s.Count().Of(s.pc[t]) >= 1
  {
    hide CensusOf, Census.Add, Census.Of;
    var u := Do(s, t, op);
    MoveCensus(s.pc, t, u.pc[t]);
    assert u.pc == s.pc[t := u.pc[t]];
  }

  /** The bookkeeping of one step, over the counts alone. */
  lemma StepBalanced(s: State, t: nat, op: Op, c: Census)
    requires Balanced(s, c) && c.NonNegative()
    requires Enabled(s, t, op, false) && c.Of(s.pc[t]) >= 1
    requires op.Signal? || op.Broadcast? ==> c.Signallers() == 0
    ensures Balanced(Do(s, t, op), c.Add(s.pc[t], -1).Add(Do(s, t, op).pc[t], 1))
  {
  }

  /** Every step of any thread keeps the protocol's invariant when one thread signals at a time. */
  lemma StepKeepsInv(s: State, t: nat, op: Op)
    requires Inv(s) && Enabled(s, t, op, true)
    ensures Inv(Do(s, t, op))
  {
    hide CensusOf, Census.Add, Census.Of, Balanced;
    DoCensus(s, t, op);
    StepBalanced(s, t, op, s.Count());
  }

  // ---------- whole runs ----------

  datatype Action = Action(t: nat, op: Op)

  /** The actions lead from s to u; `exclusive` admits one signalling thread at a time. */
  ghost predicate Run(exclusive: bool, s: State, acts: seq<Action>, u: State)
    decreases |acts|
  {
    if acts == [] then s == u
    else Enabled(s, acts[0].t, acts[0].op, exclusive)
         && Run(exclusive, Do(s, acts[0].t, acts[0].op), acts[1..], u)
  }

  lemma {:induction false} InvAlongRun(s: State, acts: seq<Action>, u: State)
    requires Inv(s) && Run(true, s, acts, u)
    ensures Inv(u) && |u.pc| == |s.pc|
    decreases |acts|
  {
    if acts != [] {
      StepKeepsInv(s, acts[0].t, acts[0].op);
      InvAlongRun(Do(s, acts[0].t, acts[0].op), acts[1..], u);
    }
  }

  /** In every reachable state wait_count is the number of threads between increment and decrement. */
  lemma WaitCountIsExact(threads: nat, acts: seq<Action>, u: State)
    requires Run(true, Initial(threads), acts, u)
    ensures u.waitCount == At(u.pc, WaitUnlock) + At(u.pc, WaitEvent) + At(u.pc, WaitLeave)
    ensures 0 <= u.waitCount <= threads
  {
    InitialInv(threads);
    InvAlongRun(Initial(threads), acts, u);
    CountBound(u.pc);
  }

  lemma CountBound(pc: seq<Pc>)
    ensures At(pc, WaitUnlock) + At(pc, WaitEvent) + At(pc, WaitLeave) <= |pc|
  {
    var m := multiset(pc);
    assert |m| == |pc|;
    var rest := m[WaitUnlock := 0][WaitEvent := 0][WaitLeave := 0];
    assert |m[WaitUnlock := 0]| == |m| - m[WaitUnlock];
    assert |m[WaitUnlock := 0][WaitEvent := 0]| == |m[WaitUnlock := 0]| - m[WaitEvent];
    assert |rest| == |m[WaitUnlock := 0][WaitEvent := 0]| - m[WaitLeave];
  }

  /** Thread t is past the check of a signal that saw a waiter, in s and all along the run. */
  ghost predicate InSignal(s: State, acts: seq<Action>, t: nat)
    decreases |acts|
  {
    && t < |s.pc| && (s.pc[t].SignalPost? || s.pc[t].SignalAck?)
    && (acts != [] ==> Enabled(s, acts[0].t, acts[0].op, true)
                       && InSignal(Do(s, acts[0].t, acts[0].op), acts[1..], t))
  }

  lemma {:induction false} MarkStays(s: State, acts: seq<Action>, u: State, t: nat)
    requires Inv(s) && Run(true, s, acts, u) && InSignal(s, acts, t)
    ensures u.mark == s.mark && t < |u.pc| && (u.pc[t].SignalPost? || u.pc[t].SignalAck?)
    decreases |acts|
  {
    if acts != [] {
      var a := acts[0];
      var v := Do(s, a.t, a.op);
      StepKeepsInv(s, a.t, a.op);
      if a.t != t { TwoPlaces(s, t, a.t); }
      MarkStays(v, acts[1..], u, t);
    }
  }

  /** No second thread stands at a signalling place. */
  lemma TwoPlaces(s: State, t: nat, r: nat)
    requires Inv(s) && t < |s.pc| && r < |s.pc| && r != t
    requires s.pc[t].SignalPost? || s.pc[t].SignalAck?
    ensures !(s.pc[r].BroadcastCheck? || s.pc[r].SignalCheck? || s.pc[r].SignalPost? || s.pc[r].SignalAck?)
  {
    MoveCensus(s.pc, t, Idle);
    MoveCensus(s.pc[t := Idle], r, Idle);
  }

  /**
   * A signal that saw a waiter returns only after exactly one waiter was released since it looked, with both
   * semaphores reset and no waiter left halfway: s is the state at the check, u the state after the return.
   */
  lemma SignalReleasesOne(s: State, t: nat, acts: seq<Action>, w: State)
    requires Inv(s) && t < |s.pc| && s.pc[t].SignalCheck? && s.waitCount != 0
    requires Run(true, Do(s, t, Go), acts, w) && InSignal(Do(s, t, Go), acts, t)
    requires t < |w.pc| && w.pc[t].SignalAck? && w.ack
    ensures var u := Do(w, t, Go);
            && u.released == s.released + 1 && !u.event && !u.ack
            && At(u.pc, WaitLeave) == 0 && At(u.pc, WaitAck) == 0
  {
    hide CensusOf, Census.Add;
    StepKeepsInv(s, t, Go);
    MarkStays(Do(s, t, Go), acts, w, t);
    InvAlongRun(Do(s, t, Go), acts, w);
    Occupied(w.pc, t);
    StepKeepsInv(w, t, Go);
    AckLeavesNothing(w, t);
  }

  /** Once the ack is there, the event is consumed and no waiter is left halfway. */
  lemma AckLeavesNothing(w: State, t: nat)
    requires Inv(w) && t < |w.pc| && w.pc[t].SignalAck? && w.ack
    ensures w.released == w.mark + 1 && !w.event && At(w.pc, WaitLeave) == 0 && At(w.pc, WaitAck) == 0
    ensures var u := Do(w, t, Go);
            At(u.pc, WaitLeave) == 0 && At(u.pc, WaitAck) == 0
  {
    Occupied(w.pc, t);
    var u := Do(w, t, Go);
    assert u.pc == w.pc[t := u.pc[t]];
    MoveAt(w.pc, t, u.pc[t], WaitLeave);
    MoveAt(w.pc, t, u.pc[t], WaitAck);
  }

  /** Some thread stands where others are counted. */
  lemma Standing(pc: seq<Pc>, p: Pc) returns (t: nat)
    requires At(pc, p) > 0
    ensures t < |pc| && pc[t] == p
  {
    assert p in multiset(pc);
    t :| 0 <= t < |pc| && pc[t] == p;
  }

  /** A signal that waits without an ack has a token under way, and a waiter to carry it. */
  lemma TokenUnderWay(s: State, c: Census)
    requires Balanced(s, c) && c.NonNegative() && c.acking >= 1 && !s.ack
    ensures c.leave > 0 || c.ack > 0 || (s.event && (c.event > 0 || c.unlock > 0))
  {
  }

  /** While a signal waits for its ack some thread on the way to posting it can always move: signals never stall. */
  lemma SignalNeverStalls(s: State, t: nat)
    requires Inv(s) && t < |s.pc| && s.pc[t].SignalAck?
    ensures exists r :: 0 <= r < |s.pc| && Enabled(s, r, Go, true)
                        && (r == t || s.pc[r].WaitUnlock? || s.pc[r].WaitEvent? || s.pc[r].WaitLeave?
                            || s.pc[r].WaitAck?)
  {
    Occupied(s.pc, t);
    if s.ack {
      assert Enabled(s, t, Go, true);
    } else {
      TokenUnderWay(s, s.Count());
      var c := s.Count();
      hide Inv, Balanced;
      var r := Standing(s.pc, if c.leave > 0 then WaitLeave else if c.ack > 0 then WaitAck
                              else if c.event > 0 then WaitEvent else WaitUnlock);
      assert Enabled(s, r, Go, true);
    }
  }

  // ---------- broadcast ----------

  /** Thread b is inside a broadcast and holds the mutex. */
  ghost predicate Broadcasting(s: State, b: nat) {
    && Inv(s) && b < |s.pc| && s.owner == Some(b)
    && match s.pc[b]
       case BroadcastCheck => true
       case SignalCheck(all) => all && s.waitCount > 0
       case SignalPost(all) => all
       case SignalAck(all) => all
       case _ => false
  }

  /** The steps left until the broadcast returns, of all threads together; `c` is the census of s. */
  function StepsLeft(s: State, b: nat, c: Census): int
    requires b < |s.pc|
  {
    7 * s.waitCount + match s.pc[b]
      case BroadcastCheck => 1
      case SignalCheck(_) => 0
      case SignalPost(_) => -1
      case _ => if s.event then -2 else if c.leave > 0 then -3 else if c.ack > 0 then 3 else 2
  }

  ghost predicate BroadcastOver(s: State, b: nat) {
    Inv(s) && b < |s.pc| && s.pc[b] == Idle && s.waitCount == 0 && !s.event && !s.ack
  }

  predicate Signalling(p: Pc) { p.BroadcastCheck? || p.SignalCheck? || p.SignalPost? || p.SignalAck? }

  /** The broadcaster's own step, over the counts. */
  lemma BroadcasterMoves(s: State, b: nat, c: Census)
    requires Broadcasting(s, b) && Balanced(s, c) && c.NonNegative() && c.Of(s.pc[b]) >= 1
    requires Enabled(s, b, Go, true)
    ensures var u := Do(s, b, Go);
            var d := c.Add(s.pc[b], -1).Add(u.pc[b], 1);
            && StepsLeft(s, b, c) >= 1
            && if StepsLeft(s, b, c) == 1 then u.pc[b] == Idle && u.waitCount == 0 && !u.event && !u.ack
               else u.owner == Some(b) && StepsLeft(u, b, d) == StepsLeft(s, b, c) - 1
                    && (u.pc[b] == BroadcastCheck || u.pc[b] == SignalPost(true) || u.pc[b] == SignalAck(true)
                        || (u.pc[b] == SignalCheck(true) && u.waitCount > 0))
  {
  }

  /** A waiter's step during the broadcast, over the counts: taking the event, leaving, or posting the ack. */
  lemma OthersMove(s: State, b: nat, t: nat, op: Op, c: Census)
    requires Broadcasting(s, b) && Balanced(s, c) && c.NonNegative() && c.Of(s.pc[b]) >= 1
    requires t != b && Enabled(s, t, op, false) && c.Of(s.pc[t]) >= 1
    requires !op.Signal? && !op.Broadcast? && !Signalling(s.pc[t])
    ensures var u := Do(s, t, op);
            var d := c.Add(s.pc[t], -1).Add(u.pc[t], 1);
            && StepsLeft(s, b, c) > 1 && StepsLeft(u, b, d) == StepsLeft(s, b, c) - 1
            && u.owner == Some(b) && u.pc[b] == s.pc[b] && s.pc[b].SignalAck?
  {
  }

  lemma BroadcasterStep(s: State, b: nat, op: Op)
    requires Broadcasting(s, b) && Enabled(s, b, op, true)
    ensures var u := Do(s, b, op);
            && StepsLeft(s, b, s.Count()) >= 1
            && if StepsLeft(s, b, s.Count()) == 1 then BroadcastOver(u, b)
               else Broadcasting(u, b) && StepsLeft(u, b, u.Count()) == StepsLeft(s, b, s.Count()) - 1
  {
    StepKeepsInv(s, b, op);
    DoCensus(s, b, op);
    BroadcasterMoves(s, b, s.Count());
  }

  /** The broadcaster is the only signalling thread. */
  lemma OnlyBroadcaster(s: State, b: nat, t: nat)
    requires Broadcasting(s, b) && t < |s.pc| && t != b
    ensures !Signalling(s.pc[t]) && s.Count().Signallers() >= 1 && s.Count().Of(s.pc[b]) >= 1
    ensures s.Count().NonNegative()
  {
    MoveCensus(s.pc, b, Idle);
    MoveCensus(s.pc[b := Idle], t, Idle);
  }

  lemma OtherStep(s: State, b: nat, t: nat, op: Op)
    requires Broadcasting(s, b) && Enabled(s, t, op, true) && t != b
    ensures var u := Do(s, t, op);
            && StepsLeft(s, b, s.Count()) > 1
            && Broadcasting(u, b) && StepsLeft(u, b, u.Count()) == StepsLeft(s, b, s.Count()) - 1
  {
    StepKeepsInv(s, t, op);
    DoCensus(s, t, op);
    OnlyBroadcaster(s, b, t);
    OthersMove(s, b, t, op, s.Count());
  }

  /** While the broadcaster holds the mutex, whatever step any thread takes brings the end one step nearer. */
  lemma BroadcastStep(s: State, b: nat, t: nat, op: Op)
    requires Broadcasting(s, b) && Enabled(s, t, op, true)
    ensures var u := Do(s, t, op);
            && StepsLeft(s, b, s.Count()) >= 1
            && if StepsLeft(s, b, s.Count()) == 1 then BroadcastOver(u, b)
               else Broadcasting(u, b) && StepsLeft(u, b, u.Count()) == StepsLeft(s, b, s.Count()) - 1
  {
    if t == b { BroadcasterStep(s, b, op); } else { OtherStep(s, b, t, op); }
  }

  /** A broadcast that is not over can always go on: some thread has a step. */
  lemma BroadcastProgress(s: State, b: nat)
    requires Broadcasting(s, b)
    ensures exists t :: 0 <= t < |s.pc| && Enabled(s, t, Go, true)
  {
    if s.pc[b].SignalAck? {
      SignalNeverStalls(s, b);
    } else {
      assert Enabled(s, b, Go, true);
    }
  }

  /**
   * A broadcast holding the mutex terminates with wait_count 0: a run of n steps, of any threads in any order,
   * is still inside the broadcast with exactly n fewer steps left, or the broadcast returned in it.
   */
  lemma {:induction false} BroadcastTerminates(s: State, b: nat, acts: seq<Action>, u: State)
    requires Broadcasting(s, b) && Run(true, s, acts, u)
    ensures |acts| < StepsLeft(s, b, s.Count()) ==>
              Broadcasting(u, b) && StepsLeft(u, b, u.Count()) == StepsLeft(s, b, s.Count()) - |acts|
    ensures |acts| == StepsLeft(s, b, s.Count()) ==> BroadcastOver(u, b)
    ensures StepsLeft(s, b, s.Count()) <= 7 * s.waitCount + 3
    decreases |acts|
  {
    BroadcastBound(s, b);
    if acts != [] {
      var v := Do(s, acts[0].t, acts[0].op);
      BroadcastStep(s, b, acts[0].t, acts[0].op);
      if StepsLeft(s, b, s.Count()) > 1 { BroadcastTerminates(v, b, acts[1..], u); }
    }
  }

  lemma BroadcastBound(s: State, b: nat)
    requires Broadcasting(s, b)
    ensures 1 <= StepsLeft(s, b, s.Count()) <= 7 * s.waitCount + 3
  {
    BroadcastProgress(s, b);
    var t :| 0 <= t < |s.pc| && Enabled(s, t, Go, true);
    BroadcastStep(s, b, t, Go);
  }
}

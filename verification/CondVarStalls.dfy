/**
 * Condition variables with any number of threads signalling at once: when a signal gets stuck waiting for its ack.
 */
module CondVarStalls {
  import opened Common
  import opened CondVar

  /** What is under way to waiting signallers: the event, the waiters between taking it and the ack, the ack. */
  function Tokens(s: State, c: Census): int { Bit(s.event) + c.leave + c.ack + Bit(s.ack) }

  /** How many more signallers wait than there are tokens. */
  function Deficit(s: State): int { s.Count().acking - Tokens(s, s.Count()) }

  /** The step posts a semaphore that is set already, so that two tokens become one. */
  predicate Merges(s: State, t: nat, op: Op)
    requires t < |s.pc|
  {
    op.Go? && ((s.pc[t].SignalPost? && s.event) || (s.pc[t].WaitAck? && s.ack))
  }

  /** The deficit grows by one with each merged post and never changes otherwise. */
  lemma DeficitStep(s: State, t: nat, op: Op)
    requires Enabled(s, t, op, false)
    ensures Deficit(Do(s, t, op)) == Deficit(s) + Bit(Merges(s, t, op))
  {
    hide CensusOf, Census.Add, Census.Of;
    DoCensus(s, t, op);
    CountStep(s, t, op, s.Count());
  }

  /** The step over the counts alone. */
  lemma CountStep(s: State, t: nat, op: Op, c: Census)
    requires Enabled(s, t, op, false)
    ensures var u := Do(s, t, op);
            var d := c.Add(s.pc[t], -1).Add(u.pc[t], 1);
            && d.acking - Tokens(u, d) == c.acking - Tokens(s, c) + Bit(Merges(s, t, op))
            && u.waitCount - (d.unlock + d.event + d.leave) == s.waitCount - (c.unlock + c.event + c.leave)
  {
  }

  /** The number of merged posts of a run. */
  ghost function Merged(s: State, acts: seq<Action>): nat
    decreases |acts|
  {
    if acts == [] || !Enabled(s, acts[0].t, acts[0].op, false) then 0
    else Bit(Merges(s, acts[0].t, acts[0].op)) + Merged(Do(s, acts[0].t, acts[0].op), acts[1..])
  }

  lemma {:induction false} DeficitAlongRun(s: State, acts: seq<Action>, u: State)
    requires Run(false, s, acts, u)
    ensures Deficit(u) == Deficit(s) + Merged(s, acts)
    decreases |acts|
  {
    if acts != [] {
      DeficitStep(s, acts[0].t, acts[0].op);
      DeficitAlongRun(Do(s, acts[0].t, acts[0].op), acts[1..], u);
    }
  }

  /** Nobody waits for an ack that is not accounted for at the start. */
  lemma NoDeficitAtStart(threads: nat)
    ensures Deficit(Initial(threads)) == 0
  {
    forall p: Pc | p in Initial(threads).pc ensures p == Idle {}
  }

  /** Some thread waits for an ack. */
  ghost predicate SomeoneWaits(s: State) {
    exists t :: 0 <= t < |s.pc| && s.pc[t].SignalAck?
  }

  lemma WaitsIffCounted(s: State)
    ensures SomeoneWaits(s) <==> s.Count().acking > 0
  {
    if s.Count().acking > 0 {
      var p := if At(s.pc, SignalAck(true)) > 0 then SignalAck(true) else SignalAck(false);
      assert p in multiset(s.pc);
      var t :| 0 <= t < |s.pc| && s.pc[t] == p;
    }
    if SomeoneWaits(s) {
      var t :| 0 <= t < |s.pc| && s.pc[t].SignalAck?;
      Occupied(s.pc, t);
    }
  }

  /** Once a post has merged some signaller waits in every later state, whatever any thread does. */
  lemma MergedPostHoldsUp(threads: nat, acts: seq<Action>, s: State, later: seq<Action>, u: State)
    requires Run(false, Initial(threads), acts, s) && Merged(Initial(threads), acts) > 0
    requires Run(false, s, later, u)
    ensures SomeoneWaits(u)
  {
    NoDeficitAtStart(threads);
    DeficitAlongRun(Initial(threads), acts, s);
    DeficitAlongRun(s, later, u);
    WaitsIffCounted(u);
    CountsAreCounts(u);
  }

  lemma CountsAreCounts(s: State)
    ensures s.Count().NonNegative()
  {
  }

  /** With one signaller at a time no post ever merges. */
  lemma AloneNothingMerges(s: State, t: nat, op: Op)
    requires Inv(s) && Enabled(s, t, op, true)
    ensures !Merges(s, t, op)
  {
    Occupied(s.pc, t);
  }

  // ---------- the states signals cannot get out of ----------

  /** Past the check of a signal that saw a waiter. */
  predicate Committed(p: Pc) { p.SignalPost? || p.SignalAck? }

  /** What every run keeps, also with many signallers. */
  ghost predicate Sound(s: State) { SoundBy(s, s.Count()) && Owned(s) }

  predicate SoundBy(s: State, c: Census) {
    s.waitCount == c.unlock + c.event + c.leave && c.acking >= Tokens(s, c)
  }

  /** Who may hold the mutex. */
  ghost predicate Owned(s: State) {
    && (forall t :: 0 <= t < |s.pc| && s.pc[t].WaitUnlock? ==> s.owner == Some(t))
    && (s.owner.Some? ==>
          s.owner.value < |s.pc|
          && !(s.pc[s.owner.value].WaitEvent? || s.pc[s.owner.value].WaitLeave? || s.pc[s.owner.value].WaitAck?
               || s.pc[s.owner.value].WaitLock?))
  }

  lemma SoundAtStart(threads: nat)
    ensures Sound(Initial(threads))
  {
    NoDeficitAtStart(threads);
    InitialInv(threads);
  }

  lemma SoundStep(s: State, t: nat, op: Op)
    requires Sound(s) && Enabled(s, t, op, false)
    ensures Sound(Do(s, t, op))
  {
    hide CensusOf, Census.Add, Census.Of, SoundBy, Owned;
    DoCensus(s, t, op);
    SoundCounts(s, t, op, s.Count());
    OwnedStep(s, t, op);
  }

  lemma SoundCounts(s: State, t: nat, op: Op, c: Census)
    requires SoundBy(s, c) && Enabled(s, t, op, false)
    ensures SoundBy(Do(s, t, op), c.Add(s.pc[t], -1).Add(Do(s, t, op).pc[t], 1))
  {
    CountStep(s, t, op, c);
  }

  lemma OwnedStep(s: State, t: nat, op: Op)
    requires Owned(s) && Enabled(s, t, op, false)
    ensures Owned(Do(s, t, op))
  {
  }

  lemma {:induction false} SoundAlongRun(s: State, acts: seq<Action>, u: State)
    requires Sound(s) && Run(false, s, acts, u)
    ensures Sound(u)
    decreases |acts|
  {
    if acts != [] {
      SoundStep(s, acts[0].t, acts[0].op);
      SoundAlongRun(Do(s, acts[0].t, acts[0].op), acts[1..], u);
    }
  }

  /**
   * The event was posted after the last waiter had left, and no thread can come to wait for it: the mutex is held
   * by a signaller that is itself committed, or free with every thread committed.
   */
  ghost predicate StrandedBy(s: State, c: Census) {
    && s.event && c.unlock == 0 && c.event == 0
    && match s.owner
       case Some(x) => x < |s.pc| && (s.pc[x].SignalPost? || (s.pc[x].SignalAck? && c.acking == 1))
       case None => c.acking == 1 && forall t :: 0 <= t < |s.pc| ==> Committed(s.pc[t])
  }

  ghost predicate Stranded(s: State) { StrandedBy(s, s.Count()) }

  ghost predicate Stuck(s: State) { Deficit(s) > 0 || Stranded(s) }

  lemma StuckWaits(s: State)
    requires Sound(s) && Stuck(s)
    ensures SomeoneWaits(s)
  {
    WaitsIffCounted(s);
    CountsAreCounts(s);
  }

  lemma StrandedStays(s: State, t: nat, op: Op)
    requires Sound(s) && Stranded(s) && Deficit(s) == 0 && Enabled(s, t, op, false) && !Merges(s, t, op)
    ensures Stranded(Do(s, t, op))
  {
    hide CensusOf, Census.Add, Census.Of, Tokens;
    DoCensus(s, t, op);
    StrandedCounts(s, t, op, s.Count());
  }

  lemma StrandedCounts(s: State, t: nat, op: Op, c: Census)
    requires StrandedBy(s, c) && c.acking == Tokens(s, c) && c.NonNegative()
    requires Enabled(s, t, op, false) && !Merges(s, t, op) && c.Of(s.pc[t]) >= 1
    requires s.waitCount == c.unlock + c.event + c.leave
    ensures StrandedBy(Do(s, t, op), c.Add(s.pc[t], -1).Add(Do(s, t, op).pc[t], 1))
  {
  }

  /** No step leads out of the stuck states. */
  lemma StuckStays(s: State, t: nat, op: Op)
    requires Sound(s) && Stuck(s) && Enabled(s, t, op, false)
    ensures Stuck(Do(s, t, op))
  {
    DeficitStep(s, t, op);
    if Deficit(Do(s, t, op)) == 0 { StrandedStays(s, t, op); }
  }

  lemma {:induction false} StuckAlongRun(s: State, acts: seq<Action>, u: State)
    requires Sound(s) && Stuck(s) && Run(false, s, acts, u)
    ensures Sound(u) && Stuck(u)
    decreases |acts|
  {
    if acts != [] {
      SoundStep(s, acts[0].t, acts[0].op);
      StuckStays(s, acts[0].t, acts[0].op);
      StuckAlongRun(Do(s, acts[0].t, acts[0].op), acts[1..], u);
    }
  }

  // ---------- the way out of all other states ----------

  /** How far the nearest thread is from waiting for the event. */
  ghost function Distance(s: State, c: Census): nat {
    if c.event > 0 then 0
    else if c.unlock > 0 then 1
    else
      match s.owner
      case Some(x) => if x < |s.pc| then FromMutex(s.pc[x]) else 3
      case None =>
        if exists t :: 0 <= t < |s.pc| && (s.pc[t].Idle? || s.pc[t].WaitLock?) then 3
        else if exists t :: 0 <= t < |s.pc| && (s.pc[t].BroadcastCheck? || s.pc[t] == SignalCheck(false)) then 4
        else 5
  }

  function FromMutex(p: Pc): nat {
    match p
    case Idle => 2
    case SignalCheck(all) => if all then 4 else 3
    case _ => 3
  }

  /** Bounds the steps until nobody waits for an ack when no post merges. */
  ghost function Remaining(s: State, c: Census): int {
    10 * (4 * Bit(s.event) + 3 * c.leave + 2 * c.ack + Bit(s.ack)) + Distance(s, c)
  }

  ghost predicate Helps(s: State, t: nat, op: Op) {
    && Enabled(s, t, op, false) && !Merges(s, t, op) && !Stranded(Do(s, t, op))
    && Remaining(Do(s, t, op), Do(s, t, op).Count()) < Remaining(s, s.Count())
  }

  /** The same over the counts; every thread counted in c stands somewhere. */
  ghost predicate HelpsBy(s: State, t: nat, op: Op, c: Census)
    requires Enabled(s, t, op, false)
  {
    var u := Do(s, t, op);
    var d := c.Add(s.pc[t], -1).Add(u.pc[t], 1);
    !Merges(s, t, op) && !StrandedBy(u, d) && Remaining(u, d) < Remaining(s, c)
  }

  lemma HelpsInFact(s: State, t: nat, op: Op)
    requires Enabled(s, t, op, false) && HelpsBy(s, t, op, s.Count())
    ensures Helps(s, t, op)
  {
    hide CensusOf, Census.Add, Census.Of, StrandedBy, Remaining;
    DoCensus(s, t, op);
  }

  /** A sound state that is not stuck, with its counts. */
  ghost predicate Open(s: State, c: Census) {
    && c.NonNegative() && c.acking == Tokens(s, c) && !StrandedBy(s, c)
    && s.waitCount == c.unlock + c.event + c.leave
    && (s.owner.Some? ==> s.owner.value < |s.pc| && !s.pc[s.owner.value].WaitEvent? && !s.pc[s.owner.value].WaitLeave?
                          && !s.pc[s.owner.value].WaitAck? && !s.pc[s.owner.value].WaitLock?)
  }

  /** The ack releases the holder of the mutex if it waits, any waiting signaller otherwise. */
  lemma AckHelps(s: State, t: nat, c: Census)
    requires Open(s, c) && t < |s.pc| && s.pc[t].SignalAck? && s.ack
    requires s.owner.Some? && s.pc[s.owner.value].SignalAck? ==> s.owner == Some(t)
    ensures HelpsBy(s, t, Go, c)
  {
    assert !Committed(Do(s, t, Go).pc[t]);
  }

  /** Taking the event, leaving and posting the ack all carry a token further. */
  lemma WaiterHelps(s: State, t: nat, c: Census)
    requires Open(s, c) && t < |s.pc|
    requires (s.pc[t].WaitAck? && !s.ack && c.ack > 0) || (s.pc[t].WaitLeave? && c.leave > 0)
             || (s.pc[t].WaitEvent? && s.event)
    ensures Enabled(s, t, Go, false) && HelpsBy(s, t, Go, c)
  {
    assert !Committed(Do(s, t, Go).pc[t]);
  }

  /** No waiter is in the wait, and the thread is the one nearest to it. */
  lemma ComerHelps(s: State, t: nat, op: Op, c: Census)
    requires Open(s, c) && s.event && !s.ack && c.leave == 0 && c.ack == 0 && c.event == 0
    requires Enabled(s, t, op, false)
    requires c.unlock > 0 ==> s.pc[t].WaitUnlock? && op.Go?
    requires c.unlock == 0 ==> !Committed(s.pc[t]) && !s.pc[t].WaitUnlock? && !s.pc[t].WaitEvent?
                               && !s.pc[t].WaitLeave? && !s.pc[t].WaitAck?
    requires c.unlock == 0 && s.owner.Some? ==> s.owner == Some(t) && (s.pc[t].Idle? ==> op.Wait?)
    requires c.unlock == 0 && s.owner.None? && s.pc[t].Idle? ==> op.Lock?
    requires c.unlock == 0 && s.owner.None? && !s.pc[t].Idle? && !s.pc[t].WaitLock? ==>
               Distance(s, c) == (if s.pc[t] == SignalCheck(true) then 5 else 4)
    ensures HelpsBy(s, t, op, c)
  {
    var u := Do(s, t, op);
    assert !Committed(u.pc[t]);
  }

  /** Only the event is under way and nobody waits for it yet: some thread comes one step nearer. */
  lemma Come(s: State) returns (t: nat, op: Op)
    requires Sound(s) && Open(s, s.Count()) && s.event && !s.ack
    requires s.Count().leave == 0 && s.Count().ack == 0 && s.Count().event == 0
    ensures Enabled(s, t, op, false) && HelpsBy(s, t, op, s.Count())
  {
    if s.Count().unlock > 0 {
      t := Standing(s.pc, WaitUnlock);
      op := Go;
    } else {
      t, op := Comer(s);
      Occupied(s.pc, t);
    }
    ComerHelps(s, t, op, s.Count());
  }

  lemma Comer(s: State) returns (t: nat, op: Op)
    requires Sound(s) && Open(s, s.Count()) && s.event && !s.ack
    requires s.waitCount == 0 && s.Count().unlock == 0 && s.Count().event == 0
    requires s.Count().leave == 0 && s.Count().ack == 0
    ensures Enabled(s, t, op, false) && !Committed(s.pc[t])
    ensures s.owner.Some? ==> s.owner == Some(t) && (s.pc[t].Idle? ==> op.Wait?)
    ensures s.owner.None? && s.pc[t].Idle? ==> op.Lock?
    ensures s.owner.None? && !s.pc[t].Idle? && !s.pc[t].WaitLock? ==>
              Distance(s, s.Count()) == (if s.pc[t] == SignalCheck(true) then 5 else 4)
  {
    op := Go;
    if s.owner.Some? {
      t := s.owner.value;
      if s.pc[t].Idle? { op := Wait; }
      Occupied(s.pc, t);
    } else if h :| 0 <= h < |s.pc| && (s.pc[h].Idle? || s.pc[h].WaitLock?) {
      t := h;
      if s.pc[t].Idle? { op := Lock; }
    } else if h :| 0 <= h < |s.pc| && (s.pc[h].BroadcastCheck? || s.pc[h] == SignalCheck(false)) {
      t := h;
    } else {
      t :| 0 <= t < |s.pc| && !Committed(s.pc[t]);
      Occupied(s.pc, t);
    }
  }

  lemma SomeStepHelps(s: State) returns (t: nat, op: Op)
    requires Sound(s) && !Stuck(s) && SomeoneWaits(s)
    ensures Helps(s, t, op)
  {
    WaitsIffCounted(s);
    CountsAreCounts(s);
    hide CensusOf, StrandedBy, HelpsBy, Helps;
    var c := s.Count();
    op := Go;
    if s.ack {
      t := Acker(s);
      AckHelps(s, t, c);
    } else if c.ack > 0 || c.leave > 0 || c.event > 0 {
      t := Waiter(s);
      WaiterHelps(s, t, c);
    } else {
      t, op := Come(s);
    }
    HelpsInFact(s, t, op);
  }

  lemma Acker(s: State) returns (t: nat)
    requires Sound(s) && s.Count().acking > 0
    ensures t < |s.pc| && s.pc[t].SignalAck?
    ensures s.owner.Some? && s.pc[s.owner.value].SignalAck? ==> s.owner == Some(t)
  {
    if s.owner.Some? && s.pc[s.owner.value].SignalAck? {
      t := s.owner.value;
    } else {
      t := Standing(s.pc, if At(s.pc, SignalAck(true)) > 0 then SignalAck(true) else SignalAck(false));
    }
  }

  lemma Waiter(s: State) returns (t: nat)
    requires s.Count().ack > 0 || s.Count().leave > 0 || s.Count().event > 0
    ensures t < |s.pc|
    ensures (s.pc[t].WaitAck? && s.Count().ack > 0) || (s.pc[t].WaitLeave? && s.Count().leave > 0)
            || (s.pc[t].WaitEvent? && s.Count().ack == 0 && s.Count().leave == 0)
  {
    t := Standing(s.pc, if s.Count().ack > 0 then WaitAck else if s.Count().leave > 0 then WaitLeave else WaitEvent);
  }

  /** From every state that is not stuck the threads can go on until nobody waits for an ack. */
  lemma Clear(s: State) returns (acts: seq<Action>, u: State)
    requires Sound(s) && !Stuck(s)
    ensures Run(false, s, acts, u) && !SomeoneWaits(u)
    decreases Remaining(s, s.Count())
  {
    if SomeoneWaits(s) {
      var t, op := SomeStepHelps(s);
      var v := Do(s, t, op);
      SoundStep(s, t, op);
      DeficitStep(s, t, op);
      CountsAreCounts(s);
      var rest;
      rest, u := Clear(v);
      acts := [Action(t, op)] + rest;
      assert acts[1..] == rest;
    } else {
      acts, u := [], s;
    }
  }

  ghost predicate Reaches(s: State, u: State) {
    exists acts :: Run(false, s, acts, u)
  }

  lemma StuckForEver(s: State, u: State)
    requires Sound(s) && Stuck(s) && Reaches(s, u)
    ensures SomeoneWaits(u)
  {
    var acts :| Run(false, s, acts, u);
    StuckAlongRun(s, acts, u);
    StuckWaits(u);
  }

  /**
   * When signals get stuck, exactly: from a reachable state some signaller waits in every later state if and only
   * if a post has merged or the event is stranded.
   */
  lemma StuckIff(threads: nat, acts: seq<Action>, s: State)
    requires Run(false, Initial(threads), acts, s)
    ensures (forall u :: Reaches(s, u) ==> SomeoneWaits(u))
            <==> Merged(Initial(threads), acts) > 0 || Stranded(s)
  {
    hide Sound, Stranded, Deficit, SomeoneWaits;
    NoDeficitAtStart(threads);
    DeficitAlongRun(Initial(threads), acts, s);
    SoundAtStart(threads);
    SoundAlongRun(Initial(threads), acts, s);
    if Stuck(s) {
      forall u | Reaches(s, u) ensures SomeoneWaits(u) { StuckForEver(s, u); }
    } else {
      var later, u := Clear(s);
      assert Reaches(s, u);
    }
  }

  // ---------- runs that get stuck ----------

  lemma {:induction false} Extend(from: State, acts: seq<Action>, s: State, t: nat, op: Op)
    returns (more: seq<Action>, u: State)
    requires Run(false, from, acts, s) && Enabled(s, t, op, false)
    ensures u == Do(s, t, op) && Run(false, from, more, u)
    ensures Merged(from, more) == Merged(from, acts) + Bit(Merges(s, t, op))
    decreases |acts|
  {
    u := Do(s, t, op);
    if acts == [] {
      more := [Action(t, op)];
      assert more[1..] == [];
    } else {
      var rest;
      rest, u := Extend(Do(from, acts[0].t, acts[0].op), acts[1..], s, t, op);
      more := [acts[0]] + rest;
      assert more[1..] == rest;
    }
  }

  const ONE_WAITS := State([WaitEvent, Idle, Idle], None, 1, false, false, 0, 0)
  const BOTH_SAW := State([WaitEvent, SignalPost(false), SignalPost(false)], None, 1, false, false, 0, 0)
  const BOTH_POSTED := State([WaitEvent, SignalAck(false), SignalAck(false)], None, 1, true, false, 0, 0)
  const TAKEN := State([WaitAck, SignalAck(false), SignalAck(false)], None, 0, false, false, 1, 0)
  const HELD_UP := State([WaitLock, Idle, SignalAck(false)], None, 0, false, false, 1, 0)
  const AGAIN := State([WaitEvent, Idle, SignalAck(false)], None, 1, false, false, 1, 0)
  const AGAIN_POSTED := State([WaitEvent, SignalAck(false), SignalAck(false)], None, 1, true, false, 1, 1)
  const EXCHANGED := State([WaitLock, SignalAck(false), Idle], None, 0, false, false, 2, 1)
  const HOLDER_SIGNALS := State([WaitEvent, SignalCheck(false), SignalCheck(false)], Some(1), 1, false, false, 0, 0)
  const HOLDER_SAW := State([WaitEvent, SignalPost(false), SignalAck(false)], Some(1), 1, true, false, 0, 0)
  const LEFT := State([WaitLock, SignalPost(false), SignalAck(false)], Some(1), 0, false, true, 1, 0)
  const STRANDED := State([WaitLock, SignalAck(false), Idle], Some(1), 0, true, false, 1, 0)

  lemma {:induction false} Join(s: State, a: seq<Action>, v: State, b: seq<Action>, u: State)
    requires Run(false, s, a, v) && Run(false, v, b, u)
    ensures Run(false, s, a + b, u) && Merged(s, a + b) == Merged(s, a) + Merged(v, b)
    decreases |a|
  {
    if a == [] {
      assert a + b == b;
    } else {
      assert (a + b)[1..] == a[1..] + b;
      Join(Do(s, a[0].t, a[0].op), a[1..], v, b, u);
    }
  }

  lemma OneWaits() returns (acts: seq<Action>)
    ensures Run(false, Initial(3), acts, ONE_WAITS) && Merged(Initial(3), acts) == 0
  {
    acts := [];
    var s := Initial(3);
    assert Run(false, s, acts, s) && Merged(s, acts) == 0;
    hide Run, Merged;
    acts, s := Extend(Initial(3), acts, s, 0, Lock);
    acts, s := Extend(Initial(3), acts, s, 0, Wait);
    acts, s := Extend(Initial(3), acts, s, 0, Go);
    assert s.pc == ONE_WAITS.pc;
  }

  lemma BothSee() returns (acts: seq<Action>)
    ensures Run(false, ONE_WAITS, acts, BOTH_SAW) && Merged(ONE_WAITS, acts) == 0
  {
    acts := [];
    var s := ONE_WAITS;
    assert Run(false, s, acts, s) && Merged(s, acts) == 0;
    hide Run, Merged;
    acts, s := Extend(ONE_WAITS, acts, s, 1, Signal);
    acts, s := Extend(ONE_WAITS, acts, s, 2, Signal);
    acts, s := Extend(ONE_WAITS, acts, s, 1, Go);
    acts, s := Extend(ONE_WAITS, acts, s, 2, Go);
    assert s.pc == BOTH_SAW.pc;
  }

  /** A run in which two signallers both see the one waiter. */
  lemma TwoSignallersSee() returns (acts: seq<Action>)
    ensures Run(false, Initial(3), acts, BOTH_SAW) && Merged(Initial(3), acts) == 0
  {
    var a := OneWaits();
    var b := BothSee();
    Join(Initial(3), a, ONE_WAITS, b, BOTH_SAW);
    acts := a + b;
  }

  lemma BothPost() returns (acts: seq<Action>)
    ensures Run(false, BOTH_SAW, acts, BOTH_POSTED) && Merged(BOTH_SAW, acts) == 1
  {
    acts := [];
    var s := BOTH_SAW;
    assert Run(false, s, acts, s) && Merged(s, acts) == 0;
    hide Run, Merged;
    acts, s := Extend(BOTH_SAW, acts, s, 1, Go);
    acts, s := Extend(BOTH_SAW, acts, s, 2, Go);
    assert s.pc == BOTH_POSTED.pc;
  }

  lemma WaiterTakes() returns (acts: seq<Action>)
    ensures Run(false, BOTH_POSTED, acts, TAKEN) && Merged(BOTH_POSTED, acts) == 0
  {
    acts := [];
    var s := BOTH_POSTED;
    assert Run(false, s, acts, s) && Merged(s, acts) == 0;
    hide Run, Merged;
    acts, s := Extend(BOTH_POSTED, acts, s, 0, Go);
    acts, s := Extend(BOTH_POSTED, acts, s, 0, Go);
    assert s.pc == TAKEN.pc;
  }

  lemma OneAck() returns (acts: seq<Action>)
    ensures Run(false, TAKEN, acts, HELD_UP) && Merged(TAKEN, acts) == 0
  {
    acts := [];
    var s := TAKEN;
    assert Run(false, s, acts, s) && Merged(s, acts) == 0;
    hide Run, Merged;
    acts, s := Extend(TAKEN, acts, s, 0, Go);
    acts, s := Extend(TAKEN, acts, s, 1, Go);
    assert s.pc == HELD_UP.pc;
  }

  /**
   * Both signallers saw the one waiter; their posts merge into one event and the waiter acknowledges once. From then
   * on some signaller always waits.
   */
  lemma TwoSignallersMerge() returns (acts: seq<Action>)
    ensures Run(false, Initial(3), acts, HELD_UP) && Merged(Initial(3), acts) == 1
    ensures !Enabled(HELD_UP, 2, Go, false) && forall u :: Reaches(HELD_UP, u) ==> SomeoneWaits(u)
  {
    hide Run, Merged, Reaches, SomeoneWaits, Stranded;
    var a := TwoSignallersSee();
    var b := BothPost();
    var c := WaiterTakes();
    var d := OneAck();
    Join(Initial(3), a, BOTH_SAW, b, BOTH_POSTED);
    Join(Initial(3), a + b, BOTH_POSTED, c, TAKEN);
    Join(Initial(3), a + b + c, TAKEN, d, HELD_UP);
    acts := a + b + c + d;
    StuckIff(3, acts, HELD_UP);
  }

  lemma WaiterReturns() returns (acts: seq<Action>)
    ensures Run(false, HELD_UP, acts, AGAIN) && Merged(HELD_UP, acts) == 0
  {
    acts := [];
    var s := HELD_UP;
    assert Run(false, s, acts, s) && Merged(s, acts) == 0;
    hide Run, Merged;
    acts, s := Extend(HELD_UP, acts, s, 0, Go);
    acts, s := Extend(HELD_UP, acts, s, 0, Wait);
    acts, s := Extend(HELD_UP, acts, s, 0, Go);
    assert s.pc == AGAIN.pc;
  }

  lemma AnotherPosts() returns (acts: seq<Action>)
    ensures Run(false, AGAIN, acts, AGAIN_POSTED) && Merged(AGAIN, acts) == 0
  {
    acts := [];
    var s := AGAIN;
    assert Run(false, s, acts, s) && Merged(s, acts) == 0;
    hide Run, Merged;
    acts, s := Extend(AGAIN, acts, s, 1, Signal);
    acts, s := Extend(AGAIN, acts, s, 1, Go);
    acts, s := Extend(AGAIN, acts, s, 1, Go);
    assert s.pc == AGAIN_POSTED.pc;
  }

  lemma OtherAck() returns (acts: seq<Action>)
    ensures Run(false, AGAIN_POSTED, acts, EXCHANGED) && Merged(AGAIN_POSTED, acts) == 0
  {
    acts := [];
    var s := AGAIN_POSTED;
    assert Run(false, s, acts, s) && Merged(s, acts) == 0;
    hide Run, Merged;
    acts, s := Extend(AGAIN_POSTED, acts, s, 0, Go);
    acts, s := Extend(AGAIN_POSTED, acts, s, 0, Go);
    acts, s := Extend(AGAIN_POSTED, acts, s, 0, Go);
    acts, s := Extend(AGAIN_POSTED, acts, s, 2, Go);
    assert s.pc == EXCHANGED.pc;
  }

  /** The signaller held up returns with the ack of a later signal, which is held up in its place. */
  lemma AnotherIsHeldUp() returns (acts: seq<Action>)
    ensures Run(false, HELD_UP, acts, EXCHANGED) && HELD_UP.pc[2].SignalAck? && EXCHANGED.pc[2].Idle?
    ensures EXCHANGED.pc[1].SignalAck?
  {
    hide Run, Merged;
    var a := WaiterReturns();
    var b := AnotherPosts();
    var c := OtherAck();
    Join(HELD_UP, a, AGAIN, b, AGAIN_POSTED);
    Join(HELD_UP, a + b, AGAIN_POSTED, c, EXCHANGED);
    acts := a + b + c;
  }

  lemma HolderSignals() returns (acts: seq<Action>)
    ensures Run(false, ONE_WAITS, acts, HOLDER_SIGNALS) && Merged(ONE_WAITS, acts) == 0
  {
    acts := [];
    var s := ONE_WAITS;
    assert Run(false, s, acts, s) && Merged(s, acts) == 0;
    hide Run, Merged;
    acts, s := Extend(ONE_WAITS, acts, s, 1, Lock);
    acts, s := Extend(ONE_WAITS, acts, s, 1, Signal);
    acts, s := Extend(ONE_WAITS, acts, s, 2, Signal);
    assert s.pc == HOLDER_SIGNALS.pc;
  }

  lemma HolderSees() returns (acts: seq<Action>)
    ensures Run(false, HOLDER_SIGNALS, acts, HOLDER_SAW) && Merged(HOLDER_SIGNALS, acts) == 0
  {
    acts := [];
    var s := HOLDER_SIGNALS;
    assert Run(false, s, acts, s) && Merged(s, acts) == 0;
    hide Run, Merged;
    acts, s := Extend(HOLDER_SIGNALS, acts, s, 1, Go);
    acts, s := Extend(HOLDER_SIGNALS, acts, s, 2, Go);
    acts, s := Extend(HOLDER_SIGNALS, acts, s, 2, Go);
    assert s.pc == HOLDER_SAW.pc;
  }

  lemma WaiterLeaves() returns (acts: seq<Action>)
    ensures Run(false, HOLDER_SAW, acts, LEFT) && Merged(HOLDER_SAW, acts) == 0
  {
    acts := [];
    var s := HOLDER_SAW;
    assert Run(false, s, acts, s) && Merged(s, acts) == 0;
    hide Run, Merged;
    acts, s := Extend(HOLDER_SAW, acts, s, 0, Go);
    acts, s := Extend(HOLDER_SAW, acts, s, 0, Go);
    acts, s := Extend(HOLDER_SAW, acts, s, 0, Go);
    assert s.pc == LEFT.pc;
  }

  lemma HolderPosts() returns (acts: seq<Action>)
    ensures Run(false, LEFT, acts, STRANDED) && Merged(LEFT, acts) == 0
  {
    acts := [];
    var s := LEFT;
    assert Run(false, s, acts, s) && Merged(s, acts) == 0;
    hide Run, Merged;
    acts, s := Extend(LEFT, acts, s, 2, Go);
    acts, s := Extend(LEFT, acts, s, 1, Go);
    assert s.pc == STRANDED.pc;
  }

  lemma StrandedIsStranded()
    ensures Stranded(STRANDED)
  {
  }

  /** A signaller that holds the mutex posts after the last waiter has left: nothing merged, and it waits for ever. */
  lemma HolderIsStranded() returns (acts: seq<Action>)
    ensures Run(false, Initial(3), acts, STRANDED) && Merged(Initial(3), acts) == 0
    ensures Stranded(STRANDED) && forall u :: Reaches(STRANDED, u) ==> SomeoneWaits(u)
  {
    hide Run, Merged, Reaches, SomeoneWaits, Stranded;
    StrandedIsStranded();
    var a := OneWaits();
    var b := HolderSignals();
    var c := HolderSees();
    var d := WaiterLeaves();
    var e := HolderPosts();
    Join(Initial(3), a, ONE_WAITS, b, HOLDER_SIGNALS);
    Join(Initial(3), a + b, HOLDER_SIGNALS, c, HOLDER_SAW);
    Join(Initial(3), a + b + c, HOLDER_SAW, d, LEFT);
    Join(Initial(3), a + b + c + d, LEFT, e, STRANDED);
    acts := a + b + c + d + e;
    StuckIff(3, acts, STRANDED);
  }
}

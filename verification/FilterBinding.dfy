/**
 * Binding the inputs and outputs of complex filtergraphs: a dry run marks the outputs that some input would take,
 * internal graphs with an unmarked output are removed and the dry run is repeated, then a second pass binds.
 */
module FilterBinding {
  import opened Common

  datatype MediaType = Video | Audio

  datatype PadDesc = PadDesc(link: Option<string>, mediaType: MediaType)

  datatype Graph = Graph(id: nat, internal: bool, inputs: seq<PadDesc>, outputs: seq<PadDesc>)

  /** Input or output number `index` of the graph with the given id. */
  datatype Pad = Pad(graph: nat, index: nat)

  const DECODER_PREFIX := "dec:"

  /** A label naming a standalone decoder. */
  predicate NamesDecoder(link: Option<string>) { link.Some? && DECODER_PREFIX <= link.value }

  /** An unlabelled input takes any output, a labelled one an output with its label. */
  predicate Accepts(want: Option<string>, output: PadDesc) { want.None? || output.link == want }

  ghost predicate DistinctIds(gs: seq<Graph>) {
    forall i, j :: 0 <= i < j < |gs| ==> gs[i].id != gs[j].id
  }

  /** The first free acceptable output of g from number j on. */
  function FindIn(g: Graph, bound: set<Pad>, want: Option<string>, j: nat): Option<Pad>
    requires j <= |g.outputs|
    decreases |g.outputs| - j
  {
    if j == |g.outputs| then None
    else if Pad(g.id, j) !in bound && Accepts(want, g.outputs[j]) then Some(Pad(g.id, j))
    else FindIn(g, bound, want, j + 1)
  }

  /** The first free acceptable output of the graphs from number i on, leaving out the graph `self`. */
  function Find(gs: seq<Graph>, bound: set<Pad>, self: nat, want: Option<string>, i: nat): Option<Pad>
    requires i <= |gs|
    decreases |gs| - i
  {
    if i == |gs| then None
    else if gs[i].id != self && FindIn(gs[i], bound, want, 0).Some? then FindIn(gs[i], bound, want, 0)
    else Find(gs, bound, self, want, i + 1)
  }

  /** p is an output of a graph of gs. */
  ghost predicate IsOutput(gs: seq<Graph>, p: Pad) {
    exists i :: 0 <= i < |gs| && gs[i].id == p.graph && p.index < |gs[i].outputs|
  }

  lemma {:induction false} FindInIsFree(g: Graph, bound: set<Pad>, want: Option<string>, j: nat)
    requires j <= |g.outputs|
    ensures var r := FindIn(g, bound, want, j);
            && (r.Some? ==> r.value.graph == g.id && j <= r.value.index < |g.outputs| && r.value !in bound
                            && Accepts(want, g.outputs[r.value.index]))
            && (r.None? ==> forall k :: j <= k < |g.outputs| ==> Pad(g.id, k) in bound || !Accepts(want, g.outputs[k]))
    decreases |g.outputs| - j
  {
    if j < |g.outputs| { FindInIsFree(g, bound, want, j + 1); }
  }

  /** p is a free output of a graph of gs other than `self` that an input wanting `want` accepts. */
  ghost predicate Suits(gs: seq<Graph>, bound: set<Pad>, self: nat, want: Option<string>, p: Pad) {
    && p !in bound && p.graph != self
    && exists i :: 0 <= i < |gs| && gs[i].id == p.graph && p.index < |gs[i].outputs|
                   && Accepts(want, gs[i].outputs[p.index])
  }

  /** Find fails exactly when nothing suits, and what it finds suits. */
  lemma {:induction false} FindSuits(gs: seq<Graph>, bound: set<Pad>, self: nat, want: Option<string>, i: nat)
    requires i <= |gs|
    ensures var r := Find(gs, bound, self, want, i);
            && (r.Some? ==> Suits(gs, bound, self, want, r.value))
            && (r.None? ==> forall n, k :: i <= n < |gs| && 0 <= k < |gs[n].outputs| ==>
                  gs[n].id == self || Pad(gs[n].id, k) in bound || !Accepts(want, gs[n].outputs[k]))
    decreases |gs| - i
  {
    if i < |gs| {
      FindInIsFree(gs[i], bound, want, 0);
      FindSuits(gs, bound, self, want, i + 1);
    }
  }

  lemma {:induction false} FindInStays(g: Graph, bound: set<Pad>, more: set<Pad>, want: Option<string>, j: nat)
    requires bound <= more && j <= |g.outputs|
    ensures FindIn(g, bound, want, j).None? ==> FindIn(g, more, want, j).None?
    ensures FindIn(g, bound, want, j).Some? && FindIn(g, bound, want, j).value !in more
            ==> FindIn(g, more, want, j) == FindIn(g, bound, want, j)
    decreases |g.outputs| - j
  {
    if j < |g.outputs| { FindInStays(g, bound, more, want, j + 1); }
  }

  /** While outputs only get bound, an input's first choice stays its first choice until it is taken. */
  lemma {:induction false} FindStays(
    gs: seq<Graph>, bound: set<Pad>, more: set<Pad>, self: nat, want: Option<string>, i: nat)
    requires bound <= more && i <= |gs|
    ensures var r := Find(gs, bound, self, want, i);
            r.Some? && r.value !in more ==> Find(gs, more, self, want, i) == r
    decreases |gs| - i
  {
    if i < |gs| {
      FindInStays(gs[i], bound, more, want, 0);
      FindStays(gs, bound, more, self, want, i + 1);
    }
  }

  /** Input k of g still looks for an output: unbound and not naming a decoder. */
  predicate Seeks(g: Graph, k: nat, boundIn: set<Pad>)
    requires k < |g.inputs|
  {
    Pad(g.id, k) !in boundIn && !NamesDecoder(g.inputs[k].link)
  }

  function Choice(gs: seq<Graph>, bound: set<Pad>, g: Graph, k: nat): Option<Pad>
    requires k < |g.inputs|
  {
    Find(gs, bound, g.id, g.inputs[k].link, 0)
  }

  /** The outputs the first `n` inputs of g choose. */
  function MarksOf(gs: seq<Graph>, bound: set<Pad>, boundIn: set<Pad>, g: Graph, n: nat): set<Pad>
    requires n <= |g.inputs|
  {
    set k | 0 <= k < n && Seeks(g, k, boundIn) && Choice(gs, bound, g, k).Some? :: Choice(gs, bound, g, k).value
  }

  /** The outputs the inputs of the first `n` graphs choose. */
  function Marks(gs: seq<Graph>, bound: set<Pad>, boundIn: set<Pad>, n: nat): set<Pad>
    requires n <= |gs|
  {
    if n == 0 then {} else Marks(gs, bound, boundIn, n - 1) + MarksOf(gs, bound, boundIn, gs[n - 1], |gs[n - 1].inputs|)
  }

  /** From `base` to `now` only inputs that name decoders got bound. */
  ghost predicate OnlyDecoders(gs: seq<Graph>, base: set<Pad>, now: set<Pad>) {
    && base <= now
    && forall g, k :: g in gs && 0 <= k < |g.inputs| && Pad(g.id, k) in now && Pad(g.id, k) !in base
         ==> NamesDecoder(g.inputs[k].link)
  }

  lemma MarksOfSame(gs: seq<Graph>, bound: set<Pad>, base: set<Pad>, now: set<Pad>, g: Graph, n: nat)
    requires OnlyDecoders(gs, base, now) && g in gs && n <= |g.inputs|
    ensures MarksOf(gs, bound, base, g, n) == MarksOf(gs, bound, now, g, n)
  {
    assert forall k :: 0 <= k < n ==> Seeks(g, k, base) == Seeks(g, k, now);
  }

  lemma {:induction false} MarksSame(gs: seq<Graph>, bound: set<Pad>, base: set<Pad>, now: set<Pad>, n: nat)
    requires OnlyDecoders(gs, base, now) && n <= |gs|
    ensures Marks(gs, bound, base, n) == Marks(gs, bound, now, n)
  {
    if n > 0 {
      MarksSame(gs, bound, base, now, n - 1);
      MarksOfSame(gs, bound, base, now, gs[n - 1], |gs[n - 1].inputs|);
    }
  }

  lemma MarksOfNext(gs: seq<Graph>, bound: set<Pad>, boundIn: set<Pad>, g: Graph, n: nat)
    requires n < |g.inputs|
    ensures MarksOf(gs, bound, boundIn, g, n + 1)
            == MarksOf(gs, bound, boundIn, g, n)
               + if Seeks(g, n, boundIn) && Choice(gs, bound, g, n).Some? then {Choice(gs, bound, g, n).value} else {}
  {
  }

  /** A marked output is the choice of some seeking input, and every such choice is marked. */
  lemma {:induction false} MarkedIff(gs: seq<Graph>, bound: set<Pad>, boundIn: set<Pad>, n: nat, p: Pad)
    requires n <= |gs|
    ensures p in Marks(gs, bound, boundIn, n) <==>
            exists i, k :: 0 <= i < n && 0 <= k < |gs[i].inputs| && Seeks(gs[i], k, boundIn)
                           && Choice(gs, bound, gs[i], k) == Some(p)
  {
    if n > 0 { MarkedIff(gs, bound, boundIn, n - 1, p); }
  }

  function PadsOf(g: Graph, n: nat): set<Pad> { set k | 0 <= k < n :: Pad(g.id, k) }

  /** The input pads of the first n graphs. */
  function PadsUpTo(gs: seq<Graph>, n: nat): set<Pad>
    requires n <= |gs|
  {
    if n == 0 then {} else PadsUpTo(gs, n - 1) + PadsOf(gs[n - 1], |gs[n - 1].inputs|)
  }

  lemma {:induction false} PadsUpToAre(gs: seq<Graph>, n: nat)
    requires n <= |gs|
    ensures forall p :: p in PadsUpTo(gs, n) ==> exists i :: 0 <= i < n && gs[i].id == p.graph
    ensures forall i, k :: 0 <= i < n && 0 <= k < |gs[i].inputs| ==> Pad(gs[i].id, k) in PadsUpTo(gs, n)
  {
    if n > 0 { PadsUpToAre(gs, n - 1); }
  }

  /** The choices, made while `bound` was bound, of the first n inputs of g are all taken now. */
  ghost predicate Served(gs: seq<Graph>, bound: set<Pad>, boundIn: set<Pad>, g: Graph, n: nat, now: set<Pad>)
    requires n <= |g.inputs|
  {
    forall k :: 0 <= k < n && Seeks(g, k, boundIn) && Choice(gs, bound, g, k).Some?
      ==> Choice(gs, bound, g, k).value in now
  }

  // ---------- pruning as a fixpoint ----------

  /** What pruning depends on besides the graphs: bound outputs, bound inputs, outputs wanted by encoders. */
  datatype Context = Context(boundOut: set<Pad>, boundIn: set<Pad>, wanted: set<Pad>)

  /** Some seeking input of another graph of S names output j of g. */
  ghost predicate Linked(S: set<Graph>, c: Context, g: Graph, j: nat)
    requires j < |g.outputs|
  {
    exists h, k :: h in S && h.id != g.id && 0 <= k < |h.inputs| && Seeks(h, k, c.boundIn)
                   && h.inputs[k].link == g.outputs[j].link
  }

  /** Every output of g is wanted by an encoder or free and named by an input of S. */
  ghost predicate Needed(S: set<Graph>, c: Context, g: Graph) {
    forall j :: 0 <= j < |g.outputs| ==>
      Pad(g.id, j) in c.wanted || (Pad(g.id, j) !in c.boundOut && Linked(S, c, g, j))
  }

  /** Every internal graph of S is needed within S. */
  ghost predicate Consistent(S: set<Graph>, c: Context) {
    forall g :: g in S && g.internal ==> Needed(S, c, g)
  }

  /** S is consistent and contains every consistent part of `all`. */
  ghost predicate IsLargest(S: set<Graph>, all: set<Graph>, c: Context) {
    S <= all && Consistent(S, c) && forall T: set<Graph> :: T <= all && Consistent(T, c) ==> T <= S
  }

  lemma NeededGrows(S: set<Graph>, T: set<Graph>, c: Context, g: Graph)
    requires T <= S && Needed(T, c, g)
    ensures Needed(S, c, g)
  {
    forall j | 0 <= j < |g.outputs| && Linked(T, c, g, j) ensures Linked(S, c, g, j) {
      var h, k :| h in T && h.id != g.id && 0 <= k < |h.inputs| && Seeks(h, k, c.boundIn)
                  && h.inputs[k].link == g.outputs[j].link;
    }
  }

  /** Removing, one by one and in any order, internal graphs that are not needed among those left. */
  ghost predicate Prunes(S: set<Graph>, order: seq<Graph>, c: Context, left: set<Graph>)
    decreases |order|
  {
    if order == [] then S == left
    else order[0] in S && order[0].internal && !Needed(S, c, order[0]) && Prunes(S - {order[0]}, order[1..], c, left)
  }

  /** No removal ever costs a graph of a consistent part. */
  lemma {:induction false} PruningKeepsConsistent(
    S: set<Graph>, order: seq<Graph>, c: Context, left: set<Graph>, T: set<Graph>)
    requires Prunes(S, order, c, left) && T <= S && Consistent(T, c)
    ensures T <= left <= S
    decreases |order|
  {
    if order != [] {
      if order[0] in T { NeededGrows(S, T, c, order[0]); }
      PruningKeepsConsistent(S - {order[0]}, order[1..], c, left, T);
    }
  }

  /** Whatever the order of removals, survivors that are consistent are the largest consistent part. */
  lemma PruningOrderIrrelevant(all: set<Graph>, order: seq<Graph>, c: Context, left: set<Graph>)
    requires Prunes(all, order, c, left) && Consistent(left, c)
    ensures IsLargest(left, all, c)
  {
    PruningKeepsConsistent(all, order, c, left, {});
    forall T: set<Graph> | T <= all && Consistent(T, c) ensures T <= left {
      PruningKeepsConsistent(all, order, c, left, T);
    }
  }

  lemma LargestIsUnique(S: set<Graph>, T: set<Graph>, all: set<Graph>, c: Context)
    requires IsLargest(S, all, c) && IsLargest(T, all, c)
    ensures S == T
  {
  }

  /** Every input that seeks an output names it, and no two free outputs share a name. */
  ghost predicate WellLabelled(gs: seq<Graph>, c: Context) {
    && (forall g, k :: g in gs && 0 <= k < |g.inputs| && Seeks(g, k, c.boundIn) ==> g.inputs[k].link.Some?)
    && (forall g, h, j, l :: g in gs && h in gs && 0 <= j < |g.outputs| && 0 <= l < |h.outputs| ==>
          Pad(g.id, j) in c.boundOut || Pad(h.id, l) in c.boundOut || g.outputs[j].link.None?
          || g.outputs[j].link != h.outputs[l].link || (g == h && j == l))
  }

  function ToSet(gs: seq<Graph>): set<Graph> { set g | g in gs }

  /** With well-labelled pads an output is marked by the dry run exactly when it is free and named by an input. */
  lemma MarkedIffLinked(gs: seq<Graph>, c: Context, i: nat, j: nat)
    requires DistinctIds(gs) && WellLabelled(gs, c) && i < |gs| && j < |gs[i].outputs|
    ensures Pad(gs[i].id, j) in Marks(gs, c.boundOut, c.boundIn, |gs|)
            <==> Pad(gs[i].id, j) !in c.boundOut && Linked(ToSet(gs), c, gs[i], j)
  {
    var p := Pad(gs[i].id, j);
    MarkedIff(gs, c.boundOut, c.boundIn, |gs|, p);
    if p in Marks(gs, c.boundOut, c.boundIn, |gs|) {
      var n, k :| 0 <= n < |gs| && 0 <= k < |gs[n].inputs| && Seeks(gs[n], k, c.boundIn)
                  && Choice(gs, c.boundOut, gs[n], k) == Some(p);
      ChosenIsLinked(gs, c, i, j, n, k);
    }
    if p !in c.boundOut && Linked(ToSet(gs), c, gs[i], j) {
      var h, k :| h in ToSet(gs) && h.id != gs[i].id && 0 <= k < |h.inputs| && Seeks(h, k, c.boundIn)
                  && h.inputs[k].link == gs[i].outputs[j].link;
      var n :| 0 <= n < |gs| && gs[n] == h;
      NamedIsChosen(gs, c, i, j, n, k);
    }
  }

  lemma ChosenIsLinked(gs: seq<Graph>, c: Context, i: nat, j: nat, n: nat, k: nat)
    requires DistinctIds(gs) && WellLabelled(gs, c) && i < |gs| && j < |gs[i].outputs| && n < |gs|
    requires k < |gs[n].inputs| && Seeks(gs[n], k, c.boundIn)
    requires Choice(gs, c.boundOut, gs[n], k) == Some(Pad(gs[i].id, j))
    ensures Pad(gs[i].id, j) !in c.boundOut && Linked(ToSet(gs), c, gs[i], j)
  {
    FindSuits(gs, c.boundOut, gs[n].id, gs[n].inputs[k].link, 0);
    assert gs[n] in ToSet(gs) && gs[n].inputs[k].link == gs[i].outputs[j].link;
  }

  lemma NamedIsChosen(gs: seq<Graph>, c: Context, i: nat, j: nat, n: nat, k: nat)
    requires DistinctIds(gs) && WellLabelled(gs, c) && i < |gs| && j < |gs[i].outputs| && n < |gs|
    requires k < |gs[n].inputs| && Seeks(gs[n], k, c.boundIn) && gs[n].id != gs[i].id
    requires Pad(gs[i].id, j) !in c.boundOut && gs[n].inputs[k].link == gs[i].outputs[j].link
    ensures Choice(gs, c.boundOut, gs[n], k) == Some(Pad(gs[i].id, j))
  {
    FindSuits(gs, c.boundOut, gs[n].id, gs[n].inputs[k].link, 0);
  }

  /** One retry: the removed graph is in no consistent part of what it was removed from. */
  lemma RemovalIsForced(gs: seq<Graph>, c: Context, i: nat, j: nat, T: set<Graph>)
    requires DistinctIds(gs) && WellLabelled(gs, c) && i < |gs| && gs[i].internal && j < |gs[i].outputs|
    requires Pad(gs[i].id, j) !in c.wanted && Pad(gs[i].id, j) !in Marks(gs, c.boundOut, c.boundIn, |gs|)
    requires T <= ToSet(gs) && Consistent(T, c)
    ensures T <= ToSet(gs[..i] + gs[i + 1..])
  {
    MarkedIffLinked(gs, c, i, j);
    if gs[i] in T { NeededGrows(ToSet(gs), T, c, gs[i]); }
    assert gs == gs[..i] + [gs[i]] + gs[i + 1..];
  }

  /** When every output is wanted or marked, the graphs are consistent. */
  lemma AllMarkedIsConsistent(gs: seq<Graph>, c: Context)
    requires DistinctIds(gs) && WellLabelled(gs, c)
    requires forall i, j :: 0 <= i < |gs| && 0 <= j < |gs[i].outputs| ==>
               Pad(gs[i].id, j) in c.wanted || Pad(gs[i].id, j) in Marks(gs, c.boundOut, c.boundIn, |gs|)
    ensures Consistent(ToSet(gs), c)
  {
    forall g, j | g in ToSet(gs) && 0 <= j < |g.outputs|
      ensures Pad(g.id, j) in c.wanted || (Pad(g.id, j) !in c.boundOut && Linked(ToSet(gs), c, g, j))
    {
      var i :| 0 <= i < |gs| && gs[i] == g;
      MarkedIffLinked(gs, c, i, j);
    }
  }

  // ---------- labels that are not unique ----------

  /** Output (n, l) comes before output (i, j) in the order of the search. */
  predicate Earlier(n: nat, l: nat, i: nat, j: nat) { n < i || (n == i && l < j) }

  /** Input k of h could take output l of graph n. */
  ghost predicate CouldTake(gs: seq<Graph>, bound: set<Pad>, h: Graph, k: nat, n: nat, l: nat)
    requires k < |h.inputs|
  {
    && n < |gs| && l < |gs[n].outputs| && gs[n].id != h.id && Pad(gs[n].id, l) !in bound
    && Accepts(h.inputs[k].link, gs[n].outputs[l])
  }

  /** Some output before (i, j) is taken by input k of h first. */
  ghost predicate Preempted(gs: seq<Graph>, bound: set<Pad>, h: Graph, k: nat, i: nat, j: nat)
    requires k < |h.inputs|
  {
    exists n, l :: CouldTake(gs, bound, h, k, n, l) && Earlier(n, l, i, j)
  }

  lemma {:induction false} FindInIsFirst(g: Graph, bound: set<Pad>, want: Option<string>, j: nat, l: nat)
    requires j <= |g.outputs| && l < |g.outputs|
    ensures FindIn(g, bound, want, j) == Some(Pad(g.id, l)) <==>
            && j <= l && Pad(g.id, l) !in bound && Accepts(want, g.outputs[l])
            && forall q :: j <= q < l ==> Pad(g.id, q) in bound || !Accepts(want, g.outputs[q])
    decreases |g.outputs| - j
  {
    if j < |g.outputs| { FindInIsFirst(g, bound, want, j + 1, l); }
  }

  /** No output of graph n can be taken. */
  ghost predicate NoneIn(g: Graph, bound: set<Pad>, self: nat, want: Option<string>) {
    g.id == self || forall q :: 0 <= q < |g.outputs| ==> Pad(g.id, q) in bound || !Accepts(want, g.outputs[q])
  }

  /** The search returns the first output that can be taken. */
  lemma {:induction false} FindIsFirst(
    gs: seq<Graph>, bound: set<Pad>, self: nat, want: Option<string>, m: nat, i: nat, j: nat)
    requires DistinctIds(gs) && m <= |gs| && i < |gs| && j < |gs[i].outputs|
    ensures Find(gs, bound, self, want, m) == Some(Pad(gs[i].id, j)) <==>
            && m <= i && gs[i].id != self && FindIn(gs[i], bound, want, 0) == Some(Pad(gs[i].id, j))
            && forall n :: m <= n < i ==> NoneIn(gs[n], bound, self, want)
    decreases |gs| - m
  {
    if m < |gs| {
      FindInIsFree(gs[m], bound, want, 0);
      FindIsFirst(gs, bound, self, want, m + 1, i, j);
    }
  }

  lemma ChosenIff(gs: seq<Graph>, bound: set<Pad>, h: Graph, k: nat, i: nat, j: nat)
    requires DistinctIds(gs) && k < |h.inputs| && i < |gs| && j < |gs[i].outputs|
    ensures Choice(gs, bound, h, k) == Some(Pad(gs[i].id, j))
            <==> CouldTake(gs, bound, h, k, i, j) && !Preempted(gs, bound, h, k, i, j)
  {
    var want := h.inputs[k].link;
    FindIsFirst(gs, bound, h.id, want, 0, i, j);
    FindInIsFirst(gs[i], bound, want, 0, j);
    if CouldTake(gs, bound, h, k, i, j) && !Preempted(gs, bound, h, k, i, j) {
      forall q | 0 <= q < j ensures Pad(gs[i].id, q) in bound || !Accepts(want, gs[i].outputs[q]) {
        assert CouldTake(gs, bound, h, k, i, q) ==> Earlier(i, q, i, j);
      }
      forall n | 0 <= n < i ensures NoneIn(gs[n], bound, h.id, want) {
        forall q | 0 <= q < |gs[n].outputs| && gs[n].id != h.id
          ensures Pad(gs[n].id, q) in bound || !Accepts(want, gs[n].outputs[q])
        {
          assert CouldTake(gs, bound, h, k, n, q) ==> Earlier(n, q, i, j);
        }
      }
    }
  }

  /** For any labels: an output is marked exactly when a seeking input could take it and no earlier one. */
  lemma MarkedIffFirst(gs: seq<Graph>, bound: set<Pad>, boundIn: set<Pad>, i: nat, j: nat)
    requires DistinctIds(gs) && i < |gs| && j < |gs[i].outputs|
    ensures Pad(gs[i].id, j) in Marks(gs, bound, boundIn, |gs|) <==>
            exists m, k :: 0 <= m < |gs| && 0 <= k < |gs[m].inputs| && Seeks(gs[m], k, boundIn)
                           && CouldTake(gs, bound, gs[m], k, i, j) && !Preempted(gs, bound, gs[m], k, i, j)
  {
    MarkedIff(gs, bound, boundIn, |gs|, Pad(gs[i].id, j));
    forall m, k | 0 <= m < |gs| && 0 <= k < |gs[m].inputs| && Seeks(gs[m], k, boundIn)
      ensures Choice(gs, bound, gs[m], k) == Some(Pad(gs[i].id, j))
              <==> CouldTake(gs, bound, gs[m], k, i, j) && !Preempted(gs, bound, gs[m], k, i, j)
    {
      ChosenIff(gs, bound, gs[m], k, i, j);
    }
  }

  // ---------- the search, in terms of labels ----------

  /** Output l of graph n exists, is free and belongs to another graph than `self`. */
  ghost predicate Free(gs: seq<Graph>, bound: set<Pad>, self: nat, n: nat, l: nat) {
    n < |gs| && l < |gs[n].outputs| && gs[n].id != self && Pad(gs[n].id, l) !in bound
  }

  /** Output l of graph n carries the label. */
  ghost predicate Carries(gs: seq<Graph>, n: nat, l: nat, name: string) {
    n < |gs| && l < |gs[n].outputs| && gs[n].outputs[l].link == Some(name)
  }

  lemma SearchIff(gs: seq<Graph>, bound: set<Pad>, self: nat, want: Option<string>, i: nat, j: nat)
    requires DistinctIds(gs) && i < |gs| && j < |gs[i].outputs|
    ensures var h := Graph(self, false, [PadDesc(want, Video)], []);
            Find(gs, bound, self, want, 0) == Some(Pad(gs[i].id, j))
            <==> CouldTake(gs, bound, h, 0, i, j) && !Preempted(gs, bound, h, 0, i, j)
  {
    var h := Graph(self, false, [PadDesc(want, Video)], []);
    ChosenIff(gs, bound, h, 0, i, j);
    assert Choice(gs, bound, h, 0) == Find(gs, bound, self, want, 0);
  }

  /** Without a label the search returns the first free output of another graph, and fails only when all are bound. */
  lemma UnlabelledSearch(gs: seq<Graph>, bound: set<Pad>, self: nat)
    requires DistinctIds(gs)
    ensures Find(gs, bound, self, None, 0).None? <==> forall n, l :: !Free(gs, bound, self, n, l)
    ensures forall i, j :: 0 <= i < |gs| && 0 <= j < |gs[i].outputs| ==>
              (Find(gs, bound, self, None, 0) == Some(Pad(gs[i].id, j)) <==>
               Free(gs, bound, self, i, j) && forall n, l :: Free(gs, bound, self, n, l) ==> !Earlier(n, l, i, j))
  {
    FindSuits(gs, bound, self, None, 0);
    var h := Graph(self, false, [PadDesc(None, Video)], []);
    forall n, l ensures CouldTake(gs, bound, h, 0, n, l) <==> Free(gs, bound, self, n, l) {}
    forall i, j | 0 <= i < |gs| && 0 <= j < |gs[i].outputs|
      ensures Find(gs, bound, self, None, 0) == Some(Pad(gs[i].id, j)) <==>
              Free(gs, bound, self, i, j) && forall n, l :: Free(gs, bound, self, n, l) ==> !Earlier(n, l, i, j)
    {
      SearchIff(gs, bound, self, None, i, j);
    }
  }

  /** With a label the search returns the first free output of another graph that carries it. */
  lemma LabelledSearch(gs: seq<Graph>, bound: set<Pad>, self: nat, name: string)
    requires DistinctIds(gs)
    ensures Find(gs, bound, self, Some(name), 0).None?
            <==> forall n, l :: Free(gs, bound, self, n, l) ==> !Carries(gs, n, l, name)
    ensures forall i, j :: 0 <= i < |gs| && 0 <= j < |gs[i].outputs| ==>
              (Find(gs, bound, self, Some(name), 0) == Some(Pad(gs[i].id, j)) <==>
               && Free(gs, bound, self, i, j) && Carries(gs, i, j, name)
               && forall n, l :: Free(gs, bound, self, n, l) && Carries(gs, n, l, name) ==> !Earlier(n, l, i, j))
  {
    FindSuits(gs, bound, self, Some(name), 0);
    var h := Graph(self, false, [PadDesc(Some(name), Video)], []);
    forall n, l ensures CouldTake(gs, bound, h, 0, n, l) <==> Free(gs, bound, self, n, l) && Carries(gs, n, l, name) {}
    forall i, j | 0 <= i < |gs| && 0 <= j < |gs[i].outputs|
      ensures Find(gs, bound, self, Some(name), 0) == Some(Pad(gs[i].id, j)) <==>
              && Free(gs, bound, self, i, j) && Carries(gs, i, j, name)
              && forall n, l :: Free(gs, bound, self, n, l) && Carries(gs, n, l, name) ==> !Earlier(n, l, i, j)
    {
      SearchIff(gs, bound, self, Some(name), i, j);
    }
  }

  /** Input k of graph m is unbound, names no decoder, and output (i, j) is the first free one it may have. */
  ghost predicate TakesFirst(gs: seq<Graph>, bound: set<Pad>, boundIn: set<Pad>, m: nat, k: nat, i: nat, j: nat) {
    && m < |gs| && k < |gs[m].inputs| && Pad(gs[m].id, k) !in boundIn && Free(gs, bound, gs[m].id, i, j)
    && match gs[m].inputs[k].link
       case None => forall n, l :: Free(gs, bound, gs[m].id, n, l) ==> !Earlier(n, l, i, j)
       case Some(name) =>
         && !("dec:" <= name) && Carries(gs, i, j, name)
         && forall n, l :: Free(gs, bound, gs[m].id, n, l) && Carries(gs, n, l, name) ==> !Earlier(n, l, i, j)
  }

  lemma TakesFirstIff(gs: seq<Graph>, bound: set<Pad>, boundIn: set<Pad>, m: nat, k: nat, i: nat, j: nat)
    requires DistinctIds(gs) && m < |gs| && k < |gs[m].inputs| && i < |gs| && j < |gs[i].outputs|
    ensures TakesFirst(gs, bound, boundIn, m, k, i, j)
            <==> Seeks(gs[m], k, boundIn) && Choice(gs, bound, gs[m], k) == Some(Pad(gs[i].id, j))
  {
    match gs[m].inputs[k].link
    case None => UnlabelledSearch(gs, bound, gs[m].id);
    case Some(name) => LabelledSearch(gs, bound, gs[m].id, name);
  }

  /** The dry run in terms of labels: an output is marked exactly when some unbound input takes it first. */
  lemma MarkedIffTakesFirst(gs: seq<Graph>, bound: set<Pad>, boundIn: set<Pad>, i: nat, j: nat)
    requires DistinctIds(gs) && i < |gs| && j < |gs[i].outputs|
    ensures Pad(gs[i].id, j) in Marks(gs, bound, boundIn, |gs|)
            <==> exists m, k :: TakesFirst(gs, bound, boundIn, m, k, i, j)
  {
    MarkedIff(gs, bound, boundIn, |gs|, Pad(gs[i].id, j));
    forall m: nat, k: nat | m < |gs| && k < |gs[m].inputs|
      ensures TakesFirst(gs, bound, boundIn, m, k, i, j)
              <==> Seeks(gs[m], k, boundIn) && Choice(gs, bound, gs[m], k) == Some(Pad(gs[i].id, j))
    {
      TakesFirstIff(gs, bound, boundIn, m, k, i, j);
    }
  }

  /** Output j of graph i is free and named by inputs of other graphs, each of which takes an earlier output. */
  ghost predicate Overlooked(gs: seq<Graph>, c: Context, i: nat, j: nat)
    requires i < |gs| && j < |gs[i].outputs|
  {
    && Pad(gs[i].id, j) !in c.boundOut && Linked(ToSet(gs), c, gs[i], j)
    && forall m, k :: 0 <= m < |gs| && 0 <= k < |gs[m].inputs| && Seeks(gs[m], k, c.boundIn) ==>
         CouldTake(gs, c.boundOut, gs[m], k, i, j) ==> Preempted(gs, c.boundOut, gs[m], k, i, j)
  }

  /**
   * A retry removes a graph that is needed exactly when one of its outputs is overlooked: every input that could take
   * the output takes an earlier one, which for an input that names it carries the same label.
   */
  lemma NeededIsRemovedIff(gs: seq<Graph>, c: Context, i: nat)
    requires DistinctIds(gs) && i < |gs| && Needed(ToSet(gs), c, gs[i])
    ensures (exists j :: 0 <= j < |gs[i].outputs| && Pad(gs[i].id, j) !in c.wanted
                         && Pad(gs[i].id, j) !in Marks(gs, c.boundOut, c.boundIn, |gs|))
            <==> exists j :: 0 <= j < |gs[i].outputs| && Pad(gs[i].id, j) !in c.wanted && Overlooked(gs, c, i, j)
  {
    forall j | 0 <= j < |gs[i].outputs| && Pad(gs[i].id, j) !in c.wanted
      ensures Pad(gs[i].id, j) !in Marks(gs, c.boundOut, c.boundIn, |gs|) <==> Overlooked(gs, c, i, j)
    {
      MarkedIffFirst(gs, c.boundOut, c.boundIn, i, j);
    }
  }

  /** An overlooked output shares its label with an earlier free output. */
  lemma OverlookedSharesLabel(gs: seq<Graph>, c: Context, i: nat, j: nat)
    requires DistinctIds(gs) && i < |gs| && j < |gs[i].outputs| && gs[i].outputs[j].link.Some?
    requires Overlooked(gs, c, i, j)
    ensures exists n, l :: 0 <= n < |gs| && 0 <= l < |gs[n].outputs| && Earlier(n, l, i, j)
                           && Pad(gs[n].id, l) !in c.boundOut && gs[n].outputs[l].link == gs[i].outputs[j].link
  {
    var h, k :| h in ToSet(gs) && h.id != gs[i].id && 0 <= k < |h.inputs| && Seeks(h, k, c.boundIn)
                && h.inputs[k].link == gs[i].outputs[j].link;
    var m :| 0 <= m < |gs| && gs[m] == h;
    assert CouldTake(gs, c.boundOut, gs[m], k, i, j);
    var n, l :| CouldTake(gs, c.boundOut, gs[m], k, n, l) && Earlier(n, l, i, j);
  }

  // A user's graphs that use the label of the internal graph for stream group 0 of file 0, whose two tiles it joins.
  const OFFER := Graph(0, false, [], [PadDesc(Some("0:g:0"), Video)])
  const ASKER := Graph(1, false, [PadDesc(Some("0:g:0"), Video)], [PadDesc(None, Video)])
  const TILES := Graph(2, true, [PadDesc(Some("0:g:0:0"), Video), PadDesc(Some("0:g:0:1"), Video)],
                       [PadDesc(Some("0:g:0"), Video)])

  /** The asker's output goes to an encoder. */
  const ENCODED: Context := Context({Pad(1, 0)}, {}, {Pad(1, 0)})

  /**
   * A user's label that imitates an internal one hides the internal graph: all three graphs are the largest set, but
   * the asker takes the user's output, which comes first, so the internal graph is removed although it is needed.
   */
  lemma ImitatedLabelHidesAGraph()
    ensures var gs := [OFFER, ASKER, TILES];
            && DistinctIds(gs) && IsLargest(ToSet(gs), ToSet(gs), ENCODED) && Needed(ToSet(gs), ENCODED, TILES)
            && Overlooked(gs, ENCODED, 2, 0) && Pad(2, 0) !in Marks(gs, ENCODED.boundOut, ENCODED.boundIn, |gs|)
            && Pad(0, 0) in Marks([OFFER, ASKER], ENCODED.boundOut, ENCODED.boundIn, 2)
  {
    var gs, c := [OFFER, ASKER, TILES], ENCODED;
    assert "0:g:0"[0] != DECODER_PREFIX[0];
    assert gs[1] == ASKER && gs[2] == TILES && ASKER in ToSet(gs) && Seeks(ASKER, 0, c.boundIn);
    assert Linked(ToSet(gs), c, TILES, 0);
    assert CouldTake(gs, c.boundOut, ASKER, 0, 0, 0) && Earlier(0, 0, 2, 0);
    assert Preempted(gs, c.boundOut, ASKER, 0, 2, 0);
    assert Overlooked(gs, c, 2, 0);
    MarkedIffFirst(gs, c.boundOut, c.boundIn, 2, 0);
    OfferIsTaken();
  }

  lemma OfferIsTaken()
    ensures Pad(0, 0) in Marks([OFFER, ASKER], ENCODED.boundOut, ENCODED.boundIn, 2)
  {
    var gs, c := [OFFER, ASKER], ENCODED;
    assert "0:g:0"[0] != DECODER_PREFIX[0];
    assert gs[1] == ASKER && Seeks(gs[1], 0, c.boundIn);
    assert CouldTake(gs, c.boundOut, gs[1], 0, 0, 0) && !Preempted(gs, c.boundOut, gs[1], 0, 0, 0);
    MarkedIffFirst(gs, c.boundOut, c.boundIn, 0, 0);
  }

  // ---------- pruning for any labels ----------

  /** A seeking input of a graph of S takes output p first, among the outputs of gs. */
  ghost predicate Taken(gs: seq<Graph>, c: Context, S: set<Graph>, p: Pad) {
    exists h, k :: h in S && 0 <= k < |h.inputs| && Seeks(h, k, c.boundIn) && Choice(gs, c.boundOut, h, k) == Some(p)
  }

  /** Every output of g is wanted by an encoder or taken first by an input of S. */
  ghost predicate Kept(gs: seq<Graph>, c: Context, S: set<Graph>, g: Graph) {
    forall j :: 0 <= j < |g.outputs| ==> Pad(g.id, j) in c.wanted || Taken(gs, c, S, Pad(g.id, j))
  }

  /** Every internal graph of S is kept by S. */
  ghost predicate Sustained(gs: seq<Graph>, c: Context, S: set<Graph>) {
    forall g :: g in S && g.internal ==> Kept(gs, c, S, g)
  }

  /** S sustains itself and contains every part of gs that does, whichever outputs the inputs of gs take first. */
  ghost predicate IsLargestSustained(gs: seq<Graph>, c: Context, S: set<Graph>) {
    S <= ToSet(gs) && Sustained(gs, c, S) && forall T: set<Graph> :: T <= ToSet(gs) && Sustained(gs, c, T) ==> T <= S
  }

  /** Internal graphs have one output each. */
  ghost predicate OneOutput(gs: seq<Graph>) {
    forall g :: g in gs && g.internal ==> |g.outputs| == 1
  }

  function Without(gs: seq<Graph>, i: nat): seq<Graph>
    requires i < |gs|
  {
    gs[..i] + gs[i + 1..]
  }

  /** Removing a graph that a search does not end in leaves the search's result. */
  lemma {:induction false} FindWithout(gs: seq<Graph>, i: nat, bound: set<Pad>, self: nat, want: Option<string>, m: nat)
    requires i < |gs| && m <= |gs|
    requires Find(gs, bound, self, want, m).Some? ==> Find(gs, bound, self, want, m).value.graph != gs[i].id
    ensures Find(Without(gs, i), bound, self, want, if m <= i then m else m - 1) == Find(gs, bound, self, want, m)
    decreases |gs| - m
  {
    if m < |gs| {
      FindInIsFree(gs[m], bound, want, 0);
      if m != i { assert Without(gs, i)[if m < i then m else m - 1] == gs[m]; }
      if gs[m].id == self || FindIn(gs[m], bound, want, 0).None? { FindWithout(gs, i, bound, self, want, m + 1); }
    }
  }

  /** While graphs are removed: the choices of the graphs left are the original ones, and no sustained part is lost. */
  ghost predicate Tracks(all: seq<Graph>, c: Context, gs: seq<Graph>) {
    && ToSet(gs) <= ToSet(all)
    && (forall h, k :: h in gs && 0 <= k < |h.inputs| && Seeks(h, k, c.boundIn) ==>
          Choice(gs, c.boundOut, h, k) == Choice(all, c.boundOut, h, k))
    && (forall T: set<Graph> :: T <= ToSet(all) && Sustained(all, c, T) ==> T <= ToSet(gs))
  }

  /** The dry run's marks, as choices. */
  lemma MarkedIffTaken(gs: seq<Graph>, c: Context, p: Pad)
    ensures p in Marks(gs, c.boundOut, c.boundIn, |gs|) <==> Taken(gs, c, ToSet(gs), p)
  {
    MarkedIff(gs, c.boundOut, c.boundIn, |gs|, p);
    if Taken(gs, c, ToSet(gs), p) {
      var h, k :| h in ToSet(gs) && 0 <= k < |h.inputs| && Seeks(h, k, c.boundIn)
                  && Choice(gs, c.boundOut, h, k) == Some(p);
      var n :| 0 <= n < |gs| && gs[n] == h;
    }
  }

  /** The choice of an input left over is not the output of a graph with a single, unmarked output. */
  lemma ChoiceStays(gs: seq<Graph>, c: Context, i: nat, h: Graph, k: nat)
    requires DistinctIds(gs) && i < |gs| && |gs[i].outputs| == 1
    requires Pad(gs[i].id, 0) !in Marks(gs, c.boundOut, c.boundIn, |gs|)
    requires h in gs && k < |h.inputs| && Seeks(h, k, c.boundIn)
    ensures Choice(Without(gs, i), c.boundOut, h, k) == Choice(gs, c.boundOut, h, k)
  {
    MarkedIffTaken(gs, c, Pad(gs[i].id, 0));
    FindSuits(gs, c.boundOut, h.id, h.inputs[k].link, 0);
    FindWithout(gs, i, c.boundOut, h.id, h.inputs[k].link, 0);
  }

  lemma RemovalTracks(all: seq<Graph>, c: Context, gs: seq<Graph>, i: nat, j: nat)
    requires DistinctIds(gs) && OneOutput(all) && Tracks(all, c, gs)
    requires i < |gs| && gs[i].internal && j < |gs[i].outputs| && Pad(gs[i].id, j) !in c.wanted
    requires Pad(gs[i].id, j) !in Marks(gs, c.boundOut, c.boundIn, |gs|)
    ensures Tracks(all, c, Without(gs, i))
  {
    var left := Without(gs, i);
    assert gs == gs[..i] + [gs[i]] + gs[i + 1..];
    assert gs[i] in ToSet(gs) && gs[i] in all;
    forall h, k | h in left && 0 <= k < |h.inputs| && Seeks(h, k, c.boundIn)
      ensures Choice(left, c.boundOut, h, k) == Choice(all, c.boundOut, h, k)
    {
      ChoiceStays(gs, c, i, h, k);
    }
    forall T: set<Graph> | T <= ToSet(all) && Sustained(all, c, T) ensures T <= ToSet(left) {
      if gs[i] in T { TakenIsMarked(all, c, gs, T, Pad(gs[i].id, j)); }
    }
  }

  lemma TakenIsMarked(all: seq<Graph>, c: Context, gs: seq<Graph>, T: set<Graph>, p: Pad)
    requires Tracks(all, c, gs) && T <= ToSet(gs) && Taken(all, c, T, p)
    ensures p in Marks(gs, c.boundOut, c.boundIn, |gs|)
  {
    MarkedIffTaken(gs, c, p);
    var h, k :| h in T && 0 <= k < |h.inputs| && Seeks(h, k, c.boundIn) && Choice(all, c.boundOut, h, k) == Some(p);
    assert h in gs;
  }

  /** When every output left is wanted or marked, what is left is the largest sustained part. */
  lemma SurvivorsAreLargest(all: seq<Graph>, c: Context, gs: seq<Graph>)
    requires Tracks(all, c, gs)
    requires forall i, j :: 0 <= i < |gs| && 0 <= j < |gs[i].outputs| ==>
               Pad(gs[i].id, j) in c.wanted || Pad(gs[i].id, j) in Marks(gs, c.boundOut, c.boundIn, |gs|)
    ensures IsLargestSustained(all, c, ToSet(gs))
  {
    forall g, j | g in ToSet(gs) && 0 <= j < |g.outputs|
      ensures Pad(g.id, j) in c.wanted || Taken(all, c, ToSet(gs), Pad(g.id, j))
    {
      var i :| 0 <= i < |gs| && gs[i] == g;
      if Pad(g.id, j) !in c.wanted {
        MarkedIffTaken(gs, c, Pad(g.id, j));
        var h, k :| h in ToSet(gs) && 0 <= k < |h.inputs| && Seeks(h, k, c.boundIn)
                    && Choice(gs, c.boundOut, h, k) == Some(Pad(g.id, j));
        assert Choice(all, c.boundOut, h, k) == Some(Pad(g.id, j));
      }
    }
  }

  /** Every output left is wanted by an encoder or taken first by an input of a graph that is left. */
  ghost predicate Settled(gs: seq<Graph>, c: Context) {
    forall g :: g in gs ==> Kept(gs, c, ToSet(gs), g)
  }

  lemma AllMarkedIsSettled(gs: seq<Graph>, c: Context)
    requires forall i, j :: 0 <= i < |gs| && 0 <= j < |gs[i].outputs| ==>
               Pad(gs[i].id, j) in c.wanted || Pad(gs[i].id, j) in Marks(gs, c.boundOut, c.boundIn, |gs|)
    ensures Settled(gs, c)
  {
    forall g, j | g in gs && 0 <= j < |g.outputs|
      ensures Pad(g.id, j) in c.wanted || Taken(gs, c, ToSet(gs), Pad(g.id, j))
    {
      MarkedIffTaken(gs, c, Pad(g.id, j));
      var i :| 0 <= i < |gs| && gs[i] == g;
    }
  }

  /** Input x and output p lie in different graphs, carry one media type, and x names no decoder and p if anything. */
  ghost predicate Fits(gs: seq<Graph>, x: Pad, p: Pad) {
    exists g, h :: g in gs && h in gs && g.id == x.graph && h.id == p.graph && g.id != h.id
      && x.index < |g.inputs| && p.index < |h.outputs|
      && g.inputs[x.index].mediaType == h.outputs[p.index].mediaType
      && (g.inputs[x.index].link.Some? ==>
            !("dec:" <= g.inputs[x.index].link.value) && h.outputs[p.index].link == g.inputs[x.index].link)
  }

  /** From `base` to `now` links were only added, each between pads that fit. */
  ghost predicate Links(gs: seq<Graph>, base: map<Pad, Pad>, now: map<Pad, Pad>) {
    && (forall x :: x in base ==> x in now && now[x] == base[x])
    && (forall x :: x in now && x !in base ==> Fits(gs, x, now[x]))
  }

  lemma SuitsFits(gs: seq<Graph>, bound: set<Pad>, g: Graph, k: nat, p: Pad)
    requires DistinctIds(gs) && g in gs && k < |g.inputs| && Suits(gs, bound, g.id, g.inputs[k].link, p)
    requires !NamesDecoder(g.inputs[k].link)
    requires exists h :: h in gs && h.id == p.graph && p.index < |h.outputs|
                         && h.outputs[p.index].mediaType == g.inputs[k].mediaType
    ensures Fits(gs, Pad(g.id, k), p)
  {
    var i :| 0 <= i < |gs| && gs[i].id == p.graph && p.index < |gs[i].outputs|
             && Accepts(g.inputs[k].link, gs[i].outputs[p.index]);
    assert gs[i] in gs;
  }

  class Bindings {
    var graphs: seq<Graph>
    var boundOut: set<Pad>
    var boundIn: set<Pad>
    /** The two needed flags of an output, NEEDED_EXPLICIT and NEEDED_INTERNAL, as sets of outputs. */
    var neededExplicit: set<Pad>
    var neededInternal: set<Pad>
    /** ofilter_src: which output feeds an input. */
    var source: map<Pad, Pad>

    /** Outputs wanted by an encoder are bound to it, and no output feeds two inputs. */
    ghost predicate Valid() reads this {
      && DistinctIds(graphs)
      && neededExplicit <= boundOut
      && source.Keys <= boundIn && source.Values <= boundOut
      && (forall x, y :: x in source && y in source && x != y ==> source[x] != source[y])
    }

    constructor (graphs: seq<Graph>)
      requires DistinctIds(graphs)
      ensures Valid() && this.graphs == graphs && boundOut == {} && boundIn == {} && neededExplicit == {}
    {
      this.graphs := graphs;
      boundOut, boundIn, neededExplicit, neededInternal, source := {}, {}, {}, {}, map[];
    }

    /** ofilter_bind_enc: the output is wanted and bound from here on, also when preparing it fails. */
    method BindToEncoder(p: Pad) returns (ok: bool)
      requires Valid() && p !in boundOut && IsOutput(graphs, p)
      modifies `boundOut, `neededExplicit, `neededInternal
      ensures Valid() && boundOut == old(boundOut) + {p} && neededExplicit == old(neededExplicit) + {p}
      ensures neededInternal == old(neededInternal) - {p}
    {
      // needed = NEEDED_EXPLICIT
      boundOut, neededExplicit, neededInternal := boundOut + {p}, neededExplicit + {p}, neededInternal - {p};
      ok := *;
    }

    method FindUnbound(self: nat, want: Option<string>) returns (r: Option<Pad>)
      ensures r == Find(graphs, boundOut, self, want, 0)
    {
      for i := 0 to |graphs|
        invariant Find(graphs, boundOut, self, want, 0) == Find(graphs, boundOut, self, want, i)
      {
        if graphs[i].id != self {
          for j := 0 to |graphs[i].outputs|
            invariant FindIn(graphs[i], boundOut, want, 0) == FindIn(graphs[i], boundOut, want, j)
          {
            var p := Pad(graphs[i].id, j);
            if p !in boundOut && Accepts(want, graphs[i].outputs[j]) { return Some(p); }
          }
        }
      }
      return None;
    }

    /** ifilter_bind_fg and ofilter_bind_ifilter; fails on a media type mismatch. */
    method BindToOutput(x: Pad, mediaType: MediaType, p: Pad) returns (ok: bool)
      requires Valid() && x !in boundIn && p !in boundOut && IsOutput(graphs, p)
      modifies `boundIn, `boundOut, `source
      ensures boundIn == old(boundIn) + {x}
      ensures ok ==> Valid() && boundOut == old(boundOut) + {p} && source == old(source)[x := p]
      ensures ok ==> exists h :: h in graphs && h.id == p.graph && p.index < |h.outputs|
                                 && h.outputs[p.index].mediaType == mediaType
    {
      boundIn := boundIn + {x};
      var i :| 0 <= i < |graphs| && graphs[i].id == p.graph && p.index < |graphs[i].outputs|;
      if graphs[i].outputs[p.index].mediaType != mediaType { return false; }
      boundOut, source := boundOut + {p}, source[x := p];
      ok := *;
    }

    /** Input k of g: to a decoder, to the first free output, or to an input stream. */
    method BindInput(g: Graph, k: nat, commit: bool) returns (ok: bool)
      requires Valid() && g in graphs && k < |g.inputs| && Pad(g.id, k) !in boundIn
      modifies `boundIn, `boundOut, `source, `neededExplicit, `neededInternal
      ensures ok ==> Valid()
      ensures ok ==> boundIn == if commit || NamesDecoder(g.inputs[k].link) then old(boundIn) + {Pad(g.id, k)}
                                else old(boundIn)
      ensures ok && !NamesDecoder(g.inputs[k].link) && old(Choice(graphs, boundOut, g, k)).Some? ==>
        var p := old(Choice(graphs, boundOut, g, k)).value;
        if commit then boundOut == old(boundOut) + {p} && source == old(source)[Pad(g.id, k) := p]
        else neededInternal == old(neededInternal) + {p}
      ensures ok && (NamesDecoder(g.inputs[k].link) || old(Choice(graphs, boundOut, g, k)).None?) ==>
        boundOut == old(boundOut) && source == old(source) && neededInternal == old(neededInternal)
      ensures ok ==> neededExplicit == old(neededExplicit) && Links(graphs, old(source), source)
      ensures ok && !commit ==> boundOut == old(boundOut) && source == old(source)
      ensures ok && commit ==> neededInternal == old(neededInternal)
    {
      var x, link := Pad(g.id, k), g.inputs[k].link;
      ok := *;
      if NamesDecoder(link) {
        // the decoder is bound in the dry run already
        boundIn := boundIn + {x};
        return;
      }
      var p := FindUnbound(g.id, link);
      FindSuits(graphs, boundOut, g.id, link, 0);
      if p.Some? {
        if commit {
          ok := BindToOutput(x, g.inputs[k].mediaType, p.value);
          if ok { SuitsFits(graphs, old(boundOut), g, k, p.value); }
        } else {
          // needed = NEEDED_INTERNAL
          neededExplicit, neededInternal := neededExplicit - {p.value}, neededInternal + {p.value};
          ok := true;
        }
        return;
      }
      // resolving and binding an input stream may fail; only a commit binds
      if commit { boundIn := boundIn + {x}; }
    }

    /** bind_inputs on the dry run: marks what the inputs of graph n choose; decoders get bound. */
    method MarkGraph(n: nat, ghost base: set<Pad>) returns (ok: bool)
      requires Valid() && n < |graphs| && OnlyDecoders(graphs, base, boundIn)
      modifies `boundIn, `boundOut, `source, `neededExplicit, `neededInternal
      ensures ok ==> Valid() && OnlyDecoders(graphs, base, boundIn)
      ensures ok ==> boundOut == old(boundOut) && source == old(source) && neededExplicit == old(neededExplicit)
      ensures ok ==> neededInternal
                     == old(neededInternal) + MarksOf(graphs, boundOut, base, graphs[n], |graphs[n].inputs|)
    {
      var g := graphs[n];
      for k := 0 to |g.inputs|
        invariant Valid() && OnlyDecoders(graphs, base, boundIn)
        invariant boundOut == old(boundOut) && source == old(source) && neededExplicit == old(neededExplicit)
        invariant neededInternal == old(neededInternal) + MarksOf(graphs, boundOut, base, g, k)
      {
        MarksOfNext(graphs, boundOut, base, g, k);
        if Pad(g.id, k) !in boundIn {
          ok := BindInput(g, k, false);
          if !ok { return; }
        }
      }
      return true;
    }

    /** bind_inputs on the commit: every input of graph n gets bound, each to its first free choice. */
    method BindGraph(n: nat, ghost bound: set<Pad>, ghost entry: set<Pad>) returns (ok: bool)
      requires Valid() && n < |graphs| && bound <= boundOut && boundIn == entry + PadsUpTo(graphs, n)
      modifies `boundIn, `boundOut, `source, `neededExplicit, `neededInternal
      ensures ok ==> Valid() && old(boundOut) <= boundOut && boundIn == entry + PadsUpTo(graphs, n + 1)
      ensures ok ==> neededExplicit == old(neededExplicit) && neededInternal == old(neededInternal)
      ensures ok ==> Served(graphs, bound, entry, graphs[n], |graphs[n].inputs|, boundOut)
      ensures ok ==> Links(graphs, old(source), source)
    {
      hide Find, FindIn, Fits, Accepts;
      var g := graphs[n];
      PadsUpToAre(graphs, n);
      for k := 0 to |g.inputs|
        invariant Valid() && old(boundOut) <= boundOut && boundIn == entry + PadsUpTo(graphs, n) + PadsOf(g, k)
        invariant neededExplicit == old(neededExplicit) && neededInternal == old(neededInternal)
        invariant Served(graphs, bound, entry, g, k, boundOut) && Links(graphs, old(source), source)
      {
        FindStays(graphs, bound, boundOut, g.id, g.inputs[k].link, 0);
        assert PadsOf(g, k + 1) == PadsOf(g, k) + {Pad(g.id, k)};
        if Pad(g.id, k) !in boundIn {
          ok := BindInput(g, k, true);
          if !ok { return; }
        }
      }
      return true;
    }

    /** The unneeded output met first when graphs are visited last to first; found is false when there is none. */
    method FindUnneeded() returns (found: bool, i: nat, j: nat)
      ensures found ==> i < |graphs| && j < |graphs[i].outputs|
                        && Pad(graphs[i].id, j) !in neededExplicit + neededInternal
      ensures !found ==> forall n, k :: 0 <= n < |graphs| && 0 <= k < |graphs[n].outputs| ==>
                           Pad(graphs[n].id, k) in neededExplicit + neededInternal
    {
      for n := |graphs| downto 0
        invariant forall m, k :: n <= m < |graphs| && 0 <= k < |graphs[m].outputs| ==>
                    Pad(graphs[m].id, k) in neededExplicit + neededInternal
      {
        for k := 0 to |graphs[n].outputs|
          invariant forall l :: 0 <= l < k ==> Pad(graphs[n].id, l) in neededExplicit + neededInternal
        {
          if Pad(graphs[n].id, k) !in neededExplicit + neededInternal { return true, n, k; }
        }
      }
      return false, 0, 0;
    }

    /** The dry run over all graphs. */
    method MarkAll(ghost base: set<Pad>) returns (ok: bool)
      requires Valid() && OnlyDecoders(graphs, base, boundIn)
      modifies `boundIn, `boundOut, `source, `neededExplicit, `neededInternal
      ensures ok ==> Valid() && OnlyDecoders(graphs, base, boundIn)
      ensures ok ==> boundOut == old(boundOut) && source == old(source) && neededExplicit == old(neededExplicit)
      ensures ok ==> neededInternal == Marks(graphs, boundOut, base, |graphs|)
    {
      neededInternal := {};
      for n := 0 to |graphs|
        invariant Valid() && OnlyDecoders(graphs, base, boundIn)
        invariant boundOut == old(boundOut) && source == old(source) && neededExplicit == old(neededExplicit)
        invariant neededInternal == Marks(graphs, boundOut, base, n)
      {
        ok := MarkGraph(n, base);
        if !ok { return; }
      }
      return true;
    }

    /** The commit over all graphs: everything the dry run marked ends up bound, although `bound` changes on the way. */
    method BindAll() returns (ok: bool)
      requires Valid()
      modifies `boundIn, `boundOut, `source, `neededExplicit, `neededInternal
      ensures ok ==> Valid() && old(boundOut) <= boundOut && boundIn == old(boundIn) + PadsUpTo(graphs, |graphs|)
      ensures ok ==> Marks(graphs, old(boundOut), old(boundIn), |graphs|) <= boundOut
      ensures ok ==> Links(graphs, old(source), source)
    {
      for n := 0 to |graphs|
        invariant Valid() && old(boundOut) <= boundOut && boundIn == old(boundIn) + PadsUpTo(graphs, n)
        invariant Marks(graphs, old(boundOut), old(boundIn), n) <= boundOut && Links(graphs, old(source), source)
      {
        ok := BindGraph(n, old(boundOut), old(boundIn));
        if !ok { return; }
      }
      return true;
    }

    /** Every input and every output of every graph is bound. */
    ghost predicate Complete() reads this {
      && (forall g, k :: g in graphs && 0 <= k < |g.inputs| ==> Pad(g.id, k) in boundIn)
      && (forall g, j :: g in graphs && 0 <= j < |g.outputs| ==> Pad(g.id, j) in boundOut)
    }

    /**
     * On success all pads of the surviving graphs are bound, no output feeds two inputs, inputs are fed by outputs
     * of other graphs with their media type and label, and only internal graphs were removed. Every surviving output is
     * wanted or taken first by a surviving input, and when internal graphs have one output each the survivors are the
     * largest such set, for any labels. With well-labelled pads being taken is the same as being named.
     */
    method FinaliseBindings() returns (ok: bool)
      requires Valid()
      modifies this
      ensures ok ==> Valid() && Complete() && Links(graphs, old(source), source)
      ensures ok ==> forall g :: g in old(graphs) && !g.internal ==> g in graphs
      ensures var c := Context(old(boundOut), old(boundIn), old(neededExplicit));
              && (ok ==> Settled(graphs, c))
              && (ok && OneOutput(old(graphs)) ==> IsLargestSustained(old(graphs), c, ToSet(graphs)))
              && (ok && WellLabelled(old(graphs), c) ==> IsLargest(ToSet(graphs), ToSet(old(graphs)), c))
    {
      ghost var c := Context(boundOut, boundIn, neededExplicit);
      ghost var labelled := WellLabelled(graphs, c);
      while true
        invariant Valid() && boundOut == c.boundOut && neededExplicit == c.wanted && source == old(source)
        invariant OnlyDecoders(graphs, c.boundIn, boundIn)
        invariant ToSet(graphs) <= ToSet(old(graphs))
        invariant forall g :: g in old(graphs) && !g.internal ==> g in graphs
        invariant labelled ==> WellLabelled(graphs, c)
        invariant labelled ==>
          forall T: set<Graph> :: T <= ToSet(old(graphs)) && Consistent(T, c) ==> T <= ToSet(graphs)
        invariant OneOutput(old(graphs)) ==> Tracks(old(graphs), c, graphs)
        decreases |graphs|
      {
        ok := MarkAll(c.boundIn);
        if !ok { return; }
        var found, i, j := FindUnneeded();
        if !found { break; }
        if !graphs[i].internal { return false; }
        if OneOutput(old(graphs)) { RemovalTracks(old(graphs), c, graphs, i, j); }
        RemoveGraph(i, j, c, labelled, ToSet(old(graphs)));
      }
      AllMarkedIsSettled(graphs, c);
      if OneOutput(old(graphs)) { SurvivorsAreLargest(old(graphs), c, graphs); }
      if labelled { AllMarkedIsConsistent(graphs, c); }
      MarksSame(graphs, boundOut, c.boundIn, boundIn, |graphs|);
      PadsUpToAre(graphs, |graphs|);
      ok := BindAll();
    }

    method RemoveGraph(i: nat, ghost j: nat, ghost c: Context, ghost labelled: bool, ghost all: set<Graph>)
      requires Valid() && i < |graphs| && j < |graphs[i].outputs| && graphs[i].internal
      requires boundOut == c.boundOut && neededExplicit == c.wanted && OnlyDecoders(graphs, c.boundIn, boundIn)
      requires Pad(graphs[i].id, j) !in neededExplicit + neededInternal
      requires neededInternal == Marks(graphs, c.boundOut, c.boundIn, |graphs|)
      requires labelled ==> WellLabelled(graphs, c)
      requires labelled ==> forall T: set<Graph> :: T <= all && Consistent(T, c) ==> T <= ToSet(graphs)
      modifies `graphs
      ensures Valid() && graphs == Without(old(graphs), i) && OnlyDecoders(graphs, c.boundIn, boundIn)
      ensures ToSet(graphs) <= ToSet(old(graphs))
      ensures forall g :: g in old(graphs) && !g.internal ==> g in graphs
      ensures labelled ==> WellLabelled(graphs, c)
      ensures labelled ==> forall T: set<Graph> :: T <= all && Consistent(T, c) ==> T <= ToSet(graphs)
    {
      ghost var before := graphs;
      graphs := graphs[..i] + graphs[i + 1..];
      assert before == before[..i] + [before[i]] + before[i + 1..];
      if labelled {
        forall T: set<Graph> | T <= all && Consistent(T, c) ensures T <= ToSet(graphs) {
          RemovalIsForced(before, c, i, j, T);
        }
      }
    }
  }
}

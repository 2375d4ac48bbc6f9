/** What the splitter's result holds: where every option of the command line ends up. */
module CommandGroups {
  import opened Common
  import opened CommandLine
  import opened OptionNames

  /** A piece within the command line and the n option groups, as the splitter reads them. */
  predicate Fits(argv: seq<string>, n: nat, it: Item) {
    it.pos < |argv| && (it.what.Separator? ==> it.what.group < n && it.pos + 1 < |argv|)
  }

  ghost predicate AllFit(argv: seq<string>, n: nat, its: seq<Item>) {
    forall m :: 0 <= m < |its| ==> Fits(argv, n, its[m])
  }

  lemma {:induction false} PiecesFit(su: Setup, argv: seq<string>, i: nat, after: bool)
    requires Split(su, argv, i, after).Some?
    ensures AllFit(argv, |su.separators|, Split(su, argv, i, after).value)
    decreases |argv| - i
  {
    hide Classify;
    if i < |argv| {
      SplitStarts(su, argv, i, after);
      PieceIsHere(su, argv, i, after);
      PieceFits(su, argv, i, after);
      var it := Split(su, argv, i, after).value[0];
      PiecesFit(su, argv, i + it.width, it.what.Marker?);
    }
  }

  lemma PieceFits(su: Setup, argv: seq<string>, i: nat, after: bool)
    requires i < |argv| && Classify(su, argv, i, after).Some?
    ensures Fits(argv, |su.separators|, Classify(su, argv, i, after).value)
  {
    SeparatorFound(su.separators, if argv[i] == "" then "" else argv[i][1..], 0);
  }

  /** A piece that ends a group: a file, or a separator with its argument. */
  predicate EndsGroup(it: Item) { it.what.Positional? || it.what.Separator? }

  function GroupOf(it: Item): nat { if it.what.Separator? then it.what.group else 0 }

  /** The argument a group is named after: the file, or the slot behind the separator. */
  function ArgOf(argv: seq<string>, it: Item): string
    requires Fits(argv, GroupOf(it) + 1, it)
  {
    if it.what.Separator? then argv[it.pos + 1] else argv[it.pos]
  }

  /** The option a piece records: the value is its argument, "1" for a flag and "0" for a negated flag. */
  function OptionOf(argv: seq<string>, it: Item): seq<Opt>
    requires it.pos < |argv|
  {
    var key := if argv[it.pos] == "" then "" else argv[it.pos][1..];
    match it.what
    case Known(def) => [Opt(def, key, if def.exits || WantsArgument(def) then Slot(argv, it.pos + 1) else Some("1"))]
    case Negated(def) => [Opt(def, key, Some("0"))]
    case _ => []
  }

  function Keep(o: seq<Opt>, perFile: bool): seq<Opt> {
    if o != [] && o[0].def.perFile == perFile then o else []
  }

  /** The per-file or the global options that the pieces from a to b record, in order. */
  function Recorded(argv: seq<string>, its: seq<Item>, a: nat, b: nat, perFile: bool): seq<Opt>
    requires a <= b <= |its| && forall m :: 0 <= m < |its| ==> its[m].pos < |argv|
    decreases b
  {
    if a == b then []
    else Recorded(argv, its, a, b - 1, perFile) + Keep(OptionOf(argv, its[b - 1]), perFile)
  }

  /** The piece behind the last one before m that ends a group. */
  function GroupStart(its: seq<Item>, m: nat): (a: nat)
    requires m <= |its|
    ensures a <= m && (a > 0 ==> EndsGroup(its[a - 1])) && forall l :: a <= l < m ==> !EndsGroup(its[l])
  {
    if m == 0 || EndsGroup(its[m - 1]) then m else GroupStart(its, m - 1)
  }

  /** How many pieces before m end group k. */
  function Ended(its: seq<Item>, m: nat, k: nat): nat
    requires m <= |its|
  {
    if m == 0 then 0 else Ended(its, m - 1, k) + if EndsGroup(its[m - 1]) && GroupOf(its[m - 1]) == k then 1 else 0
  }

  function Empty(n: nat): Parsed { Parsed([], [], seq(n, _ => [])) }

  /** The splitter's result after the first m pieces. */
  function After(argv: seq<string>, n: nat, its: seq<Item>, m: nat): (p: Parsed)
    requires n > 0 && m <= |its| && AllFit(argv, n, its)
    ensures |p.groups| == n
  {
    ApplyAll(argv, Empty(n), its[..m])
  }

  lemma AfterNext(argv: seq<string>, n: nat, its: seq<Item>, m: nat)
    requires n > 0 && m < |its| && AllFit(argv, n, its)
    ensures After(argv, n, its, m + 1) == Apply(argv, After(argv, n, its, m), its[m])
  {
    assert its[..m + 1][..m] == its[..m];
  }

  /** One piece: its option is kept where it belongs, and the end of a group takes the pending options along. */
  lemma OnePiece(argv: seq<string>, n: nat, p: Parsed, it: Item)
    requires |p.groups| == n > 0 && Fits(argv, n, it)
    ensures var q := Apply(argv, p, it);
            && q.globals == p.globals + Keep(OptionOf(argv, it), false)
            && q.current == (if EndsGroup(it) then [] else p.current + Keep(OptionOf(argv, it), true))
            && forall k :: 0 <= k < n ==>
                 q.groups[k] == p.groups[k]
                                + if EndsGroup(it) && GroupOf(it) == k then [Group(ArgOf(argv, it), p.current)] else []
  {
  }

  lemma {:induction false} GlobalsAfter(argv: seq<string>, n: nat, its: seq<Item>, m: nat)
    requires n > 0 && m <= |its| && AllFit(argv, n, its)
    ensures After(argv, n, its, m).globals == Recorded(argv, its, 0, m, false)
  {
    if m > 0 {
      hide Apply, ApplyAll, OptionOf, After;
      GlobalsAfter(argv, n, its, m - 1);
      AfterNext(argv, n, its, m - 1);
      OnePiece(argv, n, After(argv, n, its, m - 1), its[m - 1]);
    }
  }

  /** The per-file options that the pieces before m record behind the last one of them that ends a group. */
  function PendingAt(argv: seq<string>, its: seq<Item>, m: nat): seq<Opt>
    requires m <= |its| && forall l :: 0 <= l < |its| ==> its[l].pos < |argv|
  {
    Recorded(argv, its, GroupStart(its, m), m, true)
  }

  lemma PendingNext(argv: seq<string>, its: seq<Item>, m: nat)
    requires m < |its| && forall l :: 0 <= l < |its| ==> its[l].pos < |argv|
    ensures PendingAt(argv, its, 0) == []
    ensures PendingAt(argv, its, m + 1)
            == if EndsGroup(its[m]) then [] else PendingAt(argv, its, m) + Keep(OptionOf(argv, its[m]), true)
  {
    hide OptionOf, Keep;
  }

  lemma CurrentNext(argv: seq<string>, n: nat, its: seq<Item>, m: nat)
    requires n > 0 && m < |its| && AllFit(argv, n, its)
    ensures After(argv, n, its, m + 1).current
            == if EndsGroup(its[m]) then []
               else After(argv, n, its, m).current + Keep(OptionOf(argv, its[m]), true)
  {
    hide Apply, ApplyAll, OptionOf, After, Keep;
    AfterNext(argv, n, its, m);
    OnePiece(argv, n, After(argv, n, its, m), its[m]);
  }

  lemma {:induction false} PendingAfter(argv: seq<string>, n: nat, its: seq<Item>, m: nat)
    requires n > 0 && m <= |its| && AllFit(argv, n, its)
    ensures After(argv, n, its, m).current == PendingAt(argv, its, m)
  {
    if m == 0 {
      NothingPending(argv, n, its);
    } else {
      hide After, PendingAt, OptionOf, Keep, EndsGroup;
      PendingAfter(argv, n, its, m - 1);
      CurrentNext(argv, n, its, m - 1);
      PendingNext(argv, its, m - 1);
    }
  }

  lemma NothingPending(argv: seq<string>, n: nat, its: seq<Item>)
    requires n > 0 && AllFit(argv, n, its)
    ensures After(argv, n, its, 0).current == PendingAt(argv, its, 0)
  {
  }

  lemma {:induction false} InstancesAfter(argv: seq<string>, n: nat, its: seq<Item>, m: nat)
    requires n > 0 && m <= |its| && AllFit(argv, n, its)
    ensures forall k :: 0 <= k < n ==> |After(argv, n, its, m).groups[k]| == Ended(its, m, k)
  {
    if m > 0 {
      hide Apply, ApplyAll, OptionOf, After;
      InstancesAfter(argv, n, its, m - 1);
      AfterNext(argv, n, its, m - 1);
      OnePiece(argv, n, After(argv, n, its, m - 1), its[m - 1]);
    }
  }

  /** The global options are all those recorded, in order; the pending ones those since the last group ended. */
  lemma OptionsAfter(argv: seq<string>, n: nat, its: seq<Item>, m: nat)
    requires n > 0 && m <= |its| && AllFit(argv, n, its)
    ensures var p := After(argv, n, its, m);
            && p.globals == Recorded(argv, its, 0, m, false)
            && p.current == PendingAt(argv, its, m)
            && forall k :: 0 <= k < n ==> |p.groups[k]| == Ended(its, m, k)
  {
    GlobalsAfter(argv, n, its, m);
    PendingAfter(argv, n, its, m);
    InstancesAfter(argv, n, its, m);
  }

  lemma {:induction false} GroupsStay(argv: seq<string>, n: nat, its: seq<Item>, l: nat, m: nat, k: nat)
    requires n > 0 && l <= m <= |its| && AllFit(argv, n, its) && k < n
    ensures After(argv, n, its, l).groups[k] <= After(argv, n, its, m).groups[k]
    decreases m
  {
    hide Apply, ApplyAll, OptionOf;
    if l < m {
      GroupsStay(argv, n, its, l, m - 1, k);
      AfterNext(argv, n, its, m - 1);
      OnePiece(argv, n, After(argv, n, its, m - 1), its[m - 1]);
    }
  }

  /**
   * A piece that ends group k makes the next instance of that group, named after it, of exactly the per-file options
   * recorded since the group before it ended.
   */
  lemma GroupHolds(argv: seq<string>, n: nat, its: seq<Item>, m: nat)
    requires n > 0 && m < |its| && AllFit(argv, n, its) && EndsGroup(its[m]) && GroupOf(its[m]) < n
    ensures var k, g := GroupOf(its[m]), Ended(its, m, GroupOf(its[m]));
            var all := ApplyAll(argv, Empty(n), its).groups[k];
            && g < |all|
            && all[g] == Group(ArgOf(argv, its[m]), PendingAt(argv, its, m))
  {
    hide Apply, ApplyAll, OptionOf;
    OptionsAfter(argv, n, its, m);
    AfterNext(argv, n, its, m);
    OnePiece(argv, n, After(argv, n, its, m), its[m]);
    GroupsStay(argv, n, its, m + 1, |its|, GroupOf(its[m]));
    assert its[..|its|] == its;
  }

  /** Every accepted command line: its global options, its groups and how many there are, its trailing options. */
  lemma SplitHolds(su: Setup, argv: seq<string>)
    requires |su.separators| > 0 && Split(su, argv, 1, false).Some?
    ensures var its, n := Split(su, argv, 1, false).value, |su.separators|;
            && AllFit(argv, n, its)
            && var p := ApplyAll(argv, Empty(n), its);
               && p.globals == Recorded(argv, its, 0, |its|, false)
               && p.current == PendingAt(argv, its, |its|)
               && (forall k :: 0 <= k < n ==> |p.groups[k]| == Ended(its, |its|, k))
               && (forall m :: 0 <= m < |its| && EndsGroup(its[m]) ==>
                     var k, g := GroupOf(its[m]), Ended(its, m, GroupOf(its[m]));
                     && k < n && g < |p.groups[k]|
                     && p.groups[k][g] == Group(ArgOf(argv, its[m]), PendingAt(argv, its, m)))
    ensures var its := Split(su, argv, 1, false).value;
            Plain(su.options) ==> forall m :: 0 <= m < |its| ==> Reads(su, argv, its[m], Behind(its, m, false))
  {
    if Plain(su.options) { AllRead(su, argv, 1, false); }
    hide Reads;
    var its, n := Split(su, argv, 1, false).value, |su.separators|;
    PiecesFit(su, argv, 1, false);
    OptionsAfter(argv, n, its, |its|);
    assert its[..|its|] == its;
    forall m | 0 <= m < |its| && EndsGroup(its[m])
      ensures var k, g := GroupOf(its[m]), Ended(its, m, GroupOf(its[m]));
              && k < n && g < |ApplyAll(argv, Empty(n), its).groups[k]|
              && ApplyAll(argv, Empty(n), its).groups[k][g]
                 == Group(ArgOf(argv, its[m]), PendingAt(argv, its, m))
    {
      assert Fits(argv, n, its[m]);
      GroupHolds(argv, n, its, m);
    }
  }
}

/** The two scanners of the command line: the one that splits it into groups and the one that looks for an option. */
module CommandLine {
  import opened Common

  datatype OptionType = Bool | Func | Valued

  /** An entry of the options table; `takesArg`, `perFile` and `exits` are OPT_FUNC_ARG, OPT_PERFILE and OPT_EXIT. */
  datatype OptionDef = OptionDef(name: string, optType: OptionType, takesArg: bool, perFile: bool, exits: bool) {
    predicate HasArg() { optType.Valued? || (optType.Func? && takesArg) }
  }

  /** opt_default: consumed as a library option, unknown to the libraries, or rejected with its argument. */
  datatype Verdict = Consumed | NotFound | Rejected

  /** The options table, the separators of the option groups (the first group has none), and opt_default. */
  datatype Setup = Setup(
    options: seq<OptionDef>, separators: seq<Option<string>>, libraryOption: (string, string) -> Verdict)

  /** The table entry a name selects: the first whose name is the whole text or is followed by a colon. */
  function FindFrom(options: seq<OptionDef>, name: string): Option<OptionDef> {
    if options == [] then None
    else if options[0].name <= name && (|name| == |options[0].name| || name[|options[0].name|] == ':')
    then Some(options[0])
    else FindFrom(options[1..], name)
  }

  function FindOption(options: seq<OptionDef>, name: string): Option<OptionDef> {
    FindFrom(options, if name != "" && name[0] == '/' then name[1..] else name)
  }

  /** The entry named after a leading `no`. */
  function FindNegated(options: seq<OptionDef>, name: string): Option<OptionDef> {
    if "no" <= name then FindOption(options, name[2..]) else None
  }

  /** The first group from number k on whose separator is the name. */
  function FindSeparator(separators: seq<Option<string>>, name: string, k: nat): Option<nat>
    requires k <= |separators|
    decreases |separators| - k
  {
    if k == |separators| then None
    else if separators[k] == Some(name) then Some(k)
    else FindSeparator(separators, name, k + 1)
  }

  /** Text that starts an option: a dash and something after it. */
  predicate Dashed(arg: string) { |arg| > 1 && arg[0] == '-' }

  // ---------- split_commandline ----------

  datatype What =
    | Marker                // `--`
    | Positional            // an output file, or whatever directly follows a marker
    | Separator(group: nat) // e.g. -i with its file
    | Known(def: OptionDef)
    | Library               // handled by opt_default
    | Negated(def: OptionDef)

  /** A piece of the command line: where it starts, how many slots it takes, what it is. */
  datatype Item = Item(pos: nat, width: nat, what: What)

  /** How the slot i is read; `after` tells that the slot before it was a marker. None is an error. */
  function Classify(su: Setup, argv: seq<string>, i: nat, after: bool): Option<Item>
    requires i < |argv|
  {
    if argv[i] == "--" then Some(Item(i, 1, Marker))
    else if !Dashed(argv[i]) || after then Some(Item(i, 1, Positional))
    else
      var name, more := argv[i][1..], i + 1 < |argv|;
      var group, def := FindSeparator(su.separators, name, 0), FindOption(su.options, name);
      if group.Some? then (if more then Some(Item(i, 2, Separator(group.value))) else None)
      else if def.Some? then
        if def.value.exits then Some(Item(i, 2, Known(def.value)))
        else if !def.value.HasArg() then Some(Item(i, 1, Known(def.value)))
        else if more then Some(Item(i, 2, Known(def.value)))
        else None
      else if more && su.libraryOption(name, argv[i + 1]) == Consumed then Some(Item(i, 2, Library))
      else if more && su.libraryOption(name, argv[i + 1]) == Rejected then None
      else
        var negated := FindNegated(su.options, name);
        if negated.Some? && negated.value.optType.Bool? then Some(Item(i, 1, Negated(negated.value))) else None
  }

  /** The pieces from slot i on, or None when the command line is refused. */
  function Split(su: Setup, argv: seq<string>, i: nat, after: bool): Option<seq<Item>>
    decreases |argv| - i
  {
    if i >= |argv| then Some([])
    else
      var item := Classify(su, argv, i, after);
      if item.None? then None
      else
        var rest := Split(su, argv, i + item.value.width, item.value.what.Marker?);
        if rest.None? then None else Some([item.value] + rest.value)
  }

  /** An option instance and a finished group of them. */
  datatype Opt = Opt(def: OptionDef, key: string, val: Option<string>)
  datatype Group = Group(arg: string, opts: seq<Opt>)

  datatype Parsed = Parsed(globals: seq<Opt>, current: seq<Opt>, groups: seq<seq<Group>>)

  function Slot(argv: seq<string>, i: nat): Option<string> { if i < |argv| then Some(argv[i]) else None }

  function FinishGroup(p: Parsed, k: nat, arg: string): Parsed
    requires k < |p.groups|
  {
    Parsed(p.globals, [], p.groups[k := p.groups[k] + [Group(arg, p.current)]])
  }

  function AddOpt(p: Parsed, o: Opt): Parsed {
    if o.def.perFile then p.(current := p.current + [o]) else p.(globals := p.globals + [o])
  }

  /** What one piece adds to the result. */
  function Apply(argv: seq<string>, p: Parsed, it: Item): (q: Parsed)
    requires it.pos < |argv| && |p.groups| > 0
    ensures |q.groups| == |p.groups|
  {
    var key := if argv[it.pos] == "" then "" else argv[it.pos][1..];
    match it.what
    case Marker => p
    case Positional => FinishGroup(p, 0, argv[it.pos])
    case Separator(k) => if k < |p.groups| && it.pos + 1 < |argv| then FinishGroup(p, k, argv[it.pos + 1]) else p
    case Known(def) =>
      AddOpt(p, Opt(def, key, if def.exits || def.HasArg() then Slot(argv, it.pos + 1) else Some("1")))
    case Library => p
    case Negated(def) => AddOpt(p, Opt(def, key, Some("0")))
  }

  function ApplyAll(argv: seq<string>, p: Parsed, its: seq<Item>): (q: Parsed)
    requires |p.groups| > 0 && forall k :: 0 <= k < |its| ==> its[k].pos < |argv|
    ensures |q.groups| == |p.groups|
  {
    if its == [] then p else Apply(argv, ApplyAll(argv, p, its[..|its| - 1]), its[|its| - 1])
  }

  class OptionParseContext {
    const su: Setup
    var globalOpts: seq<Opt>
    var curGroup: seq<Opt>
    var groups: seq<seq<Group>>

    function Now(): Parsed reads this { Parsed(globalOpts, curGroup, groups) }

    constructor (su: Setup)
      ensures this.su == su && Now() == Parsed([], [], seq(|su.separators|, _ => []))
    {
      this.su := su;
      globalOpts, curGroup := [], [];
      groups := seq(|su.separators|, _ => []);
    }

    method MatchGroupSeparator(name: string) returns (k: Option<nat>)
      ensures k == FindSeparator(su.separators, name, 0)
      ensures k.Some? ==> k.value < |su.separators|
    {
      for i := 0 to |su.separators|
        invariant FindSeparator(su.separators, name, 0) == FindSeparator(su.separators, name, i)
      {
        if su.separators[i] == Some(name) { return Some(i); }
      }
      return None;
    }

    method Finish(k: nat, arg: string)
      requires k < |groups|
      modifies this
      ensures Now() == FinishGroup(old(Now()), k, arg)
    {
      groups := groups[k := groups[k] + [Group(arg, curGroup)]];
      curGroup := [];
    }

    method Add(def: OptionDef, key: string, val: Option<string>)
      modifies this
      ensures Now() == AddOpt(old(Now()), Opt(def, key, val))
    {
      if def.perFile {
        curGroup := curGroup + [Opt(def, key, val)];
      } else {
        globalOpts := globalOpts + [Opt(def, key, val)];
      }
    }

    /** One turn of the splitting loop: the slots consumed, or none on an error. */
    method ReadItem(argv: seq<string>, i: nat, after: bool) returns (width: Option<nat>)
      requires i < |argv| && |groups| == |su.separators| > 0
      modifies this
      ensures width.None? <==> Classify(su, argv, i, after).None?
      ensures width.Some? ==> var it := Classify(su, argv, i, after).value;
                              width.value == it.width && Now() == Apply(argv, old(Now()), it)
      ensures |groups| == |su.separators|
    {
      var opt := argv[i];
      if opt == "--" { return Some(1); }
      if !Dashed(opt) || after {
        Finish(0, opt);
        return Some(1);
      }
      opt := opt[1..];
      var arg := Slot(argv, i + 1);
      var k := MatchGroupSeparator(opt);
      if k.Some? {
        if arg.None? { return None; }
        Finish(k.value, arg.value);
        return Some(2);
      }
      var po := FindOption(su.options, opt);
      if po.Some? {
        if po.value.exits {
          Add(po.value, opt, arg);
          return Some(2);
        } else if po.value.HasArg() {
          if arg.None? { return None; }
          Add(po.value, opt, arg);
          return Some(2);
        }
        Add(po.value, opt, Some("1"));
        return Some(1);
      }
      if arg.Some? {
        var verdict := su.libraryOption(opt, arg.value);
        if verdict == Consumed { return Some(2); }
        if verdict == Rejected { return None; }
      }
      if "no" <= opt {
        po := FindOption(su.options, opt[2..]);
        if po.Some? && po.value.optType.Bool? {
          Add(po.value, opt, Some("0"));
          return Some(1);
        }
      }
      return None;
    }

    method SplitCommandline(argv: seq<string>) returns (ok: bool)
      requires |groups| == |su.separators| > 0
      modifies this
      ensures ok <==> Split(su, argv, 1, false).Some?
      ensures ok ==> Positioned(Split(su, argv, 1, false).value, argv)
                     && Now() == ApplyAll(argv, old(Now()), Split(su, argv, 1, false).value)
    {
      hide Classify, Split, Apply, ApplyAll, Progress;
      var optindex, dashdash := 1, -2;
      ghost var done: seq<Item> := [];
      SplitStart(su, argv, Now());
      while optindex < |argv|
        invariant 1 <= optindex && |groups| == |su.separators| && dashdash < optindex + 1
        invariant Progress(su, argv, old(Now()), Now(), optindex, dashdash == optindex, done)
        decreases |argv| - optindex
      {
        SplitTurn(su, argv, old(Now()), Now(), optindex, dashdash == optindex, done);
        ghost var item := Classify(su, argv, optindex, dashdash == optindex);
        var width := ReadItem(argv, optindex, dashdash == optindex);
        if width.None? { return false; }
        done := done + [item.value];
        if argv[optindex] == "--" { dashdash := optindex + 1; }
        optindex := optindex + width.value;
      }
      SplitOver(su, argv, old(Now()), Now(), optindex, dashdash == optindex, done);
      return true;
    }
  }

  /** The splitting loop in front of slot i: `done` is read and applied, the rest is still to be read. */
  ghost predicate Progress(
    su: Setup, argv: seq<string>, start: Parsed, now: Parsed, i: nat, after: bool, done: seq<Item>)
    requires |start.groups| > 0
  {
    && Split(su, argv, 1, false) == Prepend(done, Split(su, argv, i, after))
    && Positioned(done, argv) && now == ApplyAll(argv, start, done)
  }

  lemma SplitStart(su: Setup, argv: seq<string>, start: Parsed)
    requires |start.groups| > 0
    ensures Progress(su, argv, start, start, 1, false, [])
  {
    NothingInFront(Split(su, argv, 1, false));
  }

  lemma SplitTurn(su: Setup, argv: seq<string>, start: Parsed, now: Parsed, i: nat, after: bool, done: seq<Item>)
    requires |start.groups| > 0 && i < |argv| && Progress(su, argv, start, now, i, after, done)
    ensures Classify(su, argv, i, after).None? ==> Split(su, argv, 1, false).None?
    ensures Classify(su, argv, i, after).Some? ==>
              var it := Classify(su, argv, i, after).value;
              && it.pos == i && it.width >= 1
              && (it.what.Marker? <==> argv[i] == "--") && (it.what.Marker? ==> it.width == 1)
              && |now.groups| == |start.groups|
              && Progress(su, argv, start, Apply(argv, now, it), i + it.width, it.what.Marker?, done + [it])
  {
    hide Classify, Split;
    SplitAt(su, argv, i, after, done);
    if Classify(su, argv, i, after).Some? {
      var it := Classify(su, argv, i, after).value;
      assert (done + [it])[..|done|] == done;
    }
  }

  lemma SplitOver(su: Setup, argv: seq<string>, start: Parsed, now: Parsed, i: nat, after: bool, done: seq<Item>)
    requires |start.groups| > 0 && i >= |argv| && Progress(su, argv, start, now, i, after, done)
    ensures Split(su, argv, 1, false) == Some(done) && Positioned(done, argv) && now == ApplyAll(argv, start, done)
  {
    assert done + [] == done;
  }

  function Prepend(front: seq<Item>, rest: Option<seq<Item>>): Option<seq<Item>> {
    if rest.None? then None else Some(front + rest.value)
  }

  lemma NothingInFront(rest: Option<seq<Item>>)
    ensures Prepend([], rest) == rest
  {
    if rest.Some? { assert [] + rest.value == rest.value; }
  }

  /** One turn of the splitting loop moves a piece from what is left to what is done. */
  lemma SplitAt(su: Setup, argv: seq<string>, i: nat, after: bool, done: seq<Item>)
    requires i < |argv|
    ensures var item := Classify(su, argv, i, after);
            Prepend(done, Split(su, argv, i, after))
            == if item.None? then None
               else Prepend(done + [item.value], Split(su, argv, i + item.value.width, item.value.what.Marker?))
    ensures Classify(su, argv, i, after).Some? ==>
              var it := Classify(su, argv, i, after).value;
              && it.pos == i && it.width >= 1
              && (it.what.Marker? <==> argv[i] == "--") && (it.what.Marker? ==> it.width == 1)
  {
    hide Classify;
    var item := Classify(su, argv, i, after);
    if argv[i] == "--" { MarkerPiece(su, argv, i, after); }
    if item.Some? {
      PieceIsHere(su, argv, i, after);
      var rest := Split(su, argv, i + item.value.width, item.value.what.Marker?);
      if rest.Some? { assert done + ([item.value] + rest.value) == done + [item.value] + rest.value; }
    }
  }

  ghost predicate Positioned(its: seq<Item>, argv: seq<string>) {
    forall k :: 0 <= k < |its| ==> its[k].pos < |argv|
  }

  // ---------- locate_option ----------

  /** The table entry locate_option takes an option for. */
  function Located(su: Setup, argv: seq<string>, i: nat): Option<OptionDef>
    requires i < |argv| && Dashed(argv[i])
  {
    var def := FindOption(su.options, argv[i][1..]);
    if def.Some? then def else FindNegated(su.options, argv[i][1..])
  }

  function Stride(su: Setup, argv: seq<string>, i: nat): nat
    requires i < |argv| && Dashed(argv[i])
  {
    var def := Located(su, argv, i);
    if def.None? || def.value.HasArg() then 2 else 1
  }

  /** The slots locate_option looks at as options, from slot i on. */
  function Visits(su: Setup, argv: seq<string>, i: nat): seq<nat>
    decreases |argv| - i
  {
    if i >= |argv| then []
    else if !Dashed(argv[i]) then Visits(su, argv, i + 1)
    else [i] + Visits(su, argv, i + Stride(su, argv, i))
  }

  /** The option in slot i is the one asked for. */
  predicate Matches(su: Setup, argv: seq<string>, i: nat, name: string)
    requires i < |argv| && Dashed(argv[i])
  {
    var def := Located(su, argv, i);
    if def.None? then argv[i][1..] == name else def.value.name == name
  }

  lemma {:induction false} VisitsAreOptions(su: Setup, argv: seq<string>, i: nat)
    ensures forall k :: 0 <= k < |Visits(su, argv, i)| ==>
              i <= Visits(su, argv, i)[k] < |argv| && Dashed(argv[Visits(su, argv, i)[k]])
    decreases |argv| - i
  {
    if i < |argv| {
      VisitsAreOptions(su, argv, if Dashed(argv[i]) then i + Stride(su, argv, i) else i + 1);
    }
  }

  /** The slot of the first visited option that matches, 0 when none does. */
  method LocateOption(su: Setup, argv: seq<string>, name: string) returns (r: nat)
    ensures r == 0 ==>
      forall v :: v in Visits(su, argv, 1) ==> v < |argv| && Dashed(argv[v]) && !Matches(su, argv, v, name)
    ensures r != 0 ==>
      var vs := Visits(su, argv, 1);
      exists k :: 0 <= k < |vs| && vs[k] == r && r < |argv| && Dashed(argv[r]) && Matches(su, argv, r, name)
                  && forall l :: 0 <= l < k ==> vs[l] < |argv| && Dashed(argv[vs[l]]) && !Matches(su, argv, vs[l], name)
  {
    ghost var vs := Visits(su, argv, 1);
    ghost var seen: nat := 0;
    VisitsAreOptions(su, argv, 1);
    var i := 1;
    while i < |argv|
      invariant 1 <= i && seen <= |vs| && vs[seen..] == Visits(su, argv, i)
      invariant forall l :: 0 <= l < seen ==> !Matches(su, argv, vs[l], name)
      decreases |argv| - i
    {
      if Dashed(argv[i]) {
        var cur := argv[i][1..];
        var po := FindOption(su.options, cur);
        if po.None? && "no" <= cur { po := FindOption(su.options, cur[2..]); }
        assert vs[seen] == vs[seen..][0] && vs[seen..][1..] == vs[seen + 1..];
        assert vs[seen] == i;
        if (po.None? && cur == name) || (po.Some? && po.value.name == name) { return i; }
        seen := seen + 1;
        if po.None? || po.value.HasArg() { i := i + 1; }
      }
      i := i + 1;
    }
    return 0;
  }

  // ---------- the two agree ----------

  /** No library option is called `no` followed by a known option, and no separator can be taken for an option. */
  ghost predicate Disjoint(su: Setup) {
    && (forall name, arg :: FindNegated(su.options, name).Some? ==> su.libraryOption(name, arg) == NotFound)
    && (forall k :: 0 <= k < |su.separators| && su.separators[k].Some? ==>
          FindOption(su.options, su.separators[k].value).None? && FindNegated(su.options, su.separators[k].value).None?)
  }

  /** An option called `-` that takes no argument: the locator then does not skip the slot behind a marker. */
  predicate DashFlag(su: Setup) {
    var def := FindOption(su.options, "-");
    def.Some? && !def.value.HasArg()
  }

  ghost predicate NoExit(its: seq<Item>) {
    forall k :: 0 <= k < |its| ==> !(its[k].what.Known? && its[k].what.def.exits)
  }

  ghost predicate NoDoubleMarker(argv: seq<string>) {
    forall i :: 0 < i < |argv| ==> !(argv[i - 1] == "--" && argv[i] == "--")
  }

  /** The slots of the pieces that are not positional. */
  function Heads(its: seq<Item>): seq<nat> {
    if its == [] then [] else (if its[0].what.Positional? then [] else [its[0].pos]) + Heads(its[1..])
  }

  /** The separator found is the first with the name, and none is found exactly when none has it. */
  lemma {:induction false} SeparatorFound(separators: seq<Option<string>>, name: string, k: nat)
    requires k <= |separators|
    ensures var r := FindSeparator(separators, name, k);
            && (r.Some? ==> k <= r.value < |separators| && separators[r.value] == Some(name)
                            && forall j :: k <= j < r.value ==> separators[j] != Some(name))
            && (r.None? ==> forall j :: k <= j < |separators| ==> separators[j] != Some(name))
    decreases |separators| - k
  {
    if k < |separators| { SeparatorFound(separators, name, k + 1); }
  }

  /** A piece that is an option to the splitter has the same width for the locator, unless it is a flag that exits. */
  lemma SameWidth(su: Setup, argv: seq<string>, i: nat)
    requires Disjoint(su) && i < |argv| && Dashed(argv[i]) && argv[i] != "--" && Classify(su, argv, i, false).Some?
    ensures Classify(su, argv, i, false).value.width
            == if FlagExit(Classify(su, argv, i, false).value) then 2 else Stride(su, argv, i)
    ensures FlagExit(Classify(su, argv, i, false).value) ==> Stride(su, argv, i) == 1
    ensures !Classify(su, argv, i, false).value.what.Positional? && !Classify(su, argv, i, false).value.what.Marker?
  {
    var name := argv[i][1..];
    var it := Classify(su, argv, i, false).value;
    SeparatorFound(su.separators, name, 0);
    if it.what.Library? { assert su.libraryOption(name, argv[i + 1]) == Consumed; }
  }

  lemma PositionalPiece(su: Setup, argv: seq<string>, i: nat, after: bool)
    requires i < |argv| && argv[i] != "--" && (!Dashed(argv[i]) || after)
    ensures Classify(su, argv, i, after) == Some(Item(i, 1, Positional))
  {
  }

  /** The locator takes a marker for an option called `-`, or for an unknown one, and skips the slot behind it. */
  lemma MarkerPiece(su: Setup, argv: seq<string>, i: nat, after: bool)
    requires i < |argv| && argv[i] == "--"
    ensures Stride(su, argv, i) == if DashFlag(su) then 1 else 2
    ensures Classify(su, argv, i, after) == Some(Item(i, 1, Marker))
  {
    assert argv[i][1..] == "-";
  }

  /** An option that exits and takes no argument: the splitter still hands it the next slot. */
  predicate FlagExit(it: Item) { it.what.Known? && it.what.def.exits && !it.what.def.HasArg() }

  /**
   * A marker read right after a marker (with an option called `-`: a dashed slot read as a file right after a marker),
   * or an exiting flag that is handed what looks like an option.
   */
  predicate Clash(su: Setup, argv: seq<string>, its: seq<Item>)
    requires its != []
  {
    || (its[0].what.Marker? && |its| > 1 && if DashFlag(su) then DashedFile(argv, its[1]) else its[1].what.Marker?)
    || HandedOption(argv, its[0])
  }

  predicate HandedOption(argv: seq<string>, it: Item) {
    FlagExit(it) && it.pos + 1 < |argv| && Dashed(argv[it.pos + 1])
  }

  predicate DashedFile(argv: seq<string>, it: Item) {
    it.what.Positional? && it.pos < |argv| && Dashed(argv[it.pos])
  }

  predicate Harmless(su: Setup, argv: seq<string>, its: seq<Item>) {
    its == [] || (!Clash(su, argv, its) && Harmless(su, argv, its[1..]))
  }

  lemma SameTail(a: nat, xs: seq<nat>, ys: seq<nat>)
    ensures [a] + xs == [a] + ys <==> xs == ys
  {
    if [a] + xs == [a] + ys { assert xs == ([a] + xs)[1..] && ys == ([a] + ys)[1..]; }
  }

  lemma OtherTail(a: nat, b: nat, xs: seq<nat>, ys: seq<nat>)
    requires forall y :: y in ys ==> y != b
    ensures [a] + ([b] + xs) != [a] + ys
  {
    SameTail(a, [b] + xs, ys);
    assert ([b] + xs)[0] == b && (ys != [] ==> ys[0] in ys);
  }

  lemma {:induction false} HeadsFrom(su: Setup, argv: seq<string>, i: nat, after: bool)
    requires Split(su, argv, i, after).Some?
    ensures forall h :: h in Heads(Split(su, argv, i, after).value) ==> h >= i
    decreases |argv| - i
  {
    if i < |argv| {
      var its := Split(su, argv, i, after).value;
      PieceIsHere(su, argv, i, after);
      assert its[1..] == Split(su, argv, i + its[0].width, its[0].what.Marker?).value;
      HeadsFrom(su, argv, i + its[0].width, its[0].what.Marker?);
    }
  }

  /** What an accepted command line starts with, and the rest of its pieces. */
  lemma SplitStarts(su: Setup, argv: seq<string>, i: nat, after: bool)
    requires i < |argv| && Split(su, argv, i, after).Some?
    ensures var its := Split(su, argv, i, after).value;
            && its != [] && Classify(su, argv, i, after) == Some(its[0])
            && Split(su, argv, i + its[0].width, its[0].what.Marker?) == Some(its[1..])
            && Heads(its) == (if its[0].what.Positional? then [] else [i]) + Heads(its[1..])
  {
    PieceIsHere(su, argv, i, after);
    var its := Split(su, argv, i, after).value;
    assert its[1..] == Split(su, argv, i + its[0].width, its[0].what.Marker?).value;
  }

  /** A marker that is not the last slot: what follows is a marker again or a positional. */
  lemma AfterMarker(su: Setup, argv: seq<string>, i: nat)
    requires !DashFlag(su) && i + 1 < |argv| && argv[i] == "--" && Split(su, argv, i, false).Some?
    ensures var its := Split(su, argv, i, false).value;
            && |its| > 1 && its[0] == Item(i, 1, Marker) && its[1].what.Marker? == (argv[i + 1] == "--")
            && (argv[i + 1] == "--" ==> Visits(su, argv, i) != Heads(its) && !Harmless(su, argv, its))
            && (argv[i + 1] != "--" ==>
                  && Split(su, argv, i + 2, false) == Some(its[2..])
                  && Visits(su, argv, i) == [i] + Visits(su, argv, i + 2) && Heads(its) == [i] + Heads(its[2..])
                  && (Harmless(su, argv, its) <==> Harmless(su, argv, its[2..])))
  {
    hide Classify, Stride;
    var its := Split(su, argv, i, false).value;
    MarkerPiece(su, argv, i, false);
    SplitStarts(su, argv, i, false);
    SplitStarts(su, argv, i + 1, true);
    assert its[1..][1..] == its[2..];
    if argv[i + 1] == "--" {
      MarkerPiece(su, argv, i + 1, true);
      VisitsAreOptions(su, argv, i + 2);
      OtherTail(i, i + 1, Heads(its[2..]), Visits(su, argv, i + 2));
    } else {
      PositionalPiece(su, argv, i + 1, true);
    }
  }

  /** The slot i is read right after a marker as a file, and the locator sees an option there. */
  predicate FileToOne(argv: seq<string>, i: nat, after: bool) {
    after && i < |argv| && argv[i] != "--" && Dashed(argv[i])
  }

  /** The scanners agree from slot i on exactly when there is no clash from there on. */
  ghost predicate Agree(su: Setup, argv: seq<string>, i: nat, after: bool)
    requires Split(su, argv, i, after).Some?
  {
    Visits(su, argv, i) == Heads(Split(su, argv, i, after).value)
    <==> Harmless(su, argv, Split(su, argv, i, after).value) && !FileToOne(argv, i, after)
  }

  lemma AgreeAtMarker(su: Setup, argv: seq<string>, i: nat, after: bool)
    requires i < |argv| && argv[i] == "--" && Split(su, argv, i, after).Some?
    requires if DashFlag(su) then Split(su, argv, i + 1, true).Some? ==> Agree(su, argv, i + 1, true)
             else !after && (Split(su, argv, i + 2, false).Some? ==> Agree(su, argv, i + 2, false))
    ensures Agree(su, argv, i, after)
  {
    hide Classify, Stride;
    var its := Split(su, argv, i, after).value;
    SplitStarts(su, argv, i, after);
    MarkerPiece(su, argv, i, after);
    if DashFlag(su) {
      SameTail(i, Visits(su, argv, i + 1), Heads(its[1..]));
      AfterDash(su, argv, i, its);
    } else if i + 1 < |argv| {
      AfterMarker(su, argv, i);
      if argv[i + 1] != "--" { SameTail(i, Visits(su, argv, i + 2), Heads(its[2..])); }
    }
  }

  lemma AgreeAtFile(su: Setup, argv: seq<string>, i: nat, after: bool)
    requires i < |argv| && argv[i] != "--" && (after || !Dashed(argv[i])) && Split(su, argv, i, after).Some?
    requires Split(su, argv, i + 1, false).Some? ==> Agree(su, argv, i + 1, false)
    ensures Agree(su, argv, i, after)
  {
    hide Classify, Stride;
    var its := Split(su, argv, i, after).value;
    SplitStarts(su, argv, i, after);
    PositionalPiece(su, argv, i, after);
    if Dashed(argv[i]) {
      HeadsFrom(su, argv, i + 1, false);
      var hs: seq<nat> := Heads(its[1..]);
      assert Visits(su, argv, i)[0] == i && Heads(its) == hs && (hs != [] ==> hs[0] in hs);
    }
  }

  lemma VisitStarts(su: Setup, argv: seq<string>, i: nat)
    requires i < |argv|
    ensures Visits(su, argv, i)
            == if Dashed(argv[i]) then [i] + Visits(su, argv, i + Stride(su, argv, i)) else Visits(su, argv, i + 1)
  {
  }

  /** An option piece clashes only as an exiting flag in front of a dashed slot. */
  lemma OptionHarmless(su: Setup, argv: seq<string>, its: seq<Item>)
    requires its != [] && !its[0].what.Marker?
    ensures Harmless(su, argv, its) <==> Harmless(su, argv, its[1..]) && !HandedOption(argv, its[0])
  {
  }

  /** What the locator visits behind an option piece: the same as from the next piece on, or the slot handed over. */
  lemma VisitsBehind(su: Setup, argv: seq<string>, i: nat)
    requires Disjoint(su) && i < |argv| && argv[i] != "--" && Dashed(argv[i]) && Classify(su, argv, i, false).Some?
    ensures var it := Classify(su, argv, i, false).value;
            var rest := Visits(su, argv, i + Stride(su, argv, i));
            if HandedOption(argv, it) then it.width == 2 && rest != [] && rest[0] == i + 1
            else rest == Visits(su, argv, i + it.width)
  {
    hide Classify, Stride;
    SameWidth(su, argv, i);
    PieceIsHere(su, argv, i, false);
    if FlagExit(Classify(su, argv, i, false).value) && i + 1 < |argv| { VisitStarts(su, argv, i + 1); }
  }

  lemma AgreeAtOption(su: Setup, argv: seq<string>, i: nat)
    requires Disjoint(su) && i < |argv| && argv[i] != "--" && Dashed(argv[i]) && Split(su, argv, i, false).Some?
    requires var n := i + Split(su, argv, i, false).value[0].width;
             Split(su, argv, n, false).Some? ==> Agree(su, argv, n, false)
    ensures Agree(su, argv, i, false)
  {
    hide Classify, Stride, Visits, Harmless, HandedOption, Split, Heads;
    var its := Split(su, argv, i, false).value;
    SplitStarts(su, argv, i, false);
    PieceIsHere(su, argv, i, false);
    SameWidth(su, argv, i);
    VisitStarts(su, argv, i);
    VisitsBehind(su, argv, i);
    OptionHarmless(su, argv, its);
    var rest, hs: seq<nat> := Visits(su, argv, i + Stride(su, argv, i)), Heads(its[1..]);
    SameTail(i, rest, hs);
    HeadsFrom(su, argv, i + its[0].width, false);
    assert hs != [] ==> hs[0] in hs;
  }

  lemma AgreeAtEnd(su: Setup, argv: seq<string>, i: nat, after: bool)
    requires i >= |argv|
    ensures Split(su, argv, i, after).Some? && Agree(su, argv, i, after)
  {
  }

  /** The agreement from slot i on; right after a marker this matters only when there is an option called `-`. */
  lemma {:induction false} AgreeFrom(su: Setup, argv: seq<string>, i: nat, after: bool)
    requires Disjoint(su) && Split(su, argv, i, after).Some? && (after ==> DashFlag(su))
    ensures Agree(su, argv, i, after)
    decreases |argv| - i
  {
    if i < |argv| {
      hide Classify, Stride, Agree, Visits, Heads, Harmless;
      SplitStarts(su, argv, i, after);
      PieceIsHere(su, argv, i, after);
      if argv[i] == "--" {
        var next := if DashFlag(su) then i + 1 else i + 2;
        if Split(su, argv, next, DashFlag(su)).Some? { AgreeFrom(su, argv, next, DashFlag(su)); }
        AgreeAtMarker(su, argv, i, after);
      } else if after || !Dashed(argv[i]) {
        if Split(su, argv, i + 1, false).Some? { AgreeFrom(su, argv, i + 1, false); }
        AgreeAtFile(su, argv, i, after);
      } else {
        AgreeFrom(su, argv, i + Split(su, argv, i, false).value[0].width, false);
        AgreeAtOption(su, argv, i);
      }
    } else {
      AgreeAtEnd(su, argv, i, after);
    }
  }

  /** With an option called `-`, a marker clashes exactly when the slot behind it is a file to the splitter only. */
  lemma AfterDash(su: Setup, argv: seq<string>, i: nat, its: seq<Item>)
    requires DashFlag(su) && i < |argv| && its != [] && its[0] == Item(i, 1, Marker)
    requires Split(su, argv, i + 1, true) == Some(its[1..])
    ensures Clash(su, argv, its) <==> FileToOne(argv, i + 1, true)
  {
    hide Classify;
    if i + 1 < |argv| {
      SplitStarts(su, argv, i + 1, true);
      PieceIsHere(su, argv, i + 1, true);
      if argv[i + 1] == "--" { MarkerPiece(su, argv, i + 1, true); } else { PositionalPiece(su, argv, i + 1, true); }
    }
  }

  /** On every accepted command line the locator visits exactly the splitter's option slots, unless there is a clash. */
  lemma ScannersAgreeIff(su: Setup, argv: seq<string>, i: nat)
    requires Disjoint(su) && Split(su, argv, i, false).Some?
    ensures Visits(su, argv, i) == Heads(Split(su, argv, i, false).value)
            <==> Harmless(su, argv, Split(su, argv, i, false).value)
  {
    AgreeFrom(su, argv, i, false);
  }

  /** Without an exiting option, two adjacent `--` slots and an option called `-` there is no clash. */
  lemma {:induction false} PlainIsHarmless(su: Setup, argv: seq<string>, i: nat, after: bool)
    requires !DashFlag(su) && i >= 1 && NoDoubleMarker(argv)
    requires Split(su, argv, i, after).Some? && NoExit(Split(su, argv, i, after).value)
    ensures Harmless(su, argv, Split(su, argv, i, after).value)
    decreases |argv| - i
  {
    hide Classify;
    if i < |argv| {
      var its := Split(su, argv, i, after).value;
      SplitStarts(su, argv, i, after);
      PieceIsHere(su, argv, i, after);
      PlainIsHarmless(su, argv, i + its[0].width, its[0].what.Marker?);
      if its[0].what.Marker? && |its| > 1 {
        SplitStarts(su, argv, i + 1, true);
        PieceIsHere(su, argv, i + 1, true);
      }
    }
  }

  lemma PieceIsHere(su: Setup, argv: seq<string>, i: nat, after: bool)
    requires i < |argv| && Classify(su, argv, i, after).Some?
    ensures var it := Classify(su, argv, i, after).value;
            it.pos == i && it.width >= 1 && (it.what.Marker? ==> argv[i] == "--" && it.width == 1)
  {
  }

  /** The pieces tile the slots from i to n without gap or overlap. */
  ghost predicate Tiles(its: seq<Item>, i: nat, n: nat)
    decreases |its|
  {
    if its == [] then i == n else its[0].pos == i && its[0].width > 0 && Tiles(its[1..], i + its[0].width, n)
  }

  lemma {:induction false} SplitTiles(su: Setup, argv: seq<string>, i: nat, after: bool)
    requires i <= |argv| && Split(su, argv, i, after).Some? && NoExit(Split(su, argv, i, after).value)
    ensures Tiles(Split(su, argv, i, after).value, i, |argv|)
    decreases |argv| - i
  {
    if i < |argv| {
      var its := Split(su, argv, i, after).value;
      assert its[1..] == Split(su, argv, i + its[0].width, its[0].what.Marker?).value;
      SplitTiles(su, argv, i + its[0].width, its[0].what.Marker?);
    }
  }

  /** Both scanners consume every slot exactly once and agree on where the options are. */
  lemma ScannersAgree(su: Setup, argv: seq<string>)
    requires Disjoint(su) && !DashFlag(su) && NoDoubleMarker(argv) && argv != []
    requires Split(su, argv, 1, false).Some? && NoExit(Split(su, argv, 1, false).value)
    ensures Visits(su, argv, 1) == Heads(Split(su, argv, 1, false).value)
    ensures Tiles(Split(su, argv, 1, false).value, 1, |argv|)
  {
    PlainIsHarmless(su, argv, 1, false);
    ScannersAgreeIff(su, argv, 1);
    SplitTiles(su, argv, 1, false);
  }

  /** The splitter recorded an instance of the option called `name`, or of its negation. */
  ghost predicate Records(its: seq<Item>, name: string) {
    exists k :: 0 <= k < |its| && (its[k].what.Known? || its[k].what.Negated?) && its[k].what.def.name == name
  }

  /** The locator has something to return from slot i on. */
  ghost predicate Finds(su: Setup, argv: seq<string>, i: nat, name: string) {
    exists v :: v in Visits(su, argv, i) && v < |argv| && Dashed(argv[v]) && Matches(su, argv, v, name)
  }

  /** A piece matches a table name exactly when it was recorded under it. */
  lemma PieceMatches(su: Setup, argv: seq<string>, i: nat, name: string)
    requires Disjoint(su) && FindOption(su.options, "-").None?
    requires i < |argv| && Dashed(argv[i]) && Classify(su, argv, i, false).Some?
    requires FindOption(su.options, name).Some?
    ensures Matches(su, argv, i, name) <==> Records([Classify(su, argv, i, false).value], name)
  {
    var key := argv[i][1..];
    var it := Classify(su, argv, i, false).value;
    assert [it][0] == it;
    SeparatorFound(su.separators, key, 0);
    if argv[i] == "--" { assert key == "-" && FindNegated(su.options, key).None?; }
    if it.what.Library? { assert su.libraryOption(key, argv[i + 1]) == Consumed; }
  }

  lemma RecordsFirst(its: seq<Item>, name: string)
    requires its != []
    ensures Records(its, name) <==> Records([its[0]], name) || Records(its[1..], name)
  {
    assert [its[0]][0] == its[0];
    if Records(its, name) {
      var k :| 0 <= k < |its| && (its[k].what.Known? || its[k].what.Negated?) && its[k].what.def.name == name;
      if k > 0 { assert its[1..][k - 1] == its[k]; }
    }
    if Records(its[1..], name) {
      var rest := its[1..];
      var k :| 0 <= k < |rest| && (rest[k].what.Known? || rest[k].what.Negated?) && rest[k].what.def.name == name;
      assert its[k + 1] == its[1..][k];
    }
  }

  lemma FindsFirst(su: Setup, argv: seq<string>, i: nat, name: string)
    requires i < |argv| && Dashed(argv[i])
    ensures Finds(su, argv, i, name) <==> Matches(su, argv, i, name) || Finds(su, argv, i + Stride(su, argv, i), name)
  {
    assert i in Visits(su, argv, i);
  }

  lemma FindsSkip(su: Setup, argv: seq<string>, i: nat, name: string)
    requires i < |argv| && !Dashed(argv[i])
    ensures Finds(su, argv, i, name) <==> Finds(su, argv, i + 1, name)
  {
  }

  lemma NothingIsNotRecorded(name: string)
    ensures !Records([], name)
  {
  }

  lemma UnnamedIsNotRecorded(it: Item, name: string)
    requires it.what.Marker? || it.what.Positional?
    ensures !Records([it], name)
  {
  }

  /** The locator finds an option of the table exactly when the splitter recorded an instance of it. */
  lemma {:induction false} FoundIffRecorded(su: Setup, argv: seq<string>, i: nat, name: string)
    requires Disjoint(su) && FindOption(su.options, "-").None? && NoDoubleMarker(argv)
    requires i >= 1 && FindOption(su.options, name).Some?
    requires Split(su, argv, i, false).Some? && NoExit(Split(su, argv, i, false).value)
    ensures Finds(su, argv, i, name) <==> Records(Split(su, argv, i, false).value, name)
    decreases |argv| - i
  {
    hide Classify, Matches, Stride, Records;
    NothingIsNotRecorded(name);
    if i < |argv| {
      var its := Split(su, argv, i, false).value;
      var it := its[0];
      RecordsFirst(its, name);
      assert its[1..] == Split(su, argv, i + it.width, it.what.Marker?).value;
      if argv[i] == "--" {
        MarkerPiece(su, argv, i, false);
        PieceMatches(su, argv, i, name);
        FindsFirst(su, argv, i, name);
        if i + 1 < |argv| {
          PositionalPiece(su, argv, i + 1, true);
          UnnamedIsNotRecorded(Item(i + 1, 1, Positional), name);
          var rest := its[1..];
          assert rest[0] == Item(i + 1, 1, Positional) && rest[1..] == Split(su, argv, i + 2, false).value;
          RecordsFirst(rest, name);
          FoundIffRecorded(su, argv, i + 2, name);
        }
      } else if Dashed(argv[i]) {
        PieceMatches(su, argv, i, name);
        FindsFirst(su, argv, i, name);
        SameWidth(su, argv, i);
        FoundIffRecorded(su, argv, i + it.width, name);
      } else {
        PositionalPiece(su, argv, i, false);
        UnnamedIsNotRecorded(it, name);
        FindsSkip(su, argv, i, name);
        FoundIffRecorded(su, argv, i + 1, name);
      }
    }
  }

  lemma SplitFirst(su: Setup, argv: seq<string>, i: nat, after: bool, it: Item, rest: seq<Item>)
    requires i < |argv| && Classify(su, argv, i, after) == Some(it)
    requires Split(su, argv, i + it.width, it.what.Marker?) == Some(rest)
    ensures Split(su, argv, i, after) == Some([it] + rest)
  {
  }

  const TWO_MARKERS := ["ffmpeg", "--", "--", "-x"]

  lemma SplitOfTwoMarkers(su: Setup)
    ensures Split(su, TWO_MARKERS, 1, false) == Some([Item(1, 1, Marker), Item(2, 1, Marker), Item(3, 1, Positional)])
  {
    hide Classify;
    var argv := TWO_MARKERS;
    var m1, m2, file := Item(1, 1, Marker), Item(2, 1, Marker), Item(3, 1, Positional);
    assert argv[1] == "--" && argv[2] == "--" && argv[3] == "-x" && |argv| == 4;
    PositionalPiece(su, argv, 3, true);
    assert [file] + [] == [file] && [m2] + [file] == [m2, file] && [m1] + [m2, file] == [m1, m2, file];
    SplitFirst(su, argv, 3, true, file, []);
    MarkerPiece(su, argv, 2, true);
    SplitFirst(su, argv, 2, true, m2, [file]);
    MarkerPiece(su, argv, 1, false);
    SplitFirst(su, argv, 1, false, m1, [m2, file]);
  }

  /** Two markers in a row break the agreement: the third slot is a file to one scanner and an option to the other. */
  lemma DoubleMarkerDisagrees(su: Setup)
    requires !DashFlag(su)
    ensures Split(su, TWO_MARKERS, 1, false).Some? && Heads(Split(su, TWO_MARKERS, 1, false).value) == [1, 2]
    ensures Visits(su, TWO_MARKERS, 1) == [1, 3]
  {
    hide Classify, Split, Stride;
    var argv := TWO_MARKERS;
    SplitOfTwoMarkers(su);
    assert Heads([Item(3, 1, Positional)]) == [];
    assert Heads([Item(2, 1, Marker), Item(3, 1, Positional)]) == [2];
    var its := [Item(1, 1, Marker), Item(2, 1, Marker), Item(3, 1, Positional)];
    assert its[1..] == [Item(2, 1, Marker), Item(3, 1, Positional)] && Heads(its) == [1, 2];
    MarkerPiece(su, argv, 1, false);
    assert Dashed(argv[3]);
    assert Visits(su, argv, 3) == [3] + Visits(su, argv, 3 + Stride(su, argv, 3));
    StrideIsPositive(su, argv, 3);
  }

  lemma StrideIsPositive(su: Setup, argv: seq<string>, i: nat)
    requires i < |argv| && Dashed(argv[i])
    ensures Stride(su, argv, i) >= 1
  {
  }

  /** Options that exit, such as -h and -version, without an argument of their own. */
  const EXITING: Setup := Setup([OptionDef("h", Func, false, false, true)], [None], (name, arg) => NotFound)

  /** `-h -h`: the splitter hands the second slot to the first option, the locator looks at it. */
  lemma ExitFlagDisagrees()
    ensures Disjoint(EXITING) && Split(EXITING, ["ffmpeg", "-h", "-h"], 1, false).Some?
    ensures Heads(Split(EXITING, ["ffmpeg", "-h", "-h"], 1, false).value) == [1]
    ensures Visits(EXITING, ["ffmpeg", "-h", "-h"], 1) == [1, 2]
  {
    var argv := ["ffmpeg", "-h", "-h"];
    var h := Item(1, 2, Known(EXITING.options[0]));
    assert argv[1][1..] == "h" && argv[2][1..] == "h";
    assert FindOption(EXITING.options, "h") == Some(EXITING.options[0]);
    assert Classify(EXITING, argv, 1, false) == Some(h);
    SplitFirst(EXITING, argv, 1, false, h, []);
    assert [h] + [] == [h] && Heads([h]) == [1];
    assert Stride(EXITING, argv, 1) == 1 && Stride(EXITING, argv, 2) == 1;
  }

  const DASH: Setup := Setup([OptionDef("-", Bool, false, false, false)], [None], (name, arg) => NotFound)

  /**
   * With an option called `-`, `-- -x` is a marker and a file to the splitter and two options to the locator. No
   * options table of the program has such an option, so this does not arise.
   */
  lemma DashOptionDisagrees()
    ensures Disjoint(DASH) && Split(DASH, ["ffmpeg", "--", "-x"], 1, false).Some?
    ensures Heads(Split(DASH, ["ffmpeg", "--", "-x"], 1, false).value) == [1]
    ensures Visits(DASH, ["ffmpeg", "--", "-x"], 1) == [1, 2]
  {
    var argv := ["ffmpeg", "--", "-x"];
    var m, file := Item(1, 1, Marker), Item(2, 1, Positional);
    assert FindOption(DASH.options, "-") == Some(DASH.options[0]);
    PositionalPiece(DASH, argv, 2, true);
    SplitFirst(DASH, argv, 2, true, file, []);
    MarkerPiece(DASH, argv, 1, false);
    assert [file] + [] == [file];
    SplitFirst(DASH, argv, 1, false, m, [file]);
    assert Heads([file]) == [] && ([m] + [file])[1..] == [file] && Heads([m] + [file]) == [1];
    StrideIsPositive(DASH, argv, 2);
    assert Dashed(argv[2]);
    assert Visits(DASH, argv, 2) == [2] + Visits(DASH, argv, 2 + Stride(DASH, argv, 2));
  }
}

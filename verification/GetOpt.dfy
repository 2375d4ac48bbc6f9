/** The fallback getopt: a scanner that is called once per option and keeps its place in static variables. */
module GetOpt {
  import opened Common

  /** What one call reports: an option with its argument, a `?`, or the end of the options. */
  datatype Result = Opt(c: char, arg: Option<string>) | Bad(c: char) | Done

  datatype Kind = Unknown | Plain | WithArg

  /** The kind of c when the option string is searched from its first occurrence; `:` is never an option. */
  function KindOf(opts: string, c: char): Kind {
    if c == ':' || opts == "" then Unknown
    else if opts[0] == c then (if |opts| > 1 && opts[1] == ':' then WithArg else Plain)
    else KindOf(opts[1..], c)
  }

  predicate IsOption(arg: string) { |arg| > 1 && arg[0] == '-' }

  // ---------- the pure left-to-right scan ----------

  /** The options of one argument from the suffix s on, and the arguments left when it is used up. */
  function Cluster(opts: string, s: string, more: seq<string>): (r: (seq<Result>, seq<string>))
    ensures |r.1| <= |more|
  {
    if s == "" then ([], more)
    else
      var c := s[0];
      match KindOf(opts, c)
      case Unknown => var (rs, rest) := Cluster(opts, s[1..], more); ([Bad(c)] + rs, rest)
      case Plain => var (rs, rest) := Cluster(opts, s[1..], more); ([Opt(c, None)] + rs, rest)
      case WithArg =>
        if |s| > 1 then ([Opt(c, Some(s[1..]))], more)
        else if more == [] then ([Bad(c)], [])
        else ([Opt(c, Some(more[0]))], more[1..])
  }

  /** The options of a list of arguments and the arguments after them. */
  function Scan(opts: string, args: seq<string>): (seq<Result>, seq<string>)
    decreases |args|
  {
    if args == [] || !IsOption(args[0]) then ([], args)
    else if args[0] == "--" then ([], args[1..])
    else
      var (rs, rest) := Cluster(opts, args[0][1..], args[1..]);
      var (more, left) := Scan(opts, rest);
      (rs + more, left)
  }

  /** What is left to report from character sp of argument optind on. */
  function Pending(opts: string, argv: seq<string>, optind: nat, sp: nat): (seq<Result>, seq<string>)
    requires sp == 1 || (optind < |argv| && sp <= |argv[optind]|)
  {
    if optind >= |argv| then ([], [])
    else if sp == 1 then Scan(opts, argv[optind..])
    else
      var (rs, rest) := Cluster(opts, argv[optind][sp..], argv[optind + 1..]);
      var (more, left) := Scan(opts, rest);
      (rs + more, left)
  }

  /** Entering an argument's cluster is scanning it from its second character. */
  lemma EnterCluster(opts: string, argv: seq<string>, optind: nat)
    requires optind < |argv| && IsOption(argv[optind]) && argv[optind] != "--"
    ensures var (rs, rest) := Cluster(opts, argv[optind][1..], argv[optind + 1..]);
            var (more, left) := Scan(opts, rest);
            Pending(opts, argv, optind, 1) == (rs + more, left)
  {
    assert argv[optind..][0] == argv[optind] && argv[optind..][1..] == argv[optind + 1..];
  }

  /** One character of a cluster that takes no argument, reported and passed over. */
  lemma PassCharacter(opts: string, argv: seq<string>, optind: nat, sp: nat)
    requires optind < |argv| && 1 <= sp < |argv[optind]| && KindOf(opts, argv[optind][sp]) != WithArg
    requires sp == 1 ==> IsOption(argv[optind]) && argv[optind] != "--"
    ensures var c := argv[optind][sp];
            var r := if KindOf(opts, c) == Plain then Opt(c, None) else Bad(c);
            var here := Pending(opts, argv, optind, sp);
            && (sp + 1 < |argv[optind]| ==> here == Prepend(r, Pending(opts, argv, optind, sp + 1)))
            && (sp + 1 == |argv[optind]| ==> here == Prepend(r, Pending(opts, argv, optind + 1, 1)))
  {
    if sp == 1 { EnterCluster(opts, argv, optind); }
    var s := argv[optind][sp..];
    assert s[0] == argv[optind][sp] && s[1..] == argv[optind][sp + 1..];
    var (rs, rest) := Cluster(opts, s[1..], argv[optind + 1..]);
    var (more, left) := Scan(opts, rest);
    var r := if KindOf(opts, s[0]) == Plain then Opt(s[0], None) else Bad(s[0]);
    assert [r] + rs + more == [r] + (rs + more);
    if sp + 1 == |argv[optind]| { assert rs + more == more; }
  }

  function Prepend(r: Result, p: (seq<Result>, seq<string>)): (seq<Result>, seq<string>) { ([r] + p.0, p.1) }

  /** A character that takes an argument ends its cluster. */
  lemma TakeArgument(opts: string, argv: seq<string>, optind: nat, sp: nat)
    requires optind < |argv| && 1 <= sp < |argv[optind]| && KindOf(opts, argv[optind][sp]) == WithArg
    requires sp == 1 ==> IsOption(argv[optind]) && argv[optind] != "--"
    ensures var c := argv[optind][sp];
            var here := Pending(opts, argv, optind, sp);
            && (sp + 1 < |argv[optind]| ==>
                  here == Prepend(Opt(c, Some(argv[optind][sp + 1..])), Pending(opts, argv, optind + 1, 1)))
            && (sp + 1 == |argv[optind]| && optind + 1 == |argv| ==> here == ([Bad(c)], []))
            && (sp + 1 == |argv[optind]| && optind + 1 < |argv| ==>
                  here == Prepend(Opt(c, Some(argv[optind + 1])), Pending(opts, argv, optind + 2, 1)))
  {
    if sp == 1 { EnterCluster(opts, argv, optind); }
    var s := argv[optind][sp..];
    assert s[0] == argv[optind][sp] && s[1..] == argv[optind][sp + 1..];
    var more := argv[optind + 1..];
    if more == [] {
      assert [Bad(s[0])] + [] == [Bad(s[0])];
    } else {
      assert more[0] == argv[optind + 1] && more[1..] == argv[optind + 2..];
    }
  }

  // ---------- the resumable scanner ----------

  class Scanner {
    var optind: nat
    var sp: nat
    var optopt: char
    var optarg: Option<string>

    /** sp stays inside the current argument, which is an option's. */
    ghost predicate Valid(argv: seq<string>) reads this {
      && optind >= 1 && sp >= 1
      && (sp == 1 || (optind < |argv| && IsOption(argv[optind]) && argv[optind] != "--" && sp < |argv[optind]|))
    }

    constructor ()
      ensures optind == 1 && sp == 1 && forall argv :: Valid(argv)
    {
      optind, sp, optopt, optarg := 1, 1, '?', None;
    }

    ghost function Left(opts: string, argv: seq<string>): (seq<Result>, seq<string>)
      requires Valid(argv)
      reads this
    {
      Pending(opts, argv, optind, sp)
    }

    /** Characters left in the current argument. */
    ghost function CharsLeft(argv: seq<string>): int
      reads this
    {
      if optind < |argv| then |argv[optind]| - sp else 0
    }

    ghost function ArgsLeft(argv: seq<string>): int reads this { |argv| - optind }

    /** strchr on the option string, and whether the character found is followed by a colon. */
    method Lookup(opts: string, c: char) returns (found: bool, takesArg: bool)
      ensures found <==> KindOf(opts, c) != Unknown
      ensures found ==> (takesArg <==> KindOf(opts, c) == WithArg)
    {
      if c == ':' { return false, false; }
      var i := 0;
      while i < |opts| && opts[i] != c
        invariant i <= |opts| && KindOf(opts, c) == KindOf(opts[i..], c)
      {
        assert opts[i..][1..] == opts[i + 1..];
        i := i + 1;
      }
      if i == |opts| { return false, false; }
      return true, i + 1 < |opts| && opts[i + 1] == ':';
    }

    /** A call moved on: to a later argument or to a later character of the same one. */
    twostate predicate Progress(argv: seq<string>) reads this {
      && old(ArgsLeft(argv)) > 0
      && (ArgsLeft(argv) < old(ArgsLeft(argv))
          || (ArgsLeft(argv) == old(ArgsLeft(argv)) && 0 < CharsLeft(argv) < old(CharsLeft(argv))))
    }

    /** Past a character that takes no argument, and into the next argument after the last one. */
    method PassOne(argv: seq<string>, opts: string)
      requires Valid(argv) && optind < |argv| && IsOption(argv[optind]) && argv[optind] != "--"
      requires KindOf(opts, argv[optind][sp]) != WithArg
      modifies `sp, `optind
      ensures Valid(argv) && Progress(argv)
      ensures var c := argv[old(optind)][old(sp)];
              var r := if KindOf(opts, c) == Plain then Opt(c, None) else Bad(c);
              old(Left(opts, argv)) == Prepend(r, Left(opts, argv))
    {
      PassCharacter(opts, argv, optind, sp);
      sp := sp + 1;
      if sp == |argv[optind]| { optind, sp := optind + 1, 1; }
    }

    /** The rest of the argument, or the next one, is the argument of the option at sp. */
    method TakeOne(argv: seq<string>, opts: string) returns (r: Result)
      requires Valid(argv) && optind < |argv| && IsOption(argv[optind]) && argv[optind] != "--"
      requires KindOf(opts, argv[optind][sp]) == WithArg
      modifies `sp, `optind, `optarg
      ensures Valid(argv) && Progress(argv) && r != Done && r.c == argv[old(optind)][old(sp)]
      ensures old(Left(opts, argv)) == Prepend(r, Left(opts, argv))
      ensures optarg == if r.Opt? then r.arg else old(optarg)
    {
      TakeArgument(opts, argv, optind, sp);
      var c := argv[optind][sp];
      if sp + 1 < |argv[optind]| {
        optarg := Some(argv[optind][sp + 1..]);
        optind := optind + 1;
      } else {
        optind := optind + 1;
        if optind >= |argv| {
          sp := 1;
          return Bad(c);
        }
        optarg := Some(argv[optind]);
        optind := optind + 1;
      }
      sp := 1;
      return Opt(c, optarg);
    }

    /** One call. */
    method Next(argv: seq<string>, opts: string) returns (r: Result)
      requires Valid(argv)
      modifies this
      ensures Valid(argv)
      ensures r != Done ==> old(Left(opts, argv)) == Prepend(r, Left(opts, argv)) && Progress(argv) && optopt == r.c
      ensures r == Done ==> old(Left(opts, argv)) == ([], if optind <= |argv| then argv[optind..] else [])
      ensures optarg == if r.Opt? then r.arg else old(optarg)
    {
      if sp == 1 {
        if optind >= |argv| { return Done; }
        assert argv[optind..][0] == argv[optind] && argv[optind..][1..] == argv[optind + 1..];
        if |argv[optind]| == 0 || argv[optind][0] != '-' || |argv[optind]| == 1 { return Done; }
        if argv[optind] == "--" {
          optind := optind + 1;
          return Done;
        }
      }
      var c := argv[optind][sp];
      optopt := c;
      var found, takesArg := Lookup(opts, c);
      if !found {
        PassOne(argv, opts);
        return Bad(c);
      }
      if takesArg {
        r := TakeOne(argv, opts);
        return;
      }
      PassOne(argv, opts);
      optarg := None;
      return Opt(c, None);
    }

    /** Calling until the end reports exactly what the pure scan of the arguments after the program name finds. */
    method Drain(argv: seq<string>, opts: string) returns (rs: seq<Result>)
      requires optind == 1 && sp == 1 && argv != []
      modifies this
      ensures (rs, if optind <= |argv| then argv[optind..] else []) == Scan(opts, argv[1..])
    {
      rs := [];
      var r := Bad(' ');
      ghost var all := Scan(opts, argv[1..]);
      assert [] + all.0 == all.0 && Left(opts, argv) == all;
      while r != Done
        invariant Valid(argv)
        invariant r != Done ==> (rs + Left(opts, argv).0, Left(opts, argv).1) == all
        invariant r == Done ==> (rs, if optind <= |argv| then argv[optind..] else []) == all
        decreases r != Done, ArgsLeft(argv), CharsLeft(argv)
      {
        ghost var before := Left(opts, argv);
        r := Next(argv, opts);
        if r != Done {
          assert rs + before.0 == rs + [r] + Left(opts, argv).0;
          rs := rs + [r];
        } else {
          assert rs + before.0 == rs;
        }
      }
    }
  }

  // ---------- what the scan means ----------

  /** The arguments left over are a suffix of the arguments given. */
  lemma {:induction false} ClusterLeavesSuffix(opts: string, s: string, more: seq<string>)
    ensures var rest := Cluster(opts, s, more).1;
            rest == more[|more| - |rest|..]
  {
    if s != "" && KindOf(opts, s[0]) != WithArg { ClusterLeavesSuffix(opts, s[1..], more); }
  }

  /** Scanning stops at the first argument that is neither an option nor an option's argument; nothing is skipped. */
  lemma {:induction false} ScanLeavesSuffix(opts: string, args: seq<string>)
    ensures var left := Scan(opts, args).1;
            && |left| <= |args| && left == args[|args| - |left|..]
            && (left != args ==> left == [] || !IsOption(left[0]) || args[|args| - |left| - 1] == "--")
            && (left == args ==> args == [] || !IsOption(args[0]))
    decreases |args|
  {
    if args != [] && IsOption(args[0]) && args[0] != "--" {
      ClusterLeavesSuffix(opts, args[0][1..], args[1..]);
      ScanLeavesSuffix(opts, Cluster(opts, args[0][1..], args[1..]).1);
    }
  }

  /** Splitting a letter that takes no argument off its cluster changes nothing, unless what remains is `--`. */
  lemma SplitCluster(opts: string, c: char, s: string, more: seq<string>)
    requires KindOf(opts, c) != WithArg && s != "" && s != "-" && c != '-'
    ensures Scan(opts, ["-" + [c] + s] + more) == Scan(opts, ["-" + [c], "-" + s] + more)
  {
    var whole, parts := ["-" + [c] + s] + more, ["-" + [c], "-" + s] + more;
    assert whole[0][1..] == [c] + s && whole[1..] == more;
    assert parts[0][1..] == [c] && parts[1..] == ["-" + s] + more;
    var tail := ["-" + s] + more;
    assert tail[0][1..] == s && tail[1..] == more;
    assert ([c] + s)[1..] == s;
    assert [c][1..] == "";
    var (rs, rest) := Cluster(opts, s, more);
    var r := if KindOf(opts, c) == Plain then Opt(c, None) else Bad(c);
    assert Cluster(opts, [c] + s, more) == ([r] + rs, rest);
    assert Cluster(opts, "", tail) == ([], tail) && [r] + [] == [r];
    assert Cluster(opts, [c], tail) == ([r], tail);
    assert ([r] + rs) + Scan(opts, rest).0 == [r] + (rs + Scan(opts, rest).0);
  }

  // ---------- the option string, and reading back what was written ----------

  /** A letter whose first place is i takes an argument exactly when a colon follows there. */
  lemma {:induction false} KindAt(opts: string, c: char, i: nat)
    requires c != ':' && i < |opts| && opts[i] == c && forall j :: 0 <= j < i ==> opts[j] != c
    ensures KindOf(opts, c) == if i + 1 < |opts| && opts[i + 1] == ':' then WithArg else Plain
  {
    if i > 0 { KindAt(opts[1..], c, i - 1); }
  }

  /** Only letters of the option string are options, and the colon never is. */
  lemma {:induction false} KindIs(opts: string, c: char)
    ensures KindOf(opts, c) == Unknown <==> c == ':' || c !in opts
  {
    if c != ':' && opts != "" { KindIs(opts[1..], c); }
  }

  /** An option as written: a letter and its argument, in the same slot or in the next one. */
  datatype Written = Flag(c: char) | Attached(c: char, arg: string) | Apart(c: char, arg: string)

  /** The letter is of the right kind, and attached arguments are not empty. */
  predicate Proper(opts: string, w: Written) {
    && w.c != '-'
    && match w
       case Flag(c) => KindOf(opts, c) == Plain
       case Attached(c, arg) => KindOf(opts, c) == WithArg && arg != ""
       case Apart(c, arg) => KindOf(opts, c) == WithArg
  }

  function Slots(w: Written): seq<string> {
    match w
    case Flag(c) => ["-" + [c]]
    case Attached(c, arg) => ["-" + [c] + arg]
    case Apart(c, arg) => ["-" + [c], arg]
  }

  function Meaning(w: Written): Result {
    match w
    case Flag(c) => Opt(c, None)
    case Attached(c, arg) => Opt(c, Some(arg))
    case Apart(c, arg) => Opt(c, Some(arg))
  }

  function AllSlots(ws: seq<Written>): seq<string> { if ws == [] then [] else Slots(ws[0]) + AllSlots(ws[1..]) }

  function Meanings(ws: seq<Written>): seq<Result> { if ws == [] then [] else [Meaning(ws[0])] + Meanings(ws[1..]) }

  lemma OneIsRead(opts: string, w: Written, more: seq<string>)
    requires Proper(opts, w)
    ensures var (rs, left) := Scan(opts, more);
            Scan(opts, Slots(w) + more) == ([Meaning(w)] + rs, left)
  {
    var args := Slots(w) + more;
    var c := w.c;
    assert args[0][0] == '-' && args[0][1] == c && args[0] != "--";
    match w
    case Flag(_) =>
      assert args[0][1..] == [c] && args[1..] == more && [c][1..] == "";
      assert Cluster(opts, "", more) == ([], more) && [Opt(c, None)] + [] == [Opt(c, None)];
    case Attached(_, arg) =>
      assert args[0][1..] == [c] + arg && args[1..] == more && ([c] + arg)[1..] == arg;
    case Apart(_, arg) =>
      assert args[0][1..] == [c] && args[1..] == [arg] + more && ([arg] + more)[1..] == more;
  }

  /** Whatever options are written, in any form and order, are read back in order, up to `--` or the first operand. */
  lemma {:induction false} WrittenIsRead(opts: string, ws: seq<Written>, more: seq<string>)
    requires forall k :: 0 <= k < |ws| ==> Proper(opts, ws[k])
    ensures var (rs, left) := Scan(opts, more);
            Scan(opts, AllSlots(ws) + more) == (Meanings(ws) + rs, left)
    ensures Scan(opts, AllSlots(ws) + ["--"] + more) == (Meanings(ws), more)
    ensures more == [] || !IsOption(more[0]) ==> Scan(opts, AllSlots(ws) + more) == (Meanings(ws), more)
  {
    WrittenBefore(opts, ws, more);
    WrittenBefore(opts, ws, ["--"] + more);
    assert Scan(opts, ["--"] + more) == ([], more) by { assert (["--"] + more)[1..] == more; }
    assert AllSlots(ws) + ["--"] + more == AllSlots(ws) + (["--"] + more);
    assert Meanings(ws) + [] == Meanings(ws);
  }

  lemma Associate<T>(a: seq<T>, b: seq<T>, c: seq<T>)
    ensures a + b + c == a + (b + c)
  {
  }

  lemma {:induction false} WrittenBefore(opts: string, ws: seq<Written>, more: seq<string>)
    requires forall k :: 0 <= k < |ws| ==> Proper(opts, ws[k])
    ensures var (rs, left) := Scan(opts, more);
            Scan(opts, AllSlots(ws) + more) == (Meanings(ws) + rs, left)
  {
    if ws == [] {
      assert AllSlots(ws) + more == more && Meanings(ws) + Scan(opts, more).0 == Scan(opts, more).0;
    } else {
      hide Scan, Slots, Meaning, Proper;
      WrittenBefore(opts, ws[1..], more);
      OneIsRead(opts, ws[0], AllSlots(ws[1..]) + more);
      Associate(Slots(ws[0]), AllSlots(ws[1..]), more);
      Associate([Meaning(ws[0])], Meanings(ws[1..]), Scan(opts, more).0);
    }
  }

  /** A letter that is no option is reported, and an argument that is missing at the end of the line. */
  lemma ErrorsAreReported(opts: string, c: char, more: seq<string>)
    requires c != '-'
    ensures KindOf(opts, c) == Unknown ==>
              Scan(opts, ["-" + [c]] + more) == ([Bad(c)] + Scan(opts, more).0, Scan(opts, more).1)
    ensures KindOf(opts, c) == WithArg ==> Scan(opts, ["-" + [c]]) == ([Bad(c)], [])
  {
    var args := ["-" + [c]] + more;
    assert args[0][1..] == [c] && args[1..] == more && [c][1..] == "" && args[0] != "--";
    assert Cluster(opts, "", more) == ([], more) && [Bad(c)] + [] == [Bad(c)];
    var one := ["-" + [c]];
    assert one[0][1..] == [c] && one[1..] == [] && one[0] != "--";
  }

  /** A lone dash and anything without a dash in front are operands: scanning stops there. */
  lemma OperandStops(opts: string, w: string, more: seq<string>)
    requires |w| < 2 || w[0] != '-'
    ensures Scan(opts, [w] + more) == ([], [w] + more)
  {
    assert ([w] + more)[0] == w;
  }
}

/** Which entry of the options table an option on the command line stands for, and what every piece of the line is. */
module OptionNames {
  import opened Common
  import opened CommandLine

  /** The text up to its first colon or its end. */
  function Stem(text: string): (r: string)
    ensures r <= text && ':' !in r && (r == text || text[|r|] == ':')
  {
    if text == "" || text[0] == ':' then ""
    else
      var rest := Stem(text[1..]);
      assert [text[0]] + rest <= text;
      [text[0]] + rest
  }

  /** The name an option text asks for: without one leading slash, up to its first colon or its end. */
  function NameOf(text: string): string { Stem(if text != "" && text[0] == '/' then text[1..] else text) }

  /** No name in the table holds a colon. */
  ghost predicate Plain(options: seq<OptionDef>) {
    forall i :: 0 <= i < |options| ==> ':' !in options[i].name
  }

  /** def is the first entry of the table that has the name. */
  ghost predicate FirstNamed(options: seq<OptionDef>, name: string, def: OptionDef) {
    exists i :: 0 <= i < |options| && options[i] == def && def.name == name
                && forall j :: 0 <= j < i ==> options[j].name != name
  }

  ghost predicate Unnamed(options: seq<OptionDef>, name: string) {
    forall i :: 0 <= i < |options| ==> options[i].name != name
  }

  /** A colon-free prefix of a text reaches at most to the text's first colon. */
  lemma UpToColon(s: string, name: string, text: string)
    requires s <= text && ':' !in s && name <= text && (|name| == |text| || text[|name|] == ':')
    ensures |s| <= |name|
  {
    forall k | 0 <= k < |s| ensures text[k] != ':' { assert s[k] in s; }
  }

  /** A colon-free name is a prefix that ends at a colon or the end exactly when it is the stem. */
  lemma StemIff(name: string, text: string)
    requires ':' !in name
    ensures name == Stem(text) <==> name <= text && (|name| == |text| || text[|name|] == ':')
  {
    var s := Stem(text);
    if name <= text && (|name| == |text| || text[|name|] == ':') {
      UpToColon(s, name, text);
      UpToColon(name, s, text);
    }
  }

  lemma {:induction false} FindFromIs(options: seq<OptionDef>, text: string)
    requires Plain(options)
    ensures var r := FindFrom(options, text);
            if r.None? then Unnamed(options, Stem(text)) else FirstNamed(options, Stem(text), r.value)
  {
    if options != [] {
      StemIff(options[0].name, text);
      if options[0].name != Stem(text) {
        var rest := options[1..];
        assert forall i :: 0 <= i < |rest| ==> rest[i] == options[i + 1];
        FindFromIs(rest, text);
        assert FindFrom(options, text) == FindFrom(rest, text);
        if FindFrom(rest, text).Some? {
          var i :| 0 <= i < |rest| && rest[i] == FindFrom(rest, text).value && rest[i].name == Stem(text)
                   && forall j :: 0 <= j < i ==> rest[j].name != Stem(text);
          assert options[i + 1] == rest[i];
          forall j | 0 <= j < i + 1 ensures options[j].name != Stem(text) {
            if j > 0 { assert rest[j - 1] == options[j]; }
          }
        } else {
          forall i | 0 <= i < |options| ensures options[i].name != Stem(text) {
            if i > 0 { assert rest[i - 1] == options[i]; }
          }
        }
      } else {
        assert FindFrom(options, text) == Some(options[0]);
      }
    }
  }

  /** The table search returns the first entry that has the name asked for, and nothing exactly when no entry has it. */
  lemma FindOptionIs(options: seq<OptionDef>, text: string)
    requires Plain(options)
    ensures FindOption(options, text).None? <==> Unnamed(options, NameOf(text))
    ensures FindOption(options, text).Some? ==> FirstNamed(options, NameOf(text), FindOption(options, text).value)
  {
    FindFromIs(options, if text != "" && text[0] == '/' then text[1..] else text);
  }

  // ---------- what a piece is ----------

  /** An option with this entry is followed by an argument of its own. */
  predicate WantsArgument(def: OptionDef) { def.optType == Valued || (def.optType == Func && def.takesArg) }

  /** The first separator called `name`. */
  ghost predicate FirstSeparator(separators: seq<Option<string>>, name: string, k: nat) {
    k < |separators| && separators[k] == Some(name) && forall j :: 0 <= j < k ==> separators[j] != Some(name)
  }

  /** Neither a separator nor an entry of the table goes by the option text. */
  ghost predicate Unclaimed(su: Setup, key: string) {
    Some(key) !in su.separators && Unnamed(su.options, NameOf(key))
  }

  predicate IsDashed(text: string) { |text| >= 2 && text[0] == '-' && text != "--" }

  /** What the splitter takes each piece for, in terms of the tables and the text of its slots. */
  ghost predicate Reads(su: Setup, argv: seq<string>, it: Item, after: bool) {
    && it.pos < |argv|
    && if it.what.Marker? then argv[it.pos] == "--" && it.width == 1
       else if it.what.Positional? then argv[it.pos] != "--" && (!IsDashed(argv[it.pos]) || after) && it.width == 1
       else IsDashed(argv[it.pos]) && !after && OptionReads(su, argv, it, argv[it.pos][1..])
  }

  ghost predicate OptionReads(su: Setup, argv: seq<string>, it: Item, key: string) {
    match it.what
    case Separator(k) => FirstSeparator(su.separators, key, k) && it.width == 2 && it.pos + 1 < |argv|
    case Known(def) =>
      && Some(key) !in su.separators && FirstNamed(su.options, NameOf(key), def)
      && it.width == (if def.exits || WantsArgument(def) then 2 else 1)
      && (WantsArgument(def) && !def.exits ==> it.pos + 1 < |argv|)
    case Library =>
      && Unclaimed(su, key) && it.width == 2 && it.pos + 1 < |argv|
      && su.libraryOption(key, argv[it.pos + 1]) == Consumed
    case Negated(def) =>
      && Unclaimed(su, key) && "no" <= key && it.width == 1
      && FirstNamed(su.options, NameOf(key[2..]), def) && def.optType == Bool
      && (it.pos + 1 < |argv| ==> su.libraryOption(key, argv[it.pos + 1]) == NotFound)
    case _ => false
  }

  lemma SeparatorIs(su: Setup, key: string)
    ensures var r := FindSeparator(su.separators, key, 0);
            && (r.None? <==> Some(key) !in su.separators)
            && (r.Some? ==> FirstSeparator(su.separators, key, r.value))
  {
    SeparatorFound(su.separators, key, 0);
  }

  lemma OptionPieceReads(su: Setup, argv: seq<string>, i: nat, key: string)
    requires Plain(su.options) && i < |argv| && IsDashed(argv[i]) && key == argv[i][1..]
    requires Classify(su, argv, i, false).Some?
    ensures OptionReads(su, argv, Classify(su, argv, i, false).value, key)
  {
    hide FirstNamed, Unnamed, FirstSeparator, Plain, FindOption, FindSeparator, NameOf;
    SeparatorIs(su, key);
    FindOptionIs(su.options, key);
    if "no" <= key { FindOptionIs(su.options, key[2..]); }
  }

  /** Every piece is what the tables say. */
  lemma PieceReads(su: Setup, argv: seq<string>, i: nat, after: bool)
    requires Plain(su.options) && i < |argv| && Classify(su, argv, i, after).Some?
    ensures Classify(su, argv, i, after).value.pos == i
    ensures Reads(su, argv, Classify(su, argv, i, after).value, after)
  {
    if IsDashed(argv[i]) && !after {
      OptionPieceReads(su, argv, i, argv[i][1..]);
      PieceIsHere(su, argv, i, after);
      hide Classify, OptionReads;
      OptionPieceKind(su, argv, i);
    }
  }

  lemma OptionPieceKind(su: Setup, argv: seq<string>, i: nat)
    requires i < |argv| && IsDashed(argv[i]) && Classify(su, argv, i, false).Some?
    ensures var w := Classify(su, argv, i, false).value.what;
            !w.Marker? && !w.Positional?
  {
  }

  lemma FirstIsOne(options: seq<OptionDef>, name: string, a: OptionDef, b: OptionDef)
    requires FirstNamed(options, name, a) && FirstNamed(options, name, b)
    ensures a == b && !Unnamed(options, name)
  {
  }

  /** The first entry with the name is a flag. */
  ghost predicate NamesFlag(options: seq<OptionDef>, name: string) {
    exists def :: FirstNamed(options, name, def) && def.optType == Bool
  }

  /** The first entry with the name takes an argument and does not exit. */
  ghost predicate NamesTaker(options: seq<OptionDef>, name: string) {
    exists def :: FirstNamed(options, name, def) && WantsArgument(def) && !def.exits
  }

  /** An option text that is refused, in terms of the tables; `arg` is the slot behind it. */
  ghost predicate Refused(su: Setup, key: string, arg: Option<string>) {
    if Some(key) in su.separators then arg.None?
    else if !Unnamed(su.options, NameOf(key)) then arg.None? && NamesTaker(su.options, NameOf(key))
    else
      || (arg.Some? && su.libraryOption(key, arg.value) == Rejected)
      || ((arg.None? || su.libraryOption(key, arg.value) == NotFound)
          && !("no" <= key && NamesFlag(su.options, NameOf(key[2..]))))
  }

  /** What the searches find says what the tables name. */
  lemma FoundSays(options: seq<OptionDef>, text: string)
    requires Plain(options)
    ensures var r := FindOption(options, text);
            && (r.None? <==> Unnamed(options, NameOf(text)))
            && (NamesFlag(options, NameOf(text)) <==> r.Some? && r.value.optType == Bool)
            && (NamesTaker(options, NameOf(text)) <==> r.Some? && WantsArgument(r.value) && !r.value.exits)
  {
    EntryIs(options, text);
  }

  /** A piece is refused exactly for want of an argument, a bad library option, or an option nobody knows. */
  lemma RefusedIff(su: Setup, argv: seq<string>, i: nat, after: bool)
    requires Plain(su.options) && i < |argv|
    ensures Classify(su, argv, i, after).None?
            <==> IsDashed(argv[i]) && !after && Refused(su, argv[i][1..], Slot(argv, i + 1))
  {
    hide FirstNamed, Unnamed, FirstSeparator, Plain, FindOption, FindSeparator, NameOf, NamesFlag, NamesTaker;
    if IsDashed(argv[i]) && !after {
      var key := argv[i][1..];
      SeparatorIs(su, key);
      FoundSays(su.options, key);
      if "no" <= key { FoundSays(su.options, key[2..]); }
    }
  }

  /** What the locator takes a slot for: the entry it names, the entry it negates, or its own text. */
  lemma MatchesIff(su: Setup, argv: seq<string>, i: nat, name: string)
    requires Plain(su.options) && i < |argv| && Dashed(argv[i])
    ensures var key := argv[i][1..];
            Matches(su, argv, i, name)
            <==> if !Unnamed(su.options, NameOf(key)) then name == NameOf(key)
                 else if "no" <= key && !Unnamed(su.options, NameOf(key[2..])) then name == NameOf(key[2..])
                 else name == key
  {
    var key := argv[i][1..];
    FindOptionIs(su.options, key);
    if "no" <= key { FindOptionIs(su.options, key[2..]); }
  }

  /** The locator skips the slot behind an option that takes an argument, and behind one nobody knows. */
  lemma StrideIff(su: Setup, argv: seq<string>, i: nat)
    requires Plain(su.options) && i < |argv| && Dashed(argv[i])
    ensures var key := argv[i][1..];
            Stride(su, argv, i) == 2
            <==> if !Unnamed(su.options, NameOf(key)) then
                   exists def :: FirstNamed(su.options, NameOf(key), def) && WantsArgument(def)
                 else if "no" <= key && !Unnamed(su.options, NameOf(key[2..])) then
                   exists def :: FirstNamed(su.options, NameOf(key[2..]), def) && WantsArgument(def)
                 else true
  {
    hide FirstNamed, Unnamed, FindOption, NameOf;
    var key := argv[i][1..];
    EntryIs(su.options, key);
    if "no" <= key { EntryIs(su.options, key[2..]); }
  }

  lemma EntryIs(options: seq<OptionDef>, text: string)
    requires Plain(options)
    ensures var r := FindOption(options, text);
            && (r.None? <==> Unnamed(options, NameOf(text)))
            && forall def :: FirstNamed(options, NameOf(text), def) <==> r == Some(def)
  {
    FindOptionIs(options, text);
    var r := FindOption(options, text);
    forall def | FirstNamed(options, NameOf(text), def) ensures r == Some(def) {
      FirstIsOne(options, NameOf(text), def, def);
      FirstIsOne(options, NameOf(text), def, r.value);
    }
  }

  /** Whether piece m comes right after a marker. */
  predicate Behind(its: seq<Item>, m: nat, after: bool)
    requires m < |its|
  {
    if m == 0 then after else its[m - 1].what.Marker?
  }

  /** The pieces of an accepted command line, each read in the light of the one before it. */
  lemma {:induction false} AllRead(su: Setup, argv: seq<string>, i: nat, after: bool)
    requires Plain(su.options) && Split(su, argv, i, after).Some?
    ensures var its := Split(su, argv, i, after).value;
            forall m :: 0 <= m < |its| ==> Reads(su, argv, its[m], Behind(its, m, after))
    decreases |argv| - i
  {
    hide Classify, Reads;
    if i < |argv| {
      var its := Split(su, argv, i, after).value;
      SplitStarts(su, argv, i, after);
      PieceReads(su, argv, i, after);
      PieceIsHere(su, argv, i, after);
      AllRead(su, argv, i + its[0].width, its[0].what.Marker?);
      var rest := its[1..];
      forall m | 0 <= m < |its| ensures Reads(su, argv, its[m], Behind(its, m, after)) {
        if m > 0 { assert Reads(su, argv, rest[m - 1], Behind(rest, m - 1, its[0].what.Marker?)); }
      }
    }
  }
}

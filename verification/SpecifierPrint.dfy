/** The canonical text of a stream specifier, and what parsing guarantees about every specifier it returns. */
module SpecifierPrint {
  import opened Common
  import opened SpecifierMatch
  import opened SpecifierParse

  // ---------- every parsed specifier ----------

  /** The parts that end a specifier. */
  function Enders(ss: Specifier): nat {
    (if ss.idx != -1 then 1 else 0) + (if ss.list.StreamId? then 1 else 0)
    + (if ss.metaKey.Some? then 1 else 0) + (if ss.usableOnly then 1 else 0)
  }

  /** At most one ender; a value only with a key; attached pictures only excluded from video. */
  predicate WellFormed(ss: Specifier) {
    && Enders(ss) <= 1 && (ss.metaVal.Some? ==> ss.metaKey.Some?) && (ss.noApic ==> ss.mediaType.Video?)
    && (ss.list.All? ==> ss.listId == 0)
  }

  lemma ComponentWellFormed(eval: Eval, ss: Specifier, s: string)
    requires s != "" && WellFormed(ss) && Enders(ss) == 0 && ss.remainder.None?
    ensures match Component(eval, ss, s)
            case Error => true
            case Stop(t, _) => WellFormed(t) && t.remainder.None?
            case More(t, _) => WellFormed(t) && Enders(t) == 0 && t.remainder.None?
  {
  }

  lemma {:induction false} ComponentsWellFormed(eval: Eval, ss: Specifier, s: string)
    requires WellFormed(ss) && Enders(ss) == 0 && ss.remainder.None?
    ensures !Components(eval, ss, s).More?
    ensures Components(eval, ss, s).Stop? ==> WellFormed(Components(eval, ss, s).ss)
    decreases |s|
  {
    if s != "" {
      ComponentShrinks(eval, ss, s);
      ComponentWellFormed(eval, ss, s);
      var o := Component(eval, ss, s);
      if o.More? { ComponentsWellFormed(eval, o.ss, SkipColon(o.rest)); }
    }
  }

  /** No parse yields a stream-ID list together with an index, or any other two enders. */
  lemma ParsedIsWellFormed(eval: Eval, s: string, allowRemainder: bool)
    requires Parse(eval, s, allowRemainder).Some?
    ensures WellFormed(Parse(eval, s, allowRemainder).value)
    ensures var ss := Parse(eval, s, allowRemainder).value; ss.list.StreamId? ==> ss.idx == -1
  {
    ComponentsWellFormed(eval, DEFAULT, s);
  }

  // ---------- printing ----------

  function Digit(n: nat): char
    requires n < 10
  {
    (n + '0' as int) as char
  }

  function Decimal(n: nat): string {
    if n < 10 then [Digit(n)] else Decimal(n / 10) + [Digit(n % 10)]
  }

  function Number(i: int): string { if i < 0 then "-" + Decimal(-i) else Decimal(i) }

  function TypePart(ss: Specifier): seq<string> {
    match ss.mediaType
    case Unknown => []
    case Video => [if ss.noApic then "V" else "v"]
    case Audio => ["a"]
    case Subtitle => ["s"]
    case Data => ["d"]
    case Attachment => ["t"]
  }

  function ListPart(ss: Specifier): seq<string> {
    match ss.list
    case Program => ["p:" + Number(ss.listId)]
    case GroupId => ["g:#" + Number(ss.listId)]
    case GroupIdx => ["g:" + Number(ss.listId)]
    case _ => []
  }

  function DispositionPart(ss: Specifier, name: string): seq<string> {
    if ss.disposition == {} then [] else ["disp:" + name]
  }

  function EndPart(ss: Specifier): seq<string> {
    if ss.idx >= 0 then [Decimal(ss.idx)]
    else if ss.list.StreamId? then ["#" + Number(ss.listId)]
    else if ss.metaKey.Some? then
      ["m:" + ss.metaKey.value + if ss.metaVal.Some? then ":" + ss.metaVal.value else ""]
    else if ss.usableOnly then ["u"]
    else []
  }

  function Join(parts: seq<string>): string {
    if parts == [] then "" else if |parts| == 1 then parts[0] else parts[0] + ":" + Join(parts[1..])
  }

  /** Type, list, dispositions, ender, separated by colons; `name` spells the dispositions. */
  function Print(ss: Specifier, name: string): string {
    Join(TypePart(ss) + ListPart(ss) + DispositionPart(ss, name) + EndPart(ss))
  }

  /** A metadata token that needs no quoting. */
  predicate PlainToken(t: string) {
    forall i :: 0 <= i < |t| ==> t[i] != ':' && t[i] != '\\' && t[i] != '\'' && !IsBlank(t[i])
  }

  /** What a specifier can be, numbers within their C types; `name` spells its dispositions. */
  ghost predicate Printable(eval: Eval, ss: Specifier, name: string) {
    && WellFormed(ss) && ss.remainder.None?
    && -1 <= ss.idx < 0x8000_0000 && LONG_MIN <= ss.listId <= LONG_MAX
    && (ss.metaKey.Some? ==> PlainToken(ss.metaKey.value)) && (ss.metaVal.Some? ==> PlainToken(ss.metaVal.value))
    && (ss.disposition != {} ==>
          eval(name) == Some(ss.disposition) && forall i :: 0 <= i < |name| ==> DispositionChar(name[i]))
  }

  /** The end of the text or a colon. */
  predicate Ends(r: string) { r == "" || r[0] == ':' }

  // ---------- reading back ----------

  lemma {:induction false} DecimalReads(n: nat)
    ensures var d := Decimal(n);
            && d != "" && (forall i :: 0 <= i < |d| ==> IsDigit(d[i])) && ValueOf(d, 10) == n
            && (n > 0 ==> d[0] != '0') && (n == 0 ==> d == "0")
  {
    if n >= 10 {
      DecimalReads(n / 10);
      assert Decimal(n)[..|Decimal(n)| - 1] == Decimal(n / 10);
    } else {
      assert [Digit(n)][..0] == "";
    }
  }

  lemma {:induction false} CountDigitsOf(d: string, r: string, b: nat)
    requires 10 <= b <= 36 || (b == 8 && d == "0")
    requires (forall i :: 0 <= i < |d| ==> IsDigit(d[i])) && Ends(r)
    ensures CountDigits(d + r, b) == |d|
  {
    if d == "" {
      assert d + r == r;
      if r != "" { assert DigitOf(':') == 36; }
    } else {
      assert (d + r)[1..] == d[1..] + r;
      if |d| == 1 {
        assert d[1..] + r == r;
        if r != "" { assert DigitOf(':') == 36; }
      } else {
        CountDigitsOf(d[1..], r, b);
      }
    }
  }

  lemma DigitsStrtol(d: string, n: nat, r: string)
    requires d != "" && (forall i :: 0 <= i < |d| ==> IsDigit(d[i])) && ValueOf(d, 10) == n && Ends(r)
    requires n <= LONG_MAX && (d[0] != '0' || (d == "0" && n == 0))
    ensures Strtol(d + r) == (n, |d|)
  {
    var s := d + r;
    assert s[0] == d[0] && !IsSpace(s[0]);
    assert s[0..] == s && s[0..|d|] == d;
    if d[0] == '0' {
      CountDigitsOf(d, r, 8);
      assert ValueOf("0", 8) == 0 by { assert "0"[..0] == ""; }
    } else {
      CountDigitsOf(d, r, 10);
    }
  }

  /** What follows the sign, n digits of which are read with base 10. */
  lemma AfterMinus(s: string, n: nat)
    requires |s| > 1 && s[0] == '-' && s[1] != '0' && n == CountDigits(s[1..], 10) > 0
    ensures Strtol(s) == (Clamp(-(ValueOf(s[1..1 + n], 10) as int)), 1 + n)
  {
    hide ValueOf, CountDigits;
    assert CountSpaces(s) == 0 && BaseOf(s[1..]) == (10, 0);
  }

  lemma MinusSign(d: string, r: string)
    requires d != ""
    ensures var s := "-" + d + r;
            s[0] == '-' && s[1..] == d + r && s[1] == d[0] && s[1..1 + |d|] == d
  {
  }

  lemma MinusDigits(s: string, d: string, n: int, r: string)
    requires d != "" && CountDigits(d + r, 10) == |d| && ValueOf(d, 10) == n
    requires 0 < n <= -LONG_MIN && d[0] != '0'
    requires |s| > |d| && s[0] == '-' && s[1..] == d + r && s[1] == d[0] && s[1..1 + |d|] == d
    ensures Strtol(s) == (-n, 1 + |d|)
  {
    hide Strtol, CountDigits, ValueOf;
    AfterMinus(s, |d|);
  }

  lemma MinusStrtol(d: string, n: int, r: string)
    requires d != "" && (forall i :: 0 <= i < |d| ==> IsDigit(d[i])) && ValueOf(d, 10) == n && Ends(r)
    requires 0 < n <= -LONG_MIN && d[0] != '0'
    ensures Strtol("-" + d + r) == (-n, 1 + |d|)
  {
    hide Strtol, CountDigits, ValueOf;
    CountDigitsOf(d, r, 10);
    MinusSign(d, r);
    MinusDigits("-" + d + r, d, n, r);
  }

  lemma NumberStrtol(i: int, r: string)
    requires LONG_MIN <= i <= LONG_MAX && Ends(r)
    ensures Strtol(Number(i) + r) == (i, |Number(i)|) && |Number(i)| > 0
    ensures (Number(i) + r)[0] == '-' || IsDigit((Number(i) + r)[0])
  {
    if i < 0 {
      DecimalReads(-i);
      MinusStrtol(Decimal(-i), -i, r);
    } else {
      DecimalReads(i);
      DigitsStrtol(Decimal(i), i, r);
    }
  }

  lemma ListNumberReads(ss: Specifier, list: StreamList, i: int, r: string)
    requires LONG_MIN <= i <= LONG_MAX && Ends(r) && ss.list.All?
    ensures ListNumber(ss, list, Number(i) + r) == More(ss.(list := list, listId := i), r)
  {
    NumberStrtol(i, r);
    assert (Number(i) + r)[|Number(i)|..] == r;
  }

  lemma TypeReads(eval: Eval, acc: Specifier, ss: Specifier, r: string)
    requires ss.mediaType != Unknown && acc.mediaType.Unknown? && Ends(r) && (ss.noApic ==> ss.mediaType.Video?)
    ensures Component(eval, acc, TypePart(ss)[0] + r) == More(acc.(mediaType := ss.mediaType, noApic := ss.noApic), r)
  {
    var p := TypePart(ss)[0];
    assert |p| == 1 && (p + r)[0] == p[0] && (p + r)[1..] == r;
  }

  lemma ProgramReads(eval: Eval, acc: Specifier, s: string)
    requires |s| >= 2 && s[0] == 'p' && s[1] == ':'
    ensures Component(eval, acc, s) == ListNumber(acc, Program, s[2..])
  {
    hide ListNumber, Metadata, Disposition, Strtol;
  }

  lemma GroupIdReads(eval: Eval, acc: Specifier, s: string)
    requires |s| >= 3 && s[0] == 'g' && s[1] == ':' && s[2] == '#'
    ensures Component(eval, acc, s) == ListNumber(acc, GroupId, s[3..])
  {
    hide ListNumber, Metadata, Disposition, Strtol;
    assert s[2..][1..] == s[3..] && "g:" <= s && "#" <= s[2..];
  }

  lemma GroupIdxReads(eval: Eval, acc: Specifier, s: string)
    requires |s| >= 3 && s[0] == 'g' && s[1] == ':' && s[2] != '#' && s[2] != 'i'
    ensures Component(eval, acc, s) == ListNumber(acc, GroupIdx, s[2..])
  {
    hide ListNumber, Metadata, Disposition, Strtol;
    assert "g:" <= s;
  }

  lemma ListReads(eval: Eval, acc: Specifier, ss: Specifier, r: string)
    requires ListPart(ss) != [] && acc.list.All? && Ends(r) && LONG_MIN <= ss.listId <= LONG_MAX
    ensures Component(eval, acc, ListPart(ss)[0] + r) == More(acc.(list := ss.list, listId := ss.listId), r)
  {
    hide Component, Strtol, Number;
    var i := Number(ss.listId);
    var s := ListPart(ss)[0] + r;
    NumberStrtol(ss.listId, r);
    ListNumberReads(acc, ss.list, ss.listId, r);
    if ss.list.Program? {
      assert s[2..] == i + r;
      ProgramReads(eval, acc, s);
    } else if ss.list.GroupId? {
      assert s[3..] == i + r;
      GroupIdReads(eval, acc, s);
    } else {
      assert s[2..] == i + r && s[2] == (i + r)[0];
      GroupIdxReads(eval, acc, s);
    }
  }

  lemma {:induction false} CountDispositionOf(name: string, r: string)
    requires (forall i :: 0 <= i < |name| ==> DispositionChar(name[i])) && Ends(r)
    ensures CountDisposition(name + r) == |name|
  {
    if name == "" {
      assert name + r == r;
    } else {
      assert (name + r)[1..] == name[1..] + r;
      CountDispositionOf(name[1..], r);
    }
  }

  lemma DispositionReads(eval: Eval, acc: Specifier, ss: Specifier, name: string, r: string)
    requires ss.disposition != {} && acc.disposition == {} && Ends(r) && Printable(eval, ss, name)
    ensures Component(eval, acc, "disp:" + name + r) == More(acc.(disposition := ss.disposition), r)
  {
    var s := "disp:" + name + r;
    assert s[0] == 'd' && s[1] == 'i' && s[5..] == name + r && "disp:" <= s;
    CountDispositionOf(name, r);
    assert (name + r)[..|name|] == name && (name + r)[|name|..] == r;
  }

  lemma {:induction false} UnescapePlain(t: string, r: string, out: string)
    requires PlainToken(t) && Ends(r)
    ensures Unescape(t + r, out, 0) == (out + t, 0, r)
    decreases |t|
  {
    if t == "" {
      assert t + r == r && out + t == out;
    } else {
      assert (t + r)[1..] == t[1..] + r && out + [t[0]] + t[1..] == out + t;
      UnescapePlain(t[1..], r, out + [t[0]]);
    }
  }

  lemma TokenReads(t: string, r: string)
    requires PlainToken(t) && Ends(r)
    ensures Token(t + r) == (t, r)
  {
    UnescapePlain(t, r, "");
    assert "" + t == t;
    if t == "" { assert t + r == r; } else { assert (t + r)[0] == t[0]; }
    assert SkipBlanks(t + r) == t + r;
  }

  lemma DigitsRead(eval: Eval, acc: Specifier, d: string, i: nat)
    requires d != "" && IsDigit(d[0]) && Strtol(d) == (i, |d|) && i < 0x8000_0000
    ensures Component(eval, acc, d) == Stop(acc.(idx := i), "")
  {
  }

  lemma IndexReads(eval: Eval, acc: Specifier, i: nat)
    requires i < 0x8000_0000
    ensures Component(eval, acc, Decimal(i)) == Stop(acc.(idx := i), "") && Decimal(i) != ""
  {
    hide Component, Strtol;
    DecimalReads(i);
    DigitsStrtol(Decimal(i), i, "");
    assert Decimal(i) + "" == Decimal(i);
    DigitsRead(eval, acc, Decimal(i), i);
  }

  lemma IdReads(eval: Eval, acc: Specifier, s: string, t: Specifier)
    requires s != "" && s[0] == '#' && ListNumber(acc, StreamId, s[1..]) == More(t, "")
    ensures Component(eval, acc, s) == Stop(t, "")
  {
    assert "#" <= s;
  }

  lemma StreamIdReads(eval: Eval, acc: Specifier, i: int)
    requires LONG_MIN <= i <= LONG_MAX && acc.list.All?
    ensures Component(eval, acc, "#" + Number(i)) == Stop(acc.(list := StreamId, listId := i), "")
  {
    ListNumberReads(acc, StreamId, i, "");
    assert ("#" + Number(i))[1..] == Number(i) && Number(i) + "" == Number(i);
    IdReads(eval, acc, "#" + Number(i), acc.(list := StreamId, listId := i));
  }

  lemma MetadataReads(eval: Eval, acc: Specifier, key: string, val: Option<string>)
    requires PlainToken(key) && (val.Some? ==> PlainToken(val.value))
    ensures Component(eval, acc, "m:" + key + if val.Some? then ":" + val.value else "")
            == Stop(acc.(metaKey := Some(key), metaVal := val), "")
  {
    var tail := if val.Some? then ":" + val.value else "";
    var s := "m:" + key + tail;
    assert s[0] == 'm' && s[1] == ':' && s[2..] == key + tail && "m:" <= s;
    TokenReads(key, tail);
    if val.Some? {
      assert tail[1..] == val.value && val.value + "" == val.value;
      TokenReads(val.value, "");
    }
  }

  lemma EndReads(eval: Eval, acc: Specifier, ss: Specifier, name: string)
    requires Printable(eval, ss, name) && EndPart(ss) != []
    requires acc.list == if ss.list.StreamId? then All else ss.list
    requires Enders(acc) == 0 && acc.metaVal.None?
    ensures Component(eval, acc, EndPart(ss)[0])
            == Stop(acc.(idx := ss.idx, list := ss.list, listId := if ss.list.StreamId? then ss.listId else acc.listId,
                         metaKey := ss.metaKey, metaVal := ss.metaVal, usableOnly := ss.usableOnly), "")
  {
    if ss.idx >= 0 {
      IndexReads(eval, acc, ss.idx);
    } else if ss.list.StreamId? {
      StreamIdReads(eval, acc, ss.listId);
    } else if ss.metaKey.Some? {
      MetadataReads(eval, acc, ss.metaKey.value, ss.metaVal);
    }
  }

  // A part followed by the others, as the parser sees it.

  function Following(parts: seq<string>): string { if parts == [] then "" else ":" + Join(parts) }

  lemma JoinFirst(p: string, parts: seq<string>)
    ensures Join([p] + parts) == p + Following(parts)
    ensures Ends(Following(parts)) && SkipColon(Following(parts)) == Join(parts)
  {
    assert ([p] + parts)[1..] == parts;
    if parts == [] {
      assert p + "" == p;
    } else {
      assert p + ":" + Join(parts) == p + (":" + Join(parts));
    }
  }

  /** A part that is read as `t` and followed by more parts hands these to the parser. */
  lemma StepOver(eval: Eval, acc: Specifier, t: Specifier, p: string, parts: seq<string>)
    requires p != "" && Component(eval, acc, p + Following(parts)) == More(t, Following(parts))
    ensures Components(eval, acc, Join([p] + parts)) == Components(eval, t, Join(parts))
  {
    JoinFirst(p, parts);
  }

  lemma EndsRead(eval: Eval, acc: Specifier, ss: Specifier, name: string)
    requires Printable(eval, ss, name)
    requires acc == ss.(idx := -1, metaKey := None, metaVal := None, usableOnly := false,
                        list := if ss.list.StreamId? then All else ss.list,
                        listId := if ss.list.StreamId? then 0 else ss.listId)
    ensures Components(eval, acc, Join(EndPart(ss))) == Stop(ss, "")
  {
    if EndPart(ss) != [] {
      EndReads(eval, acc, ss, name);
      assert EndPart(ss)[0] != "" by { if ss.idx >= 0 { DecimalReads(ss.idx); } }
    }
  }

  // The specifier as far as it is known after the type, after the list and after the dispositions.

  function AfterType(ss: Specifier): Specifier { DEFAULT.(mediaType := ss.mediaType, noApic := ss.noApic) }

  function AfterList(ss: Specifier): Specifier {
    AfterType(ss).(list := if ss.list.StreamId? then All else ss.list,
                   listId := if ss.list.StreamId? then 0 else ss.listId)
  }

  lemma DispositionsRead(eval: Eval, ss: Specifier, name: string)
    requires Printable(eval, ss, name)
    ensures Components(eval, AfterList(ss), Join(DispositionPart(ss, name) + EndPart(ss))) == Stop(ss, "")
  {
    var d, e := DispositionPart(ss, name), EndPart(ss);
    EndsRead(eval, AfterList(ss).(disposition := ss.disposition), ss, name);
    if d == [] {
      assert d + e == e;
    } else {
      JoinFirst(d[0], e);
      DispositionReads(eval, AfterList(ss), ss, name, Following(e));
      StepOver(eval, AfterList(ss), AfterList(ss).(disposition := ss.disposition), d[0], e);
    }
  }

  lemma ListsRead(eval: Eval, ss: Specifier, name: string)
    requires Printable(eval, ss, name)
    ensures Components(eval, AfterType(ss), Join(ListPart(ss) + (DispositionPart(ss, name) + EndPart(ss))))
            == Stop(ss, "")
  {
    hide Component, Components, Join;
    var l, more := ListPart(ss), DispositionPart(ss, name) + EndPart(ss);
    DispositionsRead(eval, ss, name);
    if l == [] {
      assert l + more == more;
    } else {
      JoinFirst(l[0], more);
      ListReads(eval, AfterType(ss), ss, Following(more));
      StepOver(eval, AfterType(ss), AfterList(ss), l[0], more);
    }
  }

  /** Parsing the canonical text of a specifier returns the specifier. */
  lemma RoundTrip(eval: Eval, ss: Specifier, name: string, allowRemainder: bool)
    requires Printable(eval, ss, name)
    ensures Parse(eval, Print(ss, name), allowRemainder) == Some(ss)
  {
    hide Component, Components, Join;
    var t, more := TypePart(ss), ListPart(ss) + (DispositionPart(ss, name) + EndPart(ss));
    ListsRead(eval, ss, name);
    assert t + ListPart(ss) + DispositionPart(ss, name) + EndPart(ss) == t + more;
    if t == [] {
      assert t + more == more;
    } else {
      JoinFirst(t[0], more);
      TypeReads(eval, DEFAULT, ss, Following(more));
      StepOver(eval, DEFAULT, AfterType(ss), t[0], more);
    }
  }

  /** Different specifiers never share a canonical text. */
  lemma PrintIsInjective(eval: Eval, a: Specifier, nameA: string, b: Specifier, nameB: string)
    requires Printable(eval, a, nameA) && Printable(eval, b, nameB) && Print(a, nameA) == Print(b, nameB)
    ensures a == b
  {
    RoundTrip(eval, a, nameA, false);
    RoundTrip(eval, b, nameB, false);
  }
}

/** The quoting of command-line arguments in the report file, and a decoder that undoes it. */
module Report {
  import opened Common

  /** Characters stand for unsigned bytes; an argument holds no NUL. */
  predicate IsArgument(a: string) { forall i :: 0 <= i < |a| ==> 0 < a[i] as int < 256 }

  predicate AreArguments(args: seq<string>) { forall i :: 0 <= i < |args| ==> IsArgument(args[i]) }

  predicate Plain(c: char) {
    '+' <= c <= ':' || '@' <= c <= 'Z' || c == '_' || 'a' <= c <= 'z'
  }

  predicate AllPlain(a: string) { forall i :: 0 <= i < |a| ==> Plain(a[i]) }

  predicate Backslashed(c: char) { c == '\\' || c == '"' || c == '$' || c == '`' }

  const DIGITS := "0123456789abcdef"

  /** %02x */
  function Hex(c: char): string
    requires c as int < 256
  {
    [DIGITS[c as int / 16], DIGITS[c as int % 16]]
  }

  function Escape(c: char): string
    requires c as int < 256
  {
    if Backslashed(c) then ['\\', c]
    else if c < ' ' || c > '~' then "\\x" + Hex(c)
    else [c]
  }

  function EscapeAll(a: string): string
    requires IsArgument(a)
  {
    if a == "" then "" else Escape(a[0]) + EscapeAll(a[1..])
  }

  /** The text dumped for one argument. */
  function Dumped(a: string): string
    requires IsArgument(a)
  {
    if AllPlain(a) then a else "\"" + EscapeAll(a) + "\""
  }

  /** The line dumped for a list of arguments: one space between two, a newline after the last. */
  function Line(args: seq<string>): string
    requires AreArguments(args)
  {
    if args == [] then ""
    else Dumped(args[0]) + (if |args| == 1 then "\n" else " " + Line(args[1..]))
  }

  lemma Associate(a: string, b: string, c: string)
    ensures a + (b + c) == a + b + c
  {
  }

  lemma {:induction false} EscapeNext(a: string, n: nat)
    requires IsArgument(a) && n < |a|
    ensures EscapeAll(a[..n + 1]) == EscapeAll(a[..n]) + Escape(a[n])
  {
    if n == 0 {
      assert a[..1] == [a[0]] && a[..0] == "" && [a[0]][1..] == "";
      assert Escape(a[0]) + "" == "" + Escape(a[0]);
    } else {
      EscapeNext(a[1..], n - 1);
      assert a[..n + 1][1..] == a[1..][..n] && a[..n][1..] == a[1..][..n - 1];
      Associate(Escape(a[0]), EscapeAll(a[..n][1..]), Escape(a[n]));
    }
  }

  lemma LineNext(args: seq<string>, i: nat)
    requires AreArguments(args) && i < |args|
    ensures Line(args[i..]) == Dumped(args[i]) + ((if i == |args| - 1 then "\n" else " ") + Line(args[i + 1..]))
  {
    assert args[i..][0] == args[i] && args[i..][1..] == args[i + 1..];
    if i == |args| - 1 { assert "\n" + "" == "\n"; }
  }

  lemma Regroup(a: string, b: string, c: string, d: string)
    ensures a + (b + (c + d)) == a + b + c + d
  {
  }

  class ReportFile {
    var text: string

    constructor ()
      ensures text == ""
    {
      text := "";
    }

    method DumpCharacter(c: char)
      requires 0 < c as int < 256
      modifies this
      ensures text == old(text) + Escape(c)
    {
      if Backslashed(c) {
        text := text + ['\\', c];
      } else if c < ' ' || c > '~' {
        text := text + ("\\x" + Hex(c));
      } else {
        text := text + [c];
      }
    }

    method DumpQuoted(a: string)
      requires IsArgument(a)
      modifies this
      ensures text == old(text) + ("\"" + EscapeAll(a) + "\"")
    {
      assert EscapeAll(a[..0]) == "";
      hide EscapeAll, Escape;
      text := text + "\"";
      ghost var start := text;
      for p := 0 to |a|
        invariant text == start + EscapeAll(a[..p])
      {
        DumpCharacter(a[p]);
        EscapeNext(a, p);
        Associate(start, EscapeAll(a[..p]), Escape(a[p]));
      }
      assert a[..|a|] == a;
      text := text + "\"";
      Associate(old(text), "\"", EscapeAll(a));
      Associate(old(text), "\"" + EscapeAll(a), "\"");
    }

    method DumpArgument(a: string)
      requires IsArgument(a)
      modifies this
      ensures text == old(text) + Dumped(a)
    {
      var p := 0;
      while p < |a| && Plain(a[p])
        invariant p <= |a| && forall i :: 0 <= i < p ==> Plain(a[i])
      {
        p := p + 1;
      }
      if p == |a| {
        text := text + a;
      } else {
        DumpQuoted(a);
      }
    }

    /** One argument and the separator behind it. */
    method DumpNext(argv: seq<string>, i: nat)
      requires AreArguments(argv) && i < |argv|
      modifies this
      ensures text + Line(argv[i + 1..]) == old(text) + Line(argv[i..])
    {
      var separator := if i < |argv| - 1 then " " else "\n";
      DumpArgument(argv[i]);
      text := text + separator;
      LineNext(argv, i);
      Regroup(old(text), Dumped(argv[i]), separator, Line(argv[i + 1..]));
    }

    method DumpCommandLine(argv: seq<string>)
      requires AreArguments(argv)
      modifies this
      ensures text == old(text) + Line(argv)
    {
      assert argv[0..] == argv;
      for i := 0 to |argv|
        invariant text + Line(argv[i..]) == old(text) + Line(argv)
      {
        DumpNext(argv, i);
      }
      assert text + "" == text;
    }
  }

  // ---------- the decoder ----------

  function HexValue(c: char): Option<int> {
    if '0' <= c <= '9' then Some(c as int - '0' as int)
    else if 'a' <= c <= 'f' then Some(c as int - 'a' as int + 10)
    else None
  }

  /** The text up to the closing quote, unescaped, and what follows the quote. */
  function Unquote(t: string): Option<(string, string)> {
    if t == "" then None
    else if t[0] == '"' then Some(("", t[1..]))
    else if t[0] != '\\' then Cons(t[0], Unquote(t[1..]))
    else if |t| < 2 then None
    else if t[1] != 'x' then Cons(t[1], Unquote(t[2..]))
    else if |t| < 4 || HexValue(t[2]).None? || HexValue(t[3]).None? then None
    else Cons((16 * HexValue(t[2]).value + HexValue(t[3]).value) as char, Unquote(t[4..]))
  }

  function Cons(c: char, r: Option<(string, string)>): Option<(string, string)> {
    if r.None? then None else Some(([c] + r.value.0, r.value.1))
  }

  /** The text up to a separator, and the rest from the separator on. */
  function Unquoted(t: string): (string, string) {
    if t == "" || t[0] == ' ' || t[0] == '\n' then ("", t)
    else var (a, rest) := Unquoted(t[1..]); ([t[0]] + a, rest)
  }

  lemma {:induction false} DecodedIsShorter(t: string)
    ensures Unquote(t).Some? ==> |Unquote(t).value.1| < |t|
    ensures |Unquoted(t).1| <= |t|
    decreases |t|
  {
    if t != "" {
      DecodedIsShorter(t[1..]);
      if |t| >= 2 { DecodedIsShorter(t[2..]); }
      if |t| >= 4 { DecodedIsShorter(t[4..]); }
    }
  }

  function DecodeArgument(t: string): Option<(string, string)> {
    if t != "" && t[0] == '"' then Unquote(t[1..]) else Some(Unquoted(t))
  }

  /** The arguments a dumped line stands for; None when the text is no such line. */
  function Decode(t: string): Option<seq<string>>
    decreases |t|
  {
    if t == "" then Some([])
    else
      var r := DecodeArgument(t);
      if r.None? || r.value.1 == "" then None
      else if r.value.1 == "\n" then Some([r.value.0])
      else if r.value.1[0] != ' ' || |r.value.1| == 1 then None
      else
        DecodedIsShorter(t);
        DecodedIsShorter(t[1..]);
        var more := Decode(r.value.1[1..]);
        if more.None? then None else Some([r.value.0] + more.value)
  }

  lemma UnquoteOne(c: char, t: string)
    requires 0 < c as int < 256
    ensures Unquote(Escape(c) + t) == Cons(c, Unquote(t))
  {
    var s := Escape(c) + t;
    if Backslashed(c) {
      assert s[2..] == t;
    } else if c < ' ' || c > '~' {
      assert s[0] == '\\' && s[1] == 'x' && s[2] == Hex(c)[0] && s[3] == Hex(c)[1] && s[4..] == t;
      DigitValue(c as int / 16);
      DigitValue(c as int % 16);
    } else {
      assert s[1..] == t;
    }
  }

  lemma DigitValue(n: int)
    requires 0 <= n < 16
    ensures HexValue(DIGITS[n]) == Some(n)
  {
  }

  lemma {:induction false} UnquoteEscaped(a: string, rest: string)
    requires IsArgument(a)
    ensures Unquote(EscapeAll(a) + "\"" + rest) == Some((a, rest))
  {
    if a == "" {
      assert ("\"" + rest)[1..] == rest;
    } else {
      hide Unquote, Escape;
      UnquoteEscaped(a[1..], rest);
      UnquoteOne(a[0], EscapeAll(a[1..]) + "\"" + rest);
      Regroup(Escape(a[0]), EscapeAll(a[1..]), "\"", rest);
      Associate(EscapeAll(a[1..]), "\"", rest);
      assert [a[0]] + a[1..] == a;
    }
  }

  lemma {:induction false} UnquotedPlain(a: string, rest: string)
    requires AllPlain(a) && rest != "" && (rest[0] == ' ' || rest[0] == '\n')
    ensures Unquoted(a + rest) == (a, rest)
  {
    if a == "" {
      assert a + rest == rest;
    } else {
      assert (a + rest)[0] == a[0] && (a + rest)[1..] == a[1..] + rest;
      assert Plain(a[0]);
      UnquotedPlain(a[1..], rest);
      assert [a[0]] + a[1..] == a;
    }
  }

  lemma PlainStart(a: string, rest: string)
    requires AllPlain(a) && rest != "" && (rest[0] == ' ' || rest[0] == '\n')
    ensures (a + rest)[0] != '"'
  {
    if a != "" { assert Plain(a[0]); }
  }

  lemma Requote(e: string, rest: string)
    ensures var t := "\"" + e + "\"" + rest;
            t[0] == '"' && t[1..] == e + "\"" + rest
  {
  }

  /** One dumped argument followed by a separator decodes to itself and stops at the separator. */
  lemma DecodeDumped(a: string, rest: string)
    requires IsArgument(a) && rest != "" && (rest[0] == ' ' || rest[0] == '\n')
    ensures DecodeArgument(Dumped(a) + rest) == Some((a, rest))
  {
    if AllPlain(a) {
      PlainStart(a, rest);
      UnquotedPlain(a, rest);
    } else {
      Requote(EscapeAll(a), rest);
      UnquoteEscaped(a, rest);
    }
  }

  /** The decoder recovers every list of arguments, empty ones and bytes outside printable ASCII included. */
  lemma {:induction false} RoundTrip(args: seq<string>)
    requires AreArguments(args)
    ensures Decode(Line(args)) == Some(args)
  {
    hide Dumped, DecodeArgument;
    if args != [] {
      if |args| == 1 {
        DecodeDumped(args[0], "\n");
        assert args == [args[0]];
      } else {
        var rest := " " + Line(args[1..]);
        DecodeDumped(args[0], rest);
        RoundTrip(args[1..]);
        assert rest[1..] == Line(args[1..]) && args == [args[0]] + args[1..];
        LineNotEmpty(args[1..]);
      }
    }
  }

  lemma LineNotEmpty(args: seq<string>)
    requires args != [] && AreArguments(args)
    ensures Line(args) != ""
  {
  }

  /** Different argument lists never print alike. */
  lemma LineIsInjective(x: seq<string>, y: seq<string>)
    requires AreArguments(x) && AreArguments(y)
    requires Line(x) == Line(y)
    ensures x == y
  {
    RoundTrip(x);
    RoundTrip(y);
  }

  predicate Printable(t: string) { forall i :: 0 <= i < |t| ==> ' ' <= t[i] <= '~' }

  /** What is dumped for an argument is printable ASCII, so a dumped line is one line of the report. */
  lemma {:induction false} DumpedIsPrintable(a: string)
    requires IsArgument(a)
    ensures Printable(EscapeAll(a)) && Printable(Dumped(a))
  {
    hide Escape;
    if a != "" {
      DumpedIsPrintable(a[1..]);
      EscapeIsPrintable(a[0]);
      JoinIsPrintable(Escape(a[0]), EscapeAll(a[1..]));
    }
    JoinIsPrintable("\"", EscapeAll(a));
    JoinIsPrintable("\"" + EscapeAll(a), "\"");
    if AllPlain(a) { PlainIsPrintable(a); }
  }

  lemma JoinIsPrintable(s: string, t: string)
    requires Printable(s) && Printable(t)
    ensures Printable(s + t)
  {
  }

  lemma PlainIsPrintable(a: string)
    requires AllPlain(a)
    ensures Printable(a)
  {
  }

  lemma EscapeIsPrintable(c: char)
    requires 0 < c as int < 256
    ensures Printable(Escape(c))
  {
    if !Backslashed(c) && (c < ' ' || c > '~') {
      assert forall i :: 0 <= i < 16 ==> ' ' <= DIGITS[i] <= '~';
      assert Escape(c) == ['\\', 'x', DIGITS[c as int / 16], DIGITS[c as int % 16]];
    }
  }

  // ---------- what is quoted and escaped ----------

  /** Letters, digits and eight other characters mean nothing to a shell. */
  predicate IsBare(c: char) {
    || 'A' <= c <= 'Z' || 'a' <= c <= 'z' || '0' <= c <= '9'
    || c in {'+', ',', '-', '.', '/', ':', '@', '_'}
  }

  /** An argument is dumped as it is exactly when it holds bare characters only. */
  lemma BareIff(a: string)
    requires IsArgument(a)
    ensures Dumped(a) == a <==> forall i :: 0 <= i < |a| ==> IsBare(a[i])
  {
    forall i | 0 <= i < |a| ensures Plain(a[i]) <==> IsBare(a[i]) {}
    if !AllPlain(a) { QuotedIsLonger(a); }
  }

  lemma {:induction false} QuotedIsLonger(a: string)
    requires IsArgument(a)
    ensures |EscapeAll(a)| >= |a|
  {
    if a != "" { QuotedIsLonger(a[1..]); }
  }

  /** Inside quotes exactly the backslash, the quote, the dollar and the backquote get a backslash; printables stay. */
  lemma EscapeIs(c: char)
    requires 0 < c as int < 256
    ensures c in "\\\"$`" ==> Escape(c) == ['\\', c]
    ensures ' ' <= c <= '~' && c !in "\\\"$`" ==> Escape(c) == [c]
    ensures !(' ' <= c <= '~') ==> |Escape(c)| == 4 && Escape(c)[..2] == "\\x"
  {
    var special := "\\\"$`";
    assert special[0] == '\\' && special[1] == '"' && special[2] == '$' && special[3] == '`';
  }
}

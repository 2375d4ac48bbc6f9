/** Other ways to write a specifier: number bases, ID spellings, escaped and quoted tokens, remainders; refusals. */
module SpecifierForms {
  import opened Common
  import opened SpecifierMatch
  import opened SpecifierParse
  import opened SpecifierPrint

  // ---------- numbers in any base ----------

  function DigitChar(n: nat): char
    requires n < 36
  {
    if n < 10 then (n + '0' as int) as char else (n - 10 + 'a' as int) as char
  }

  function Numeral(n: nat, b: nat): string
    requires 2 <= b <= 36
    decreases n
  {
    if n < b then [DigitChar(n)]
    else
      Shrinks(n, b);
      Numeral(n / b, b) + [DigitChar(n % b)]
  }

  lemma Shrinks(n: nat, b: nat)
    requires 2 <= b && n >= b
    ensures n / b < n
  {
    var q := n / b;
    QuotientParts(n, b);
    AtLeastTwice(q, b);
    if q == 0 { NoneOf(q, b); }
  }

  lemma QuotientParts(n: nat, b: nat)
    requires b > 0
    ensures n == n / b * b + n % b && 0 <= n % b < b
  {
  }

  lemma AtLeastTwice(q: nat, b: nat)
    requires b >= 2
    ensures q * b >= 2 * q
  {
    assert q * b == q * 2 + q * (b - 2);
  }

  lemma NoneOf(x: int, b: int)
    requires x == 0
    ensures x * b == 0
  {
  }

  ghost predicate DigitsOf(d: string, b: nat) { forall i :: 0 <= i < |d| ==> DigitOf(d[i]) < b }

  lemma LastDigit(d: string, k: nat, b: nat)
    requires DigitsOf(d, b) && k < b <= 36
    ensures DigitsOf(d + [DigitChar(k)], b) && ValueOf(d + [DigitChar(k)], b) == ValueOf(d, b) * b + k
  {
    var e := d + [DigitChar(k)];
    assert e[..|e| - 1] == d && DigitOf(DigitChar(k)) == k;
  }

  lemma {:induction false} NumeralReads(n: nat, b: nat)
    requires 2 <= b <= 36
    ensures Numeral(n, b) != "" && DigitsOf(Numeral(n, b), b) && ValueOf(Numeral(n, b), b) == n
    decreases n
  {
    if n < b {
      FirstDigit(n, b);
    } else {
      Shrinks(n, b);
      NumeralReads(n / b, b);
      QuotientParts(n, b);
      NextDigit(n, n / b, n % b, b);
    }
  }

  lemma FirstDigit(n: nat, b: nat)
    requires 2 <= b <= 36 && n < b
    ensures Numeral(n, b) != "" && DigitsOf(Numeral(n, b), b) && ValueOf(Numeral(n, b), b) == n
  {
    assert ValueOf("", b) == 0 && DigitsOf("", b);
    hide ValueOf, DigitsOf, DigitChar;
    LastDigit("", n, b);
    NoneOf(ValueOf("", b), b);
    assert "" + [DigitChar(n)] == [DigitChar(n)];
  }

  lemma NextDigit(n: nat, q: nat, k: nat, b: nat)
    requires 2 <= b <= 36 && n >= b && q == n / b && k == n % b && n == q * b + k && k < b
    requires DigitsOf(Numeral(q, b), b) && ValueOf(Numeral(q, b), b) == q
    ensures Numeral(n, b) != "" && DigitsOf(Numeral(n, b), b) && ValueOf(Numeral(n, b), b) == n
  {
    hide ValueOf, DigitsOf, DigitChar;
    LastDigit(Numeral(q, b), k, b);
  }

  lemma {:induction false} CountAll(d: string, r: string, b: nat)
    requires DigitsOf(d, b) && Ends(r) && b <= 36
    ensures CountDigits(d + r, b) == |d|
  {
    if d == "" {
      assert d + r == r;
      if r != "" { assert DigitOf(':') == 36; }
    } else {
      assert (d + r)[1..] == d[1..] + r;
      CountAll(d[1..], r, b);
    }
  }

  /** strtol on a text with k characters of sign and `skip` of prefix, in front of the digits. */
  lemma StrtolJoin(s: string, k: nat, skip: nat, n: nat, b: nat, v: int, minus: bool)
    requires s != "" && CountSpaces(s) == 0 && n > 0
    requires k == (if s[0] == '-' || s[0] == '+' then 1 else 0) && minus == (s[0] == '-')
    requires BaseOf(s[k..]) == (b, skip) && k + skip + n <= |s| && CountDigits(s[k + skip..], b) == n
    requires ValueOf(s[k + skip..k + skip + n], b) == v
    ensures Strtol(s) == (Clamp(if minus then -v else v), k + skip + n)
  {
    hide CountSpaces, BaseOf, CountDigits, ValueOf, Clamp;
  }

  /** What strtol reads of a sign, a prefix and the digits of the base it announces. */
  lemma StrtolReads(s: string, sign: string, prefix: string, d: string, r: string, b: nat)
    requires sign in {"", "-", "+"} && b in {8, 10, 16} && d != "" && DigitsOf(d, b) && Ends(r)
    requires prefix == (if b == 16 then "0x" else "") && (b == 8 ==> d[0] == '0') && (b == 10 ==> d[0] != '0')
    requires s == sign + prefix + d + r
    ensures Strtol(s)
            == (Clamp(if sign == "-" then -(ValueOf(d, b) as int) else ValueOf(d, b)), |sign| + |prefix| + |d|)
  {
    hide Strtol, CountSpaces, BaseOf, CountDigits, ValueOf, Ends, Clamp;
    FirstIsDigit(d, b);
    CountAll(d, r, b);
    BaseIs(prefix + d + r, prefix, d, r, b);
    NoSpaces(s, sign, prefix, d, r, b);
    Tails(s, sign, prefix, d, r);
    StrtolJoin(s, |sign|, |prefix|, |d|, b, ValueOf(d, b), sign == "-");
  }

  lemma FirstIsDigit(d: string, b: nat)
    requires d != "" && DigitsOf(d, b)
    ensures DigitOf(d[0]) < b
  {
  }

  lemma NoSpaces(s: string, sign: string, prefix: string, d: string, r: string, b: nat)
    requires sign in {"", "-", "+"} && prefix in {"", "0x"} && d != "" && DigitOf(d[0]) < b <= 16
    requires s == sign + prefix + d + r
    ensures CountSpaces(s) == 0 && (sign != "" <==> s[0] == '-' || s[0] == '+') && (sign == "-" <==> s[0] == '-')
  {
    DigitNoSpace(d[0], b);
    assert s[0] == (if sign != "" then sign[0] else if prefix != "" then '0' else d[0]);
  }

  lemma Tails(s: string, sign: string, prefix: string, d: string, r: string)
    requires s == sign + prefix + d + r
    ensures s[|sign|..] == prefix + d + r && s[|sign| + |prefix|..] == d + r
    ensures s[|sign| + |prefix|..|sign| + |prefix| + |d|] == d
  {
  }

  lemma DigitNoSpace(c: char, b: nat)
    requires DigitOf(c) < b <= 16
    ensures !IsSpace(c) && c != '-' && c != '+' && c != 'x' && c != 'X'
  {
  }

  lemma BaseIs(t: string, prefix: string, d: string, r: string, b: nat)
    requires b in {8, 10, 16} && d != "" && DigitsOf(d, b) && Ends(r) && t == prefix + d + r
    requires prefix == (if b == 16 then "0x" else "") && (b == 8 ==> d[0] == '0') && (b == 10 ==> d[0] != '0')
    ensures BaseOf(t) == (b, |prefix|)
  {
    if b == 16 {
      assert t[0] == '0' && t[1] == 'x' && t[2] == d[0];
    } else {
      assert t == d + r && t[0] == d[0];
      if |d| > 1 { DigitNoSpace(d[1], b); assert t[1] == d[1]; } else { assert |t| > 1 ==> t[1] == ':'; }
    }
  }

  lemma HexReads(h: string, n: int, r: string)
    requires Ends(r) && h != "" && DigitsOf(h, 16) && ValueOf(h, 16) == n
    ensures Strtol("0x" + h + r) == (Clamp(n), 2 + |h|) && Strtol("-0x" + h + r) == (Clamp(0 - n), 3 + |h|)
  {
    hide Strtol, ValueOf, DigitsOf;
    assert "" + "0x" + h + r == "0x" + h + r && "-" + "0x" + h + r == "-0x" + h + r;
    StrtolReads("0x" + h + r, "", "0x", h, r, 16);
    StrtolReads("-0x" + h + r, "-", "0x", h, r, 16);
  }

  /** Hexadecimal and octal numbers are read like decimal ones, with a sign or without, and end before a colon. */
  lemma BasesRead(n: int, r: string)
    requires 0 <= n <= LONG_MAX && Ends(r)
    ensures Strtol("0x" + Numeral(n, 16) + r) == (n, 2 + |Numeral(n, 16)|)
    ensures Strtol("-0x" + Numeral(n, 16) + r) == (0 - n, 3 + |Numeral(n, 16)|)
    ensures Strtol("0" + Numeral(n, 8) + r) == (n, 1 + |Numeral(n, 8)|)
  {
    hide Strtol, ValueOf, DigitsOf, Numeral;
    NumeralReads(n, 16);
    HexReads(Numeral(n, 16), n, r);
    NumeralReads(n, 8);
    OctalReads(Numeral(n, 8), n, r);
  }

  lemma OctalReads(d: string, n: nat, r: string)
    requires n <= LONG_MAX && Ends(r) && d != "" && DigitsOf(d, 8) && ValueOf(d, 8) == n
    ensures Strtol("0" + d + r) == (n, 1 + |d|)
  {
    hide Strtol, ValueOf, DigitsOf;
    var e := "0" + d;
    ZeroInFront(d);
    assert "" + "" + e + r == e + r;
    StrtolReads(e + r, "", "", e, r, 8);
  }

  lemma ZeroInFront(d: string)
    requires DigitsOf(d, 8)
    ensures DigitsOf("0" + d, 8) && ("0" + d)[0] == '0' && ValueOf("0" + d, 8) == ValueOf(d, 8)
  {
    LeadingZero(d, 8);
  }

  lemma {:induction false} LeadingZero(d: string, b: nat)
    ensures ValueOf("0" + d, b) == ValueOf(d, b)
  {
    var e := "0" + d;
    if d == "" {
      assert e[..0] == "" && ValueOf("", b) == 0;
    } else {
      assert e[..|e| - 1] == "0" + d[..|d| - 1];
      LeadingZero(d[..|d| - 1], b);
    }
  }

  /** A number beyond a long becomes the greatest or the least long. */
  lemma BigNumbersClamp(n: int, r: string)
    requires n > LONG_MAX + 1 && Ends(r)
    ensures Strtol("0x" + Numeral(n, 16) + r).0 == LONG_MAX && Strtol("-0x" + Numeral(n, 16) + r).0 == LONG_MIN
  {
    hide Strtol, ValueOf, DigitsOf, Numeral;
    NumeralReads(n, 16);
    HexReads(Numeral(n, 16), n, r);
  }

  // ---------- spellings of IDs ----------

  lemma IdText(eval: Eval, ss: Specifier, s: string)
    requires s != "" && StartsId(s)
    ensures Component(eval, ss, s)
            == match ListNumber(ss, StreamId, AfterId(s))
               case More(t, rest) => Stop(t, rest)
               case _ => Error
  {
    hide ListNumber, Metadata, Disposition, Strtol;
  }

  lemma GroupIdText(eval: Eval, ss: Specifier, s: string)
    requires |s| >= 2 && s[0] == 'g' && s[1] == ':' && StartsId(s[2..])
    ensures Component(eval, ss, s) == ListNumber(ss, GroupId, AfterId(s[2..]))
  {
    hide ListNumber, Metadata, Disposition, Strtol;
    assert "g:" <= s;
  }

  /** `i:` and `#` announce an ID alike, of a stream and of a stream group. */
  lemma IdSpellings(eval: Eval, ss: Specifier, x: string)
    ensures Component(eval, ss, "i:" + x) == Component(eval, ss, "#" + x)
    ensures Component(eval, ss, "g:i:" + x) == Component(eval, ss, "g:#" + x)
  {
    hide Component, ListNumber;
    assert ("i:" + x)[2..] == x && ("#" + x)[1..] == x && "i:" <= "i:" + x && "#" <= "#" + x;
    IdText(eval, ss, "i:" + x);
    IdText(eval, ss, "#" + x);
    assert ("g:i:" + x)[2..] == "i:" + x && ("g:#" + x)[2..] == "#" + x;
    GroupIdText(eval, ss, "g:i:" + x);
    GroupIdText(eval, ss, "g:#" + x);
  }

  // ---------- tokens ----------

  /** Every character behind a backslash. */
  function Escaped(t: string): string { if t == "" then "" else ['\\', t[0]] + Escaped(t[1..]) }

  lemma {:induction false} UnescapeEscaped(t: string, r: string, out: string)
    requires Ends(r)
    ensures Unescape(Escaped(t) + r, out, |out|) == (out + t, |out + t|, r)
    decreases |t|
  {
    if t == "" {
      assert Escaped(t) + r == r && out + t == out;
    } else {
      var s := Escaped(t) + r;
      assert s[0] == '\\' && s[1] == t[0] && s[2..] == Escaped(t[1..]) + r;
      hide Escaped;
      UnescapeEscaped(t[1..], r, out + [t[0]]);
      assert out + [t[0]] + t[1..] == out + t;
    }
  }

  /** Any token at all, blanks, quotes and colons included, is read back when it is escaped. */
  lemma EscapedReads(t: string, r: string)
    requires Ends(r)
    ensures Token(Escaped(t) + r) == (t, r)
  {
    UnescapeEscaped(t, r, "");
    assert "" + t == t;
    var s := Escaped(t) + r;
    if t == "" { assert s == r; } else { assert s[0] == '\\'; }
    assert SkipBlanks(s) == s;
  }

  lemma {:induction false} QuotedText(t: string, r: string)
    requires '\'' !in t
    ensures Quoted(t + "'" + r) == (t, true, r)
  {
    var s := t + "'" + r;
    if t == "" {
      assert s[0] == '\'' && s[1..] == r;
    } else {
      assert s[0] == t[0] && t[0] in t && s[1..] == t[1..] + "'" + r;
      QuotedText(t[1..], r);
      assert [t[0]] + t[1..] == t;
    }
  }

  /** A token without quotes is read back when it stands between quotes. */
  lemma QuotedReads(t: string, r: string)
    requires '\'' !in t && Ends(r)
    ensures Token("'" + t + "'" + r) == (t, r)
  {
    var s := "'" + t + "'" + r;
    assert s[0] == '\'' && s[1..] == t + "'" + r && SkipBlanks(s) == s;
    QuotedText(t, r);
    assert "" + t == t;
    assert Unescape(r, t, |t|) == (t, |t|, r);
    assert Unescape(s, "", 0) == (t, |t|, r);
  }

  /** Metadata of any text is read back when key and value are escaped. */
  lemma AnyMetadataReads(eval: Eval, key: string, val: string, allowRemainder: bool)
    ensures Parse(eval, "m:" + Escaped(key), allowRemainder) == Some(DEFAULT.(metaKey := Some(key)))
    ensures Parse(eval, "m:" + (Escaped(key) + (":" + Escaped(val))), allowRemainder)
            == Some(DEFAULT.(metaKey := Some(key), metaVal := Some(val)))
  {
    hide Token, Escaped, Components, Component;
    var k, v := Escaped(key), Escaped(val);
    EscapedReads(key, "");
    EscapedReads(key, ":" + v);
    EscapedReads(val, "");
    assert k + "" == k && v + "" == v && (":" + v)[1..] == v && ":" <= ":" + v;
    MetadataText(eval, "m:" + k, k);
    MetadataText(eval, "m:" + (k + (":" + v)), k + (":" + v));
  }

  lemma MetadataText(eval: Eval, s: string, x: string)
    requires s == "m:" + x
    ensures Components(eval, DEFAULT, s) == Metadata(DEFAULT, x)
  {
    MetadataComponent(eval, DEFAULT, s);
    MetadataStops(DEFAULT, x);
    assert s[2..] == x;
    hide Component, Metadata;
  }

  lemma MetadataComponent(eval: Eval, ss: Specifier, s: string)
    requires |s| >= 2 && s[0] == 'm' && s[1] == ':'
    ensures Component(eval, ss, s) == Metadata(ss, s[2..])
  {
    hide ListNumber, Metadata, Disposition, Strtol;
    assert "m:" <= s;
  }

  lemma MetadataStops(ss: Specifier, x: string)
    ensures Metadata(ss, x).Stop?
  {
  }

  // ---------- refusals and remainders ----------

  /** A second media type, a second list and a second disposition are refused. */
  lemma RepeatsAreRefused(eval: Eval, ss: Specifier, s: string)
    requires s != ""
    ensures ss.mediaType != Unknown && s[0] in {'v', 'V', 'a', 's', 'd', 't'} && (|s| == 1 || s[1] == ':') ==>
              Component(eval, ss, s).Error?
    ensures ss.list != All && |s| >= 2 && (s[0] == '#' || s[..2] in {"g:", "p:", "i:"}) ==>
              Component(eval, ss, s).Error?
    ensures ss.disposition != {} && |s| >= 5 && s[..5] == "disp:" ==> Component(eval, ss, s).Error?
  {
    hide Strtol, Metadata;
    if |s| >= 2 { assert s[..2] == [s[0], s[1]]; }
    if |s| >= 5 { assert s[..5][0] == s[0] && s[..5][1] == s[1]; }
  }

  /** What follows an index behind a colon is the remainder, which is refused where none is allowed. */
  lemma IndexWithRemainder(eval: Eval, i: nat, rest: string)
    requires i < 0x8000_0000 && rest != ""
    ensures Parse(eval, Decimal(i) + (":" + rest), true) == Some(DEFAULT.(idx := i, remainder := Some(rest)))
    ensures Parse(eval, Decimal(i) + (":" + rest), false) == None
  {
    hide Component, Strtol, Decimal;
    var d, s := Decimal(i), Decimal(i) + (":" + rest);
    DecimalReads(i);
    DigitsStrtol(d, i, ":" + rest);
    assert s[0] == d[0] && s[|d|..] == ":" + rest && (":" + rest)[1..] == rest;
    IndexText(eval, DEFAULT, s, i, |d|);
  }

  lemma IndexText(eval: Eval, ss: Specifier, s: string, i: nat, n: nat)
    requires s != "" && IsDigit(s[0]) && Strtol(s) == (i, n) && i < 0x8000_0000 && n <= |s|
    ensures Component(eval, ss, s) == Stop(ss.(idx := i), s[n..])
  {
    hide Strtol;
  }
}

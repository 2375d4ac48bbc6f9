/** Parsing stream specifiers. Disposition names are evaluated by a foreign function, passed as `eval`. */
module SpecifierParse {
  import opened Common
  import opened SpecifierMatch

  const LONG_MAX: int := 0x7fff_ffff_ffff_ffff
  const LONG_MIN: int := -0x8000_0000_0000_0000

  predicate IsDigit(c: char) { '0' <= c <= '9' }

  predicate IsAlnum(c: char) { IsDigit(c) || 'A' <= c <= 'Z' || 'a' <= c <= 'z' }

  // ---------- strtol with base 0 ----------

  /** The value of a digit, 36 for anything else. */
  function DigitOf(c: char): nat {
    if IsDigit(c) then c as int - '0' as int
    else if 'a' <= c <= 'z' then c as int - 'a' as int + 10
    else if 'A' <= c <= 'Z' then c as int - 'A' as int + 10
    else 36
  }

  /** How many leading characters are digits of the base. */
  function CountDigits(s: string, b: nat): (n: nat)
    ensures n <= |s|
  {
    if s == "" || DigitOf(s[0]) >= b then 0 else 1 + CountDigits(s[1..], b)
  }

  function ValueOf(digits: string, b: nat): nat {
    if digits == "" then 0 else ValueOf(digits[..|digits| - 1], b) * b + DigitOf(digits[|digits| - 1])
  }

  predicate IsSpace(c: char) { c == ' ' || '\t' as int <= c as int <= '\r' as int }

  function CountSpaces(s: string): (n: nat)
    ensures n <= |s|
  {
    if s == "" || !IsSpace(s[0]) then 0 else 1 + CountSpaces(s[1..])
  }

  /** The base of an unsigned number and the length of its prefix. */
  function BaseOf(s: string): (r: (nat, nat))
    ensures r.1 <= |s|
  {
    if |s| > 2 && s[0] == '0' && (s[1] == 'x' || s[1] == 'X') && DigitOf(s[2]) < 16 then (16, 2)
    else if s != "" && s[0] == '0' then (8, 0)
    else (10, 0)
  }

  function Clamp(x: int): int { if x < LONG_MIN then LONG_MIN else if x > LONG_MAX then LONG_MAX else x }

  /** strtol(s, &end, 0): the value and the number of characters read, 0 when there is no number. */
  function Strtol(s: string): (r: (int, nat))
    ensures r.1 <= |s|
  {
    var k := CountSpaces(s);
    var sign := k < |s| && (s[k] == '-' || s[k] == '+');
    var start := if sign then k + 1 else k;
    var (b, skip) := BaseOf(s[start..]);
    var from := start + skip;
    var n := CountDigits(s[from..], b);
    if n == 0 then (0, 0)
    else
      var v: int := ValueOf(s[from..from + n], b);
      (Clamp(if sign && s[k] == '-' then -v else v), from + n)
  }

  // ---------- av_get_token with terminator ':' ----------

  predicate IsBlank(c: char) { c == ' ' || c == '\n' || c == '\t' || c == '\r' }

  function SkipBlanks(s: string): string { if s == "" || !IsBlank(s[0]) then s else SkipBlanks(s[1..]) }

  /** Text up to a closing quote: the text, whether the quote was found, and what follows. */
  function Quoted(s: string): (r: (string, bool, string))
    ensures |r.2| <= |s|
  {
    if s == "" then ("", false, "")
    else if s[0] == '\'' then ("", true, s[1..])
    else var (t, closed, rest) := Quoted(s[1..]); ([s[0]] + t, closed, rest)
  }

  /** The unescaped text up to a bare colon, the length protected from trimming, and the rest. */
  function Unescape(s: string, out: string, keep: nat): (r: (string, nat, string))
    ensures |r.2| <= |s|
    decreases |s|
  {
    if s == "" || s[0] == ':' then (out, keep, s)
    else if s[0] == '\\' && |s| > 1 then Unescape(s[2..], out + [s[1]], |out| + 1)
    else if s[0] == '\'' then
      var (t, closed, rest) := Quoted(s[1..]);
      Unescape(rest, out + t, if closed then |out + t| else keep)
    else Unescape(s[1..], out + [s[0]], keep)
  }

  function Trim(s: string, keep: nat): string {
    if |s| > keep && IsBlank(s[|s| - 1]) then Trim(s[..|s| - 1], keep) else s
  }

  /** The token and what follows it. */
  function Token(s: string): (string, string) {
    var (out, keep, rest) := Unescape(SkipBlanks(s), "", 0);
    (Trim(out, keep), rest)
  }

  // ---------- the grammar ----------

  /** After a component: an error, the end of the specifier, or more to come. */
  datatype Outcome = Error | Stop(ss: Specifier, rest: string) | More(ss: Specifier, rest: string)

  function TypeOf(c: char): MediaType {
    match c
    case 'v' => Video
    case 'V' => Video
    case 'a' => Audio
    case 's' => Subtitle
    case 'd' => Data
    case 't' => Attachment
    case _ => Unknown
  }

  predicate StartsWith(s: string, prefix: string) { prefix <= s }

  /** "#" or "i:" introduce an ID. */
  predicate StartsId(s: string) { StartsWith(s, "#") || StartsWith(s, "i:") }

  function AfterId(s: string): string
    requires StartsId(s)
  {
    if s[0] == '#' then s[1..] else s[2..]
  }

  /** A number after a list designator; it is an error when a list was given already or no number follows. */
  function ListNumber(ss: Specifier, list: StreamList, s: string): Outcome {
    var (v, n) := Strtol(s);
    if ss.list != All || n == 0 then Error else More(ss.(list := list, listId := v), s[n..])
  }

  predicate DispositionChar(c: char) { IsAlnum(c) || c == '_' || c == '+' }

  function CountDisposition(s: string): (n: nat)
    ensures n <= |s|
  {
    if s == "" || !DispositionChar(s[0]) then 0 else 1 + CountDisposition(s[1..])
  }

  type Eval = string -> Option<set<nat>>

  function Disposition(eval: Eval, ss: Specifier, s: string): Outcome {
    var n := CountDisposition(s);
    if ss.disposition != {} || eval(s[..n]).None? then Error
    else More(ss.(disposition := eval(s[..n]).value), s[n..])
  }

  function Metadata(ss: Specifier, s: string): Outcome {
    var (key, rest) := Token(s);
    if !StartsWith(rest, ":") then Stop(ss.(metaKey := Some(key), metaVal := None), rest)
    else
      var (val, rest') := Token(rest[1..]);
      Stop(ss.(metaKey := Some(key), metaVal := Some(val)), rest')
  }

  function Component(eval: Eval, ss: Specifier, s: string): Outcome
    requires s != ""
  {
    if IsDigit(s[0]) then
      var (v, n) := Strtol(s);
      Stop(ss.(idx := ToInt32(v)), s[n..])
    else if TypeOf(s[0]) != Unknown && (|s| == 1 || !IsAlnum(s[1])) then
      if ss.mediaType != Unknown then Error
      else More(ss.(mediaType := TypeOf(s[0]), noApic := s[0] == 'V'), s[1..])
    else if StartsWith(s, "g:") then
      if StartsId(s[2..]) then ListNumber(ss, GroupId, AfterId(s[2..])) else ListNumber(ss, GroupIdx, s[2..])
    else if StartsWith(s, "p:") then ListNumber(ss, Program, s[2..])
    else if StartsWith(s, "disp:") then Disposition(eval, ss, s[5..])
    else if StartsId(s) then
      match ListNumber(ss, StreamId, AfterId(s))
      case More(t, rest) => Stop(t, rest)
      case _ => Error
    else if StartsWith(s, "m:") then Metadata(ss, s[2..])
    else if s == "u" || StartsWith(s, "u:") then Stop(ss.(usableOnly := true), s[1..])
    else Stop(ss, s)
  }

  function SkipColon(s: string): string { if StartsWith(s, ":") then s[1..] else s }

  lemma ComponentShrinks(eval: Eval, ss: Specifier, s: string)
    requires s != ""
    ensures Component(eval, ss, s).More? ==> |Component(eval, ss, s).rest| < |s|
  {
  }

  function Components(eval: Eval, ss: Specifier, s: string): Outcome
    decreases |s|
  {
    if s == "" then Stop(ss, "")
    else
      ComponentShrinks(eval, ss, s);
      match Component(eval, ss, s)
      case Error => Error
      case Stop(t, rest) => Stop(t, rest)
      case More(t, rest) => Components(eval, t, SkipColon(rest))
  }

  /** The specifier a text stands for; None when it is refused. */
  function Parse(eval: Eval, s: string, allowRemainder: bool): Option<Specifier> {
    match Components(eval, DEFAULT, s)
    case Stop(ss, rest) =>
      if rest == "" then Some(ss)
      else if !allowRemainder then None
      else Some(ss.(remainder := Some(SkipColon(rest))))
    case _ => None
  }

  /** What stream_specifier_uninit leaves: all fields zero, which is the number of video and of the first index. */
  const ZEROED := Specifier(0, All, 0, Video, false, false, {}, None, None, None)

  datatype Status = Failed | Last | Going

  class StreamSpecifier {
    var idx: int
    var list: StreamList
    var listId: int
    var mediaType: MediaType
    var noApic: bool
    var usableOnly: bool
    var disposition: set<nat>
    var metaKey: Option<string>
    var metaVal: Option<string>
    var remainder: Option<string>

    function Now(): Specifier reads this {
      Specifier(idx, list, listId, mediaType, noApic, usableOnly, disposition, metaKey, metaVal, remainder)
    }

    method Set(ss: Specifier)
      modifies this
      ensures Now() == ss
    {
      idx, list, listId, mediaType, noApic := ss.idx, ss.list, ss.listId, ss.mediaType, ss.noApic;
      usableOnly, disposition := ss.usableOnly, ss.disposition;
      metaKey, metaVal, remainder := ss.metaKey, ss.metaVal, ss.remainder;
    }

    /** The result of a step as the function form states it. */
    ghost predicate Did(status: Status, rest: string, o: Outcome) reads this {
      match o
      case Error => status.Failed?
      case Stop(ss, r) => status.Last? && Now() == ss && rest == r
      case More(ss, r) => status.Going? && Now() == ss && rest == r
    }

    method ReadListNumber(newList: StreamList, spec: string) returns (status: Status, rest: string)
      modifies `list, `listId
      ensures Did(status, rest, ListNumber(old(Now()), newList, spec))
    {
      rest := spec;
      if list != All { return Failed, rest; }
      list := newList;
      var r := Strtol(spec);
      listId := r.0;
      if r.1 == 0 { return Failed, rest; }
      return Going, spec[r.1..];
    }

    method ReadComponent(eval: Eval, spec: string) returns (status: Status, rest: string)
      requires spec != ""
      modifies this
      ensures Did(status, rest, Component(eval, old(Now()), spec))
    {
      rest := spec;
      if IsDigit(spec[0]) {
        var r := Strtol(spec);
        idx := ToInt32(r.0);
        return Last, spec[r.1..];
      } else if TypeOf(spec[0]) != Unknown && (|spec| == 1 || !IsAlnum(spec[1])) {
        if mediaType != Unknown { return Failed, rest; }
        mediaType := TypeOf(spec[0]);
        noApic := spec[0] == 'V';
        return Going, spec[1..];
      } else if "g:" <= spec {
        if StartsId(spec[2..]) {
          status, rest := ReadListNumber(GroupId, AfterId(spec[2..]));
        } else {
          status, rest := ReadListNumber(GroupIdx, spec[2..]);
        }
      } else if "p:" <= spec {
        status, rest := ReadListNumber(Program, spec[2..]);
      } else if "disp:" <= spec {
        if disposition != {} { return Failed, rest; }
        rest := spec[5..];
        var n := CountDisposition(rest);
        var flags := eval(rest[..n]);
        if flags.None? { return Failed, rest; }
        disposition := flags.value;
        return Going, rest[n..];
      } else if StartsId(spec) {
        status, rest := ReadListNumber(StreamId, AfterId(spec));
        if status.Going? { status := Last; }
      } else if "m:" <= spec {
        var r := Token(spec[2..]);
        metaKey, metaVal, rest := Some(r.0), None, r.1;
        if ":" <= rest {
          r := Token(rest[1..]);
          metaVal, rest := Some(r.0), r.1;
        }
        return Last, rest;
      } else if spec == "u" || "u:" <= spec {
        usableOnly := true;
        return Last, spec[1..];
      } else {
        return Last, rest;
      }
    }

    method ParseSpecifier(eval: Eval, spec: string, allowRemainder: bool) returns (ok: bool)
      modifies this
      ensures ok <==> Parse(eval, spec, allowRemainder).Some?
      ensures Now() == if ok then Parse(eval, spec, allowRemainder).value else ZEROED
    {
      Set(DEFAULT);
      var rest, status := spec, Going;
      while rest != "" && status.Going?
        invariant status != Failed
        invariant status.Going? ==> Components(eval, Now(), rest) == Components(eval, DEFAULT, spec)
        invariant status.Last? ==> Components(eval, DEFAULT, spec) == Stop(Now(), rest)
        decreases |rest|, status.Going?
      {
        ComponentShrinks(eval, Now(), rest);
        status, rest := ReadComponent(eval, rest);
        if status.Failed? {
          Set(ZEROED);
          return false;
        }
        if status.Last? { break; }
        if ":" <= rest { rest := rest[1..]; }
      }
      if rest != "" {
        if !allowRemainder {
          Set(ZEROED);
          return false;
        }
        if ":" <= rest { rest := rest[1..]; }
        remainder := Some(rest);
      }
      return true;
    }
  }
}

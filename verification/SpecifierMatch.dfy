/** Stream specifiers and the test whether a stream matches one. */
module SpecifierMatch {
  import opened Common

  datatype MediaType = Unknown | Video | Audio | Data | Subtitle | Attachment

  /** Which list of streams a specifier looks at. */
  datatype StreamList = All | StreamId | Program | GroupId | GroupIdx

  /** Dispositions are sets of flag numbers; idx is negative when there is no index. */
  datatype Specifier = Specifier(
    idx: int, list: StreamList, listId: int, mediaType: MediaType, noApic: bool, usableOnly: bool,
    disposition: set<nat>, metaKey: Option<string>, metaVal: Option<string>, remainder: Option<string>)

  const DEFAULT := Specifier(-1, All, 0, Unknown, false, false, {}, None, None, None)

  const ATTACHED_PIC: nat := 10

  datatype Stream = Stream(
    id: int, mediaType: MediaType, disposition: set<nat>, metadata: seq<(string, string)>,
    sampleRate: nat, channels: nat, hasFormat: bool, width: nat, height: nat)

  datatype ProgramInfo = ProgramInfo(id: int, streams: seq<nat>)

  datatype Entry = StreamEntry(stream: nat) | OtherEntry

  datatype GroupInfo = GroupInfo(id: int, entries: seq<Entry>)

  datatype Context = Context(streams: seq<Stream>, programs: seq<ProgramInfo>, groups: seq<GroupInfo>) {
    ghost predicate Valid() {
      && (forall p, k :: p in programs && 0 <= k < |p.streams| ==> p.streams[k] < |streams|)
      && (forall g, k :: g in groups && 0 <= k < |g.entries| && g.entries[k].StreamEntry? ==>
            g.entries[k].stream < |streams|)
    }
  }

  function Upper(c: char): char { if 'a' <= c <= 'z' then (c as int - 32) as char else c }

  /** Dictionary keys are compared without regard to ASCII case. */
  predicate SameKey(a: string, b: string) {
    |a| == |b| && forall i :: 0 <= i < |a| ==> Upper(a[i]) == Upper(b[i])
  }

  function Lookup(metadata: seq<(string, string)>, key: string): Option<string> {
    if metadata == [] then None
    else if SameKey(metadata[0].0, key) then Some(metadata[0].1)
    else Lookup(metadata[1..], key)
  }

  predicate Usable(st: Stream) {
    match st.mediaType
    case Audio => st.sampleRate > 0 && st.channels > 0 && st.hasFormat
    case Video => st.width > 0 && st.height > 0 && st.hasFormat
    case Unknown => false
    case _ => true
  }

  /** The constraints of a specifier other than its list and index. */
  predicate Satisfies(ss: Specifier, st: Stream) {
    && (ss.mediaType != Unknown ==> ss.mediaType == st.mediaType && !(ss.noApic && ATTACHED_PIC in st.disposition))
    && (ss.metaKey.Some? ==>
          var tag := Lookup(st.metadata, ss.metaKey.value);
          tag.Some? && (ss.metaVal.Some? ==> tag == ss.metaVal))
    && (ss.usableOnly ==> Usable(st))
    && ss.disposition <= st.disposition
  }

  // ---------- the meaning ----------

  function FirstProgram(programs: seq<ProgramInfo>, id: int): Option<ProgramInfo> {
    if programs == [] then None else if programs[0].id == id then Some(programs[0]) else FirstProgram(programs[1..], id)
  }

  function FirstGroup(groups: seq<GroupInfo>, id: int): Option<GroupInfo> {
    if groups == [] then None else if groups[0].id == id then Some(groups[0]) else FirstGroup(groups[1..], id)
  }

  /** The designated list: all streams, those with the ID, or those of the first program or group designated. */
  function Designated(ss: Specifier, c: Context): seq<Entry> {
    match ss.list
    case All => seq(|c.streams|, (i: nat) => StreamEntry(i))
    case StreamId =>
      seq(|c.streams|, i requires 0 <= i < |c.streams| =>
        if c.streams[i].id == ss.listId then StreamEntry(i) else OtherEntry)
    case Program =>
      var p := FirstProgram(c.programs, ss.listId);
      if p.None? then []
      else seq(|p.value.streams|, i requires 0 <= i < |p.value.streams| => StreamEntry(p.value.streams[i]))
    case GroupId =>
      var g := FirstGroup(c.groups, ss.listId);
      if g.None? then [] else g.value.entries
    case GroupIdx =>
      if 0 <= ss.listId < |c.groups| then c.groups[ss.listId].entries else []
  }

  ghost predicate InContext(es: seq<Entry>, c: Context) {
    forall i :: 0 <= i < |es| && es[i].StreamEntry? ==> es[i].stream < |c.streams|
  }

  /** The streams of a list that satisfy the constraints, in order. */
  ghost function Candidates(ss: Specifier, c: Context, es: seq<Entry>): seq<nat>
    requires InContext(es, c)
  {
    if es == [] then []
    else
      var last := es[|es| - 1];
      Candidates(ss, c, es[..|es| - 1])
      + if last.StreamEntry? && Satisfies(ss, c.streams[last.stream]) then [last.stream] else []
  }

  ghost function FirstIndex(xs: seq<nat>, x: nat): Option<nat> {
    if xs == [] then None
    else
      var r := FirstIndex(xs[..|xs| - 1], x);
      if r.Some? then r else if xs[|xs| - 1] == x then Some(|xs| - 1) else None
  }

  /** The stream is a candidate and, with an index, stands at that place among the candidates. */
  ghost predicate Selects(ss: Specifier, xs: seq<nat>, st: nat) {
    var f := FirstIndex(xs, st);
    f.Some? && (ss.idx < 0 || ss.idx == f.value)
  }

  lemma {:induction false} DesignatedInContext(ss: Specifier, c: Context)
    requires c.Valid()
    ensures InContext(Designated(ss, c), c)
  {
    ProgramIsListed(c.programs, ss.listId);
    GroupIsListed(c.groups, ss.listId);
  }

  lemma {:induction false} ProgramIsListed(programs: seq<ProgramInfo>, id: int)
    ensures FirstProgram(programs, id).Some? ==> FirstProgram(programs, id).value in programs
  {
    if programs != [] { ProgramIsListed(programs[1..], id); }
  }

  lemma {:induction false} GroupIsListed(groups: seq<GroupInfo>, id: int)
    ensures FirstGroup(groups, id).Some? ==> FirstGroup(groups, id).value in groups
  {
    if groups != [] { GroupIsListed(groups[1..], id); }
  }

  lemma {:induction false} FirstIndexIs(xs: seq<nat>, x: nat)
    ensures var f := FirstIndex(xs, x);
            && (f.None? <==> x !in xs)
            && (f.Some? ==> f.value < |xs| && xs[f.value] == x && forall i :: 0 <= i < f.value ==> xs[i] != x)
  {
    if xs != [] { FirstIndexIs(xs[..|xs| - 1], x); }
  }

  /** Appending to a list does not change what is found in it. */
  lemma {:induction false} FirstIndexStays(xs: seq<nat>, ys: seq<nat>, x: nat)
    requires x in xs
    ensures FirstIndex(xs + ys, x) == FirstIndex(xs, x)
  {
    if ys == [] {
      assert xs + ys == xs;
    } else {
      FirstIndexStays(xs, ys[..|ys| - 1], x);
      assert (xs + ys)[..|xs + ys| - 1] == xs + ys[..|ys| - 1];
      FirstIndexIs(xs, x);
    }
  }

  lemma {:induction false} CandidatesExtend(ss: Specifier, c: Context, es: seq<Entry>, n: nat)
    requires InContext(es, c) && n <= |es|
    ensures exists ys :: Candidates(ss, c, es) == Candidates(ss, c, es[..n]) + ys
  {
    if n == |es| {
      assert es[..n] == es;
      assert Candidates(ss, c, es) == Candidates(ss, c, es[..n]) + [];
    } else {
      CandidatesExtend(ss, c, es[..|es| - 1], n);
      assert es[..|es| - 1][..n] == es[..n];
      var ys :| Candidates(ss, c, es[..|es| - 1]) == Candidates(ss, c, es[..n]) + ys;
      var last := es[|es| - 1];
      var more := if last.StreamEntry? && Satisfies(ss, c.streams[last.stream]) then [last.stream] else [];
      assert Candidates(ss, c, es) == Candidates(ss, c, es[..n]) + (ys + more);
    }
  }

  lemma {:induction false} CandidatesAreSatisfying(ss: Specifier, c: Context, es: seq<Entry>)
    requires InContext(es, c)
    ensures forall x: nat ::
              x in Candidates(ss, c, es) <==> StreamEntry(x) in es && x < |c.streams| && Satisfies(ss, c.streams[x])
  {
    if es != [] {
      var p, last := es[..|es| - 1], es[|es| - 1];
      CandidatesAreSatisfying(ss, c, p);
      assert es == p + [last];
      forall x: nat
        ensures x in Candidates(ss, c, es) <==> StreamEntry(x) in es && x < |c.streams| && Satisfies(ss, c.streams[x])
      {
        assert StreamEntry(x) in es <==> StreamEntry(x) in p || StreamEntry(x) == last;
        assert x in Candidates(ss, c, es) <==>
               x in Candidates(ss, c, p) || (last == StreamEntry(x) && Satisfies(ss, c.streams[x]));
      }
    }
  }

  ghost predicate Distinct(xs: seq<nat>) { forall i, j :: 0 <= i < j < |xs| ==> xs[i] != xs[j] }

  /** Without repeated entries an index picks the candidate at that place; without an index every candidate matches. */
  lemma SelectsByIndex(ss: Specifier, xs: seq<nat>, st: nat)
    requires Distinct(xs)
    ensures Selects(ss, xs, st) <==> if ss.idx < 0 then st in xs else ss.idx < |xs| && xs[ss.idx] == st
  {
    FirstIndexIs(xs, st);
  }

  /** Every index up to the number of candidates selects a stream exactly when no candidate is repeated. */
  lemma EveryIndexSelects(ss: Specifier, xs: seq<nat>)
    ensures (forall k :: 0 <= k < |xs| ==> Selects(ss.(idx := k), xs, xs[k])) <==> Distinct(xs)
  {
    forall k | 0 <= k < |xs|
      ensures Selects(ss.(idx := k), xs, xs[k]) <==> forall i :: 0 <= i < k ==> xs[i] != xs[k]
    {
      FirstIndexIs(xs, xs[k]);
    }
  }

  /** An index selects at most one stream, even from a list with repeated entries. */
  lemma IndexSelectsOne(ss: Specifier, xs: seq<nat>, a: nat, b: nat)
    requires ss.idx >= 0 && Selects(ss, xs, a) && Selects(ss, xs, b)
    ensures a == b
  {
    FirstIndexIs(xs, a);
    FirstIndexIs(xs, b);
  }

  // ---------- the matcher ----------

  /** The scan over a list: stops at the stream itself, counting the candidates before it. */
  method Scan(ss: Specifier, c: Context, es: seq<Entry>, st: nat) returns (m: bool)
    requires InContext(es, c) && st < |c.streams|
    ensures m <==> Selects(ss, Candidates(ss, c, es), st)
  {
    var nbMatched := 0;
    for i := 0 to |es|
      invariant nbMatched == |Candidates(ss, c, es[..i])| && st !in Candidates(ss, c, es[..i])
    {
      assert es[..i + 1][..i] == es[..i];
      if es[i].OtherEntry? { continue; }
      var candidate := c.streams[es[i].stream];
      if ss.mediaType != Unknown
         && (ss.mediaType != candidate.mediaType || (ss.noApic && ATTACHED_PIC in candidate.disposition)) { continue; }
      if ss.metaKey.Some? {
        var tag := Lookup(candidate.metadata, ss.metaKey.value);
        if tag.None? { continue; }
        if ss.metaVal.Some? && tag.value != ss.metaVal.value { continue; }
      }
      if ss.usableOnly {
        var skip := false;
        match candidate.mediaType {
          case Audio => skip := candidate.sampleRate == 0 || candidate.channels == 0 || !candidate.hasFormat;
          case Video => skip := candidate.width == 0 || candidate.height == 0 || !candidate.hasFormat;
          case Unknown => skip := true;
          case _ =>
        }
        if skip { continue; }
      }
      if ss.disposition != {} && !(ss.disposition <= candidate.disposition) { continue; }
      assert Satisfies(ss, candidate);
      if st == es[i].stream {
        Decided(ss, c, es, i, st);
        return ss.idx < 0 || ss.idx == nbMatched;
      }
      nbMatched := nbMatched + 1;
    }
    assert es[..|es|] == es;
    FirstIndexIs(Candidates(ss, c, es), st);
    return false;
  }

  lemma Decided(ss: Specifier, c: Context, es: seq<Entry>, i: nat, st: nat)
    requires InContext(es, c) && i < |es| && es[i] == StreamEntry(st) && Satisfies(ss, c.streams[st])
    requires st !in Candidates(ss, c, es[..i])
    ensures FirstIndex(Candidates(ss, c, es), st) == Some(|Candidates(ss, c, es[..i])|)
  {
    assert es[..i + 1][..i] == es[..i];
    var before := Candidates(ss, c, es[..i]);
    assert Candidates(ss, c, es[..i + 1]) == before + [st];
    FirstIndexAppend(before, st);
    CandidatesExtend(ss, c, es, i + 1);
    var ys :| Candidates(ss, c, es) == before + [st] + ys;
    FirstIndexStays(before + [st], ys, st);
  }

  lemma FirstIndexAppend(xs: seq<nat>, x: nat)
    requires x !in xs
    ensures FirstIndex(xs + [x], x) == Some(|xs|)
  {
    FirstIndexIs(xs + [x], x);
  }

  /** stream_specifier_match: scans only as much of the list as can matter. */
  method Match(ss: Specifier, c: Context, st: nat) returns (m: bool)
    requires c.Valid() && st < |c.streams| && (ss.list.StreamId? ==> ss.idx < 0)
    ensures InContext(Designated(ss, c), c)
    ensures m <==> Selects(ss, Candidates(ss, c, Designated(ss, c)), st)
  {
    DesignatedInContext(ss, c);
    var list := Designated(ss, c);
    match ss.list {
      case StreamId =>
        OwnEntryDecides(ss, c, list, st);
        assert list[st] in list;
        if c.streams[st].id != ss.listId {
          assert StreamEntry(st) !in list;
          return false;
        }
        m := Scan(ss, c, [StreamEntry(st)], st);
        assert m <==> Selects(ss, Candidates(ss, c, list), st);
      case All =>
        if ss.idx >= 0 {
          PrefixDecides(ss, c, list, st);
          m := Scan(ss, c, seq(st + 1, (i: nat) => StreamEntry(i)), st);
          assert seq(st + 1, (i: nat) => StreamEntry(i)) == list[..st + 1];
          assert m <==> Selects(ss, Candidates(ss, c, list), st);
        } else {
          OwnEntryDecides(ss, c, list, st);
          m := Scan(ss, c, [StreamEntry(st)], st);
          assert list[st] in list;
          assert m <==> Selects(ss, Candidates(ss, c, list), st);
        }
      case Program =>
        var p := FirstProgram(c.programs, ss.listId);
        if p.None? { FirstIndexIs([], st); return false; }
        m := Scan(ss, c, list, st);
      case GroupId =>
        var g := FirstGroup(c.groups, ss.listId);
        if g.None? { FirstIndexIs([], st); return false; }
        m := Scan(ss, c, list, st);
      case GroupIdx =>
        if !(0 <= ss.listId < |c.groups|) { FirstIndexIs([], st); return false; }
        m := Scan(ss, c, list, st);
    }
  }

  /** Without an index only the stream's own entry matters. */
  lemma OwnEntryDecides(ss: Specifier, c: Context, es: seq<Entry>, st: nat)
    requires InContext(es, c) && st < |c.streams| && ss.idx < 0
    ensures Selects(ss, Candidates(ss, c, es), st) <==> StreamEntry(st) in es && Satisfies(ss, c.streams[st])
    ensures Selects(ss, Candidates(ss, c, [StreamEntry(st)]), st) <==> Satisfies(ss, c.streams[st])
  {
    CandidatesAreSatisfying(ss, c, es);
    CandidatesAreSatisfying(ss, c, [StreamEntry(st)]);
    FirstIndexIs(Candidates(ss, c, es), st);
    FirstIndexIs(Candidates(ss, c, [StreamEntry(st)]), st);
  }

  /** In the list of all streams the entries after the stream's own do not matter. */
  lemma PrefixDecides(ss: Specifier, c: Context, es: seq<Entry>, st: nat)
    requires InContext(es, c) && |es| == |c.streams| && st < |es|
    requires forall i :: 0 <= i < |es| ==> es[i] == StreamEntry(i)
    ensures Selects(ss, Candidates(ss, c, es), st) <==> Selects(ss, Candidates(ss, c, es[..st + 1]), st)
  {
    var xs := Candidates(ss, c, es[..st + 1]);
    CandidatesExtend(ss, c, es, st + 1);
    var ys :| Candidates(ss, c, es) == xs + ys;
    CandidatesAreSatisfying(ss, c, es);
    CandidatesAreSatisfying(ss, c, es[..st + 1]);
    FirstIndexIs(Candidates(ss, c, es), st);
    FirstIndexIs(xs, st);
    if Satisfies(ss, c.streams[st]) {
      assert es[..st + 1][st] == StreamEntry(st);
      FirstIndexStays(xs, ys, st);
    }
  }

  /**
   * The matcher's meaning for lists without repeats: the stream satisfies the constraints, is in the designated list
   * and, when there is an index, exactly that many satisfying entries precede it.
   */
  lemma MatchMeaning(ss: Specifier, c: Context, st: nat)
    requires c.Valid() && st < |c.streams|
    requires var es := Designated(ss, c); forall i, j :: 0 <= i < j < |es| && es[i].StreamEntry? ==> es[i] != es[j]
    ensures InContext(Designated(ss, c), c)
    ensures var xs := Candidates(ss, c, Designated(ss, c));
            && (Selects(ss, xs, st) ==> StreamEntry(st) in Designated(ss, c) && Satisfies(ss, c.streams[st]))
            && (Selects(ss, xs, st) <==> if ss.idx < 0 then st in xs else ss.idx < |xs| && xs[ss.idx] == st)
  {
    DesignatedInContext(ss, c);
    var es := Designated(ss, c);
    var xs := Candidates(ss, c, es);
    CandidatesDistinct(ss, c, es);
    SelectsByIndex(ss, xs, st);
    CandidatesAreSatisfying(ss, c, es);
    FirstIndexIs(xs, st);
  }

  lemma {:induction false} CandidatesDistinct(ss: Specifier, c: Context, es: seq<Entry>)
    requires InContext(es, c) && forall i, j :: 0 <= i < j < |es| && es[i].StreamEntry? ==> es[i] != es[j]
    ensures Distinct(Candidates(ss, c, es))
  {
    if es != [] {
      var p := es[..|es| - 1];
      var last := es[|es| - 1];
      CandidatesDistinct(ss, c, p);
      CandidatesAreSatisfying(ss, c, p);
      if last.StreamEntry? { assert forall i :: 0 <= i < |p| ==> p[i] != last; }
    }
  }

  /**
   * In a program that listed stream 0 twice, index 1 would select nothing although the second of its streams is there.
   * The libraries refuse to add a stream twice, so such lists do not arise.
   */
  lemma RepeatsLoseAnIndex(s: Stream, t: Stream)
    ensures var c := Context([s, t], [ProgramInfo(7, [0, 0, 1])], []);
            var ss := DEFAULT.(idx := 1, list := Program, listId := 7);
            && c.Valid() && InContext(Designated(ss, c), c)
            && Candidates(ss, c, Designated(ss, c)) == [0, 0, 1]
            && forall st :: !Selects(ss, Candidates(ss, c, Designated(ss, c)), st)
  {
    var c := Context([s, t], [ProgramInfo(7, [0, 0, 1])], []);
    var ss := DEFAULT.(idx := 1, list := Program, listId := 7);
    var zero, one := StreamEntry(0), StreamEntry(1);
    assert Designated(ss, c) == [zero, zero, one];
    assert Satisfies(ss, s) && Satisfies(ss, t);
    assert [zero, zero, one][..2] == [zero, zero] && [zero, zero][..1] == [zero] && [zero][..0] == [];
    assert Candidates(ss, c, [zero]) == [0];
    assert Candidates(ss, c, [zero, zero]) == [0, 0];
    assert Candidates(ss, c, [zero, zero, one]) == [0, 0, 1];
    forall st ensures FirstIndex([0, 0, 1], st) != Some(1) { FirstIndexIs([0, 0, 1], st); }
  }

  // ---------- the tables a specifier refers to ----------

  /** Two characters that are equal, or the two cases of one ASCII letter. */
  predicate SameLetter(x: char, y: char) {
    || x == y
    || ('a' <= x <= 'z' && y as int == x as int - 32) || ('a' <= y <= 'z' && x as int == y as int - 32)
  }

  /** Keys are the same when they agree up to the case of ASCII letters. */
  lemma SameKeyIff(a: string, b: string)
    ensures SameKey(a, b) <==> |a| == |b| && forall i :: 0 <= i < |a| ==> SameLetter(a[i], b[i])
  {
    if |a| == |b| {
      forall i | 0 <= i < |a| ensures Upper(a[i]) == Upper(b[i]) <==> SameLetter(a[i], b[i]) {}
    }
  }

  /** The tag found is the first with the key, and none is found exactly when none has it. */
  lemma {:induction false} LookupIs(metadata: seq<(string, string)>, key: string)
    ensures var r := Lookup(metadata, key);
            && (r.None? <==> forall i :: 0 <= i < |metadata| ==> !SameKey(metadata[i].0, key))
            && (r.Some? ==> exists i :: 0 <= i < |metadata| && SameKey(metadata[i].0, key) && metadata[i].1 == r.value
                                        && forall j :: 0 <= j < i ==> !SameKey(metadata[j].0, key))
  {
    if metadata != [] {
      var rest := metadata[1..];
      LookupIs(rest, key);
      assert forall i :: 0 <= i < |rest| ==> rest[i] == metadata[i + 1];
      if SameKey(metadata[0].0, key) {
        assert metadata[0].1 == Lookup(metadata, key).value;
      } else if Lookup(rest, key).Some? {
        var i :| 0 <= i < |rest| && SameKey(rest[i].0, key) && rest[i].1 == Lookup(rest, key).value
                 && forall j :: 0 <= j < i ==> !SameKey(rest[j].0, key);
        forall j | 0 <= j < i + 1 ensures !SameKey(metadata[j].0, key) {
          if j > 0 { assert metadata[j] == rest[j - 1]; }
        }
        assert metadata[i + 1] == rest[i];
      } else {
        forall i | 0 <= i < |metadata| ensures !SameKey(metadata[i].0, key) {
          if i > 0 { assert metadata[i] == rest[i - 1]; }
        }
      }
    }
  }

  /** Number i is the first with the ID. */
  ghost predicate LeadsPrograms(programs: seq<ProgramInfo>, id: int, i: nat) {
    i < |programs| && programs[i].id == id && forall j :: 0 <= j < i ==> programs[j].id != id
  }

  ghost predicate LeadsGroups(groups: seq<GroupInfo>, id: int, i: nat) {
    i < |groups| && groups[i].id == id && forall j :: 0 <= j < i ==> groups[j].id != id
  }

  lemma {:induction false} FirstProgramIs(programs: seq<ProgramInfo>, id: int, i: nat)
    requires LeadsPrograms(programs, id, i)
    ensures FirstProgram(programs, id) == Some(programs[i])
  {
    if i > 0 { FirstProgramIs(programs[1..], id, i - 1); }
  }

  lemma {:induction false} NoProgram(programs: seq<ProgramInfo>, id: int)
    requires forall j :: 0 <= j < |programs| ==> programs[j].id != id
    ensures FirstProgram(programs, id) == None
  {
    if programs != [] { NoProgram(programs[1..], id); }
  }

  lemma {:induction false} FirstGroupIs(groups: seq<GroupInfo>, id: int, i: nat)
    requires LeadsGroups(groups, id, i)
    ensures FirstGroup(groups, id) == Some(groups[i])
  {
    if i > 0 { FirstGroupIs(groups[1..], id, i - 1); }
  }

  lemma {:induction false} NoGroup(groups: seq<GroupInfo>, id: int)
    requires forall j :: 0 <= j < |groups| ==> groups[j].id != id
    ensures FirstGroup(groups, id) == None
  {
    if groups != [] { NoGroup(groups[1..], id); }
  }

  /** The specifier designates a program or group that does not exist. */
  ghost predicate Dangling(ss: Specifier, c: Context) {
    match ss.list
    case Program => forall j :: 0 <= j < |c.programs| ==> c.programs[j].id != ss.listId
    case GroupId => forall j :: 0 <= j < |c.groups| ==> c.groups[j].id != ss.listId
    case GroupIdx => !(0 <= ss.listId < |c.groups|)
    case _ => false
  }

  /** The streams a specifier looks at: all, those with the ID, or those of the first program or group designated. */
  lemma DesignatesIff(ss: Specifier, c: Context, st: nat)
    requires st < |c.streams|
    ensures ss.list.All? ==> StreamEntry(st) in Designated(ss, c)
    ensures ss.list.StreamId? ==> (StreamEntry(st) in Designated(ss, c) <==> c.streams[st].id == ss.listId)
    ensures ss.list.Program? ==> forall i: nat :: LeadsPrograms(c.programs, ss.listId, i) ==>
              (StreamEntry(st) in Designated(ss, c) <==> st in c.programs[i].streams)
    ensures ss.list.GroupId? ==> forall i: nat :: LeadsGroups(c.groups, ss.listId, i) ==>
              (StreamEntry(st) in Designated(ss, c) <==> StreamEntry(st) in c.groups[i].entries)
    ensures ss.list.GroupIdx? && 0 <= ss.listId < |c.groups| ==>
              (StreamEntry(st) in Designated(ss, c) <==> StreamEntry(st) in c.groups[ss.listId].entries)
    ensures Dangling(ss, c) ==> Designated(ss, c) == []
  {
    var es := Designated(ss, c);
    match ss.list
    case All => assert es[st] == StreamEntry(st);
    case StreamId => assert c.streams[st].id == ss.listId ==> es[st] == StreamEntry(st);
    case Program =>
      if Dangling(ss, c) { NoProgram(c.programs, ss.listId); }
      forall i: nat | LeadsPrograms(c.programs, ss.listId, i)
        ensures StreamEntry(st) in Designated(ss, c) <==> st in c.programs[i].streams
      {
        FirstProgramIs(c.programs, ss.listId, i);
        var streams := c.programs[i].streams;
        if st in streams {
          var k :| 0 <= k < |streams| && streams[k] == st;
          assert es[k] == StreamEntry(st);
        }
      }
    case GroupId =>
      if Dangling(ss, c) { NoGroup(c.groups, ss.listId); }
      forall i: nat | LeadsGroups(c.groups, ss.listId, i)
        ensures StreamEntry(st) in Designated(ss, c) <==> StreamEntry(st) in c.groups[i].entries
      {
        FirstGroupIs(c.groups, ss.listId, i);
      }
    case GroupIdx =>
  }

  /** Tag i is the first with the key. */
  ghost predicate LeadsTags(metadata: seq<(string, string)>, key: string, i: nat) {
    i < |metadata| && SameKey(metadata[i].0, key) && forall j :: 0 <= j < i ==> !SameKey(metadata[j].0, key)
  }

  /** The stream's first tag with the key exists, and has the value when one is asked for. */
  ghost predicate Tagged(st: Stream, key: string, val: Option<string>) {
    exists i: nat :: LeadsTags(st.metadata, key, i) && (val == None || val == Some(st.metadata[i].1))
  }

  /** The constraints of a specifier, one by one. */
  lemma SatisfiesIff(ss: Specifier, st: Stream)
    ensures Satisfies(ss, st) <==>
            && (ss.mediaType == Unknown || (ss.mediaType == st.mediaType && !(ss.noApic && 10 in st.disposition)))
            && (ss.metaKey == None || Tagged(st, ss.metaKey.value, ss.metaVal))
            && (ss.usableOnly ==>
                  match st.mediaType
                  case Audio => st.sampleRate != 0 && st.channels != 0 && st.hasFormat
                  case Video => st.width != 0 && st.height != 0 && st.hasFormat
                  case Unknown => false
                  case _ => true)
            && (forall d :: d in ss.disposition ==> d in st.disposition)
  {
    if ss.metaKey.Some? { LookupIs(st.metadata, ss.metaKey.value); TaggedIs(st, ss.metaKey.value, ss.metaVal); }
  }

  lemma TaggedIs(st: Stream, key: string, val: Option<string>)
    ensures var tag := Lookup(st.metadata, key);
            Tagged(st, key, val) <==> tag.Some? && (val == None || val == tag)
  {
    LookupIs(st.metadata, key);
    var tag := Lookup(st.metadata, key);
    if tag.Some? {
      var i :| 0 <= i < |st.metadata| && SameKey(st.metadata[i].0, key) && tag == Some(st.metadata[i].1)
               && forall j :: 0 <= j < i ==> !SameKey(st.metadata[j].0, key);
      assert LeadsTags(st.metadata, key, i);
    }
  }
}

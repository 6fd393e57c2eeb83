/**
  The VEVENT extraction in doPost (import_ics.js): the posted calendar text is split on
  `BEGIN:VEVENT`, the text before the first marker is dropped, and each remaining block is searched
  for a DTSTART, a DTEND and a SUMMARY property (sections 3.8.2.4, 3.8.2.2 and 3.8.1.12 of
  RFC 5545). A block yields the triple (title, start, end) that would be created in the calendar
  when all three are found and both times parse. The regular expressions are written out as the
  JavaScript engine runs them: the leftmost starting position wins, greedy parts take as much as
  they can and give back only what the rest of the pattern needs.
*/
module IcsImport {
  import opened Wrappers
  import opened Text
  import opened IcsTime

  const Marker: string := "BEGIN:VEVENT"

  /** The marker occurs at `k`. */
  predicate MarkerAt(s: string, k: int) {
    OccursAt(s, Marker, k)
  }

  /** `s.split("BEGIN:VEVENT")`: the text between successive occurrences, found left to right. */
  function Split(s: string): (r: seq<string>)
    ensures |r| >= 1
    decreases |s|
  {
    match Leftmost(s, MarkerAt, 0)
    case None => [s]
    case Some(k) => [s[..k]] + Split(s[k + |Marker|..])
  }

  /** The inverse of Split: the pieces with the marker put back between them. */
  function Join(pieces: seq<string>): string
    requires |pieces| >= 1
  {
    if |pieces| == 1 then pieces[0] else pieces[0] + Marker + Join(pieces[1..])
  }

  /** The marker occurs nowhere in `s`. */
  ghost predicate NoMarker(s: string) {
    forall k :: !MarkerAt(s, k)
  }

  /** An occurrence inside a prefix is an occurrence in the whole text. */
  lemma MarkerInPrefix(s: string, n: int, k: int)
    requires 0 <= n <= |s| && MarkerAt(s[..n], k)
    ensures MarkerAt(s, k) && k + |Marker| <= n
  {
    assert s[..n][k..k + |Marker|] == s[k..k + |Marker|];
  }

  /** Nothing is lost: putting the marker back between the pieces gives the text again. */
  lemma {:induction false} SplitJoin(s: string)
    ensures Join(Split(s)) == s
    decreases |s|
  {
    match Leftmost(s, MarkerAt, 0)
    case None =>
    case Some(k) =>
      var rest := s[k + |Marker|..];
      var r := Split(s);
      assert r == [s[..k]] + Split(rest);
      SplitJoin(rest);
      assert r[0] == s[..k] && r[1..] == Split(rest);
      assert Join(r) == s[..k] + Marker + Join(Split(rest));
      assert s[k..k + |Marker|] == Marker;
      assert s == s[..k] + Marker + rest;
  }

  /** No piece contains the marker. */
  lemma {:induction false} SplitPieces(s: string)
    ensures forall piece :: piece in Split(s) ==> NoMarker(piece)
    decreases |s|
  {
    LeftmostSpec(s, MarkerAt, 0);
    match Leftmost(s, MarkerAt, 0)
    case None =>
      forall k
        ensures !MarkerAt(s, k)
      {
        if 0 <= k <= |s| {
          assert !MarkerAt(s, k);
        }
      }
    case Some(k) =>
      SplitPieces(s[k + |Marker|..]);
      forall m
        ensures !MarkerAt(s[..k], m)
      {
        if MarkerAt(s[..k], m) {
          MarkerInPrefix(s, k, m);
          assert false;
        }
      }
  }

  /**
    The marker cannot begin inside a text that lacks it and end inside a copy of itself that
    follows: its first letter `B` occurs in it only once.
  */
  lemma NoStraddle(pre: string, rest: string, k: int)
    requires NoMarker(pre) && 0 <= k < |pre|
    ensures !MarkerAt(pre + Marker + rest, k)
  {
    var s := pre + Marker + rest;
    if k + |Marker| <= |pre| {
      assert pre[k..k + |Marker|] == s[k..k + |Marker|];
      assert !MarkerAt(pre, k);
    } else if k + |Marker| <= |s| {
      var d := |pre| - k;
      assert s[k..k + |Marker|][d] == s[|pre|] == 'B';
      assert Marker[d] != 'B';
    }
  }

  /** The first occurrence after a marker-free text is the one right after it. */
  lemma SplitAfter(pre: string, rest: string)
    requires NoMarker(pre)
    ensures Split(pre + Marker + rest) == [pre] + Split(rest)
  {
    var s := pre + Marker + rest;
    forall k | 0 <= k < |pre|
      ensures !MarkerAt(s, k)
    {
      NoStraddle(pre, rest, k);
    }
    assert s[|pre|..|pre| + |Marker|] == Marker;
    LeftmostAt(s, MarkerAt, 0, |pre|);
    assert s[..|pre|] == pre;
    assert s[|pre| + |Marker|..] == rest;
  }

  /** Splitting a join of marker-free pieces gives the pieces back. */
  lemma {:induction false} JoinSplit(pieces: seq<string>)
    requires |pieces| >= 1 && forall piece :: piece in pieces ==> NoMarker(piece)
    ensures Split(Join(pieces)) == pieces
  {
    if |pieces| == 1 {
      SplitWhole(pieces[0]);
    } else {
      var rest := pieces[1..];
      assert pieces[0] in pieces;
      assert forall piece :: piece in rest ==> piece in pieces;
      JoinSplit(rest);
      SplitAfter(pieces[0], Join(rest));
      assert Join(pieces) == pieces[0] + Marker + Join(rest);
      assert [pieces[0]] + rest == pieces;
    }
  }

  /** A text without the marker is not split. */
  lemma SplitWhole(s: string)
    requires NoMarker(s)
    ensures Split(s) == [s]
  {
    LeftmostSpec(s, MarkerAt, 0);
  }

  /** A line terminator of ECMAScript, which `.` does not match. */
  predicate IsLineTerminator(c: char) {
    c == '\n' || c == '\r' || c == '\U{2028}' || c == '\U{2029}'
  }

  /** Where `(.*)` stops: at a line terminator or at the end of the text. */
  predicate LineEndAt(s: string, k: int) {
    k == |s| || (0 <= k < |s| && IsLineTerminator(s[k]))
  }

  /** A colon at `k`: where `[^:]*` stops. */
  predicate ColonAt(s: string, k: int) {
    0 <= k < |s| && s[k] == ':'
  }

  /**
    The group `(\d{8}T\d{6}(?:[+-]\d{4})?)` at `c`, where a stamp begins: the stamp, and the
    signed four-digit offset after it when there is one. A `Z` is not part of the group.
  */
  function Capture(s: string, c: int): (cap: string)
    requires StampAt(s, c)
    ensures |cap| == 15 || |cap| == 20
    ensures c + |cap| <= |s| && cap == s[c..c + |cap|]
    ensures IsStamp(cap[..15])
    ensures |cap| == 20 <==> c + 20 <= |s| && (s[c + 15] == '+' || s[c + 15] == '-') && AllDigits(s[c + 16..c + 20])
  {
    var cap := if c + 20 <= |s| && (s[c + 15] == '+' || s[c + 15] == '-') && AllDigits(s[c + 16..c + 20])
      then s[c..c + 20] else s[c..c + 15];
    assert cap[..15] == s[c..c + 15];
    cap
  }

  /**
    `NAME(?:;TZID=[^:]*)?:(\d{8}T\d{6}(?:[+-]\d{4})?)` tried at position `j`. After the name, the
    optional group is tried first: `;TZID=` and then everything up to the first colon, which must
    be followed by a stamp. Without `;TZID=` the name must be followed by a colon and a stamp.
  */
  function PropertyAt(s: string, name: string, j: int): (r: Option<string>)
    ensures r.Some? ==> OccursAt(s, name, j) && |r.value| >= 15 && IsStamp(r.value[..15])
  {
    if !OccursAt(s, name, j) then None
    else
      var q := j + |name|;
      if OccursAt(s, ";TZID=", q) then
        match Leftmost(s, ColonAt, q + 6)
        case None => None
        case Some(e) => if StampAt(s, e + 1) then Some(Capture(s, e + 1)) else None
      else if q < |s| && s[q] == ':' && StampAt(s, q + 1) then Some(Capture(s, q + 1))
      else None
  }

  /** `NAME:` followed by a stamp matches, and the group is the stamp with its offset, if any. */
  lemma PlainPropertyMatches(s: string, name: string, j: int)
    requires OccursAt(s, name + ":", j) && StampAt(s, j + |name| + 1)
    ensures PropertyAt(s, name, j) == Some(Capture(s, j + |name| + 1))
  {
    var q := j + |name|;
    OccursSplit(s, name, ":", j);
    assert s[q] == s[q..q + 1][0] == ':';
    assert !OccursAt(s, ";TZID=", q) by {
      assert ";TZID="[0] == ';';
    }
  }

  /**
    `NAME;TZID=zone:` followed by a stamp matches, `zone` being everything up to the first colon,
    and the group is the stamp after that colon.
  */
  lemma TzidPropertyMatches(s: string, name: string, j: int, e: int)
    requires OccursAt(s, name, j) && OccursAt(s, ";TZID=", j + |name|)
    requires j + |name| + 6 <= e && ColonAt(s, e) && StampAt(s, e + 1)
    requires forall k :: j + |name| + 6 <= k < e ==> !ColonAt(s, k)
    ensures PropertyAt(s, name, j) == Some(Capture(s, e + 1))
  {
    LeftmostAt(s, ColonAt, j + |name| + 6, e);
  }

  /** Where `a + b` occurs, `a` occurs, and `b` right after it. */
  lemma OccursSplit(s: string, a: string, b: string, j: int)
    requires OccursAt(s, a + b, j)
    ensures OccursAt(s, a, j) && OccursAt(s, b, j + |a|)
  {
    var whole := s[j..j + |a| + |b|];
    assert whole == a + b;
    forall i | 0 <= i < |a|
      ensures s[j + i] == a[i]
    {
      assert s[j + i] == whole[i] == (a + b)[i];
    }
    forall i | 0 <= i < |b|
      ensures s[j + |a| + i] == b[i]
    {
      assert s[j + |a| + i] == whole[|a| + i] == (a + b)[|a| + i];
    }
    assert s[j..j + |a|] == a;
    assert s[j + |a|..j + |a| + |b|] == b;
  }

  predicate DtStartAt(s: string, j: int) {
    PropertyAt(s, "DTSTART", j).Some?
  }

  predicate DtEndAt(s: string, j: int) {
    PropertyAt(s, "DTEND", j).Some?
  }

  /** `eventText.match(/DTSTART.../)[1]`, or None where the match is null. */
  function DtStart(s: string): (r: Option<string>)
    ensures r.Some? ==> |r.value| >= 15 && IsStamp(r.value[..15])
  {
    match Leftmost(s, DtStartAt, 0)
    case None => None
    case Some(j) => PropertyAt(s, "DTSTART", j)
  }

  /** `eventText.match(/DTEND.../)[1]`, or None where the match is null. */
  function DtEnd(s: string): (r: Option<string>)
    ensures r.Some? ==> |r.value| >= 15 && IsStamp(r.value[..15])
  {
    match Leftmost(s, DtEndAt, 0)
    case None => None
    case Some(j) => PropertyAt(s, "DTEND", j)
  }

  /** The DTSTART value comes from the first place where the property matches. */
  lemma DtStartFirst(s: string, j: int)
    requires DtStartAt(s, j) && forall k :: 0 <= k < j ==> !DtStartAt(s, k)
    ensures DtStart(s) == PropertyAt(s, "DTSTART", j)
  {
    LeftmostAt(s, DtStartAt, 0, j);
  }

  /** The DTSTART match is null exactly when the property matches nowhere. */
  lemma DtStartNone(s: string)
    ensures DtStart(s).None? <==> forall j :: !DtStartAt(s, j)
  {
    LeftmostSpec(s, DtStartAt, 0);
    if DtStart(s).None? {
      forall j
        ensures !DtStartAt(s, j)
      {
        if 0 <= j <= |s| {
          assert !DtStartAt(s, j);
        }
      }
    }
  }

  /** The DTEND value comes from the first place where the property matches. */
  lemma DtEndFirst(s: string, j: int)
    requires DtEndAt(s, j) && forall k :: 0 <= k < j ==> !DtEndAt(s, k)
    ensures DtEnd(s) == PropertyAt(s, "DTEND", j)
  {
    LeftmostAt(s, DtEndAt, 0, j);
  }

  /** The DTEND match is null exactly when the property matches nowhere. */
  lemma DtEndNone(s: string)
    ensures DtEnd(s).None? <==> forall j :: !DtEndAt(s, j)
  {
    LeftmostSpec(s, DtEndAt, 0);
    if DtEnd(s).None? {
      forall j
        ensures !DtEndAt(s, j)
      {
        if 0 <= j <= |s| {
          assert !DtEndAt(s, j);
        }
      }
    }
  }

  predicate SummaryAt(s: string, j: int) {
    OccursAt(s, "SUMMARY:", j)
  }

  /** `eventText.match(/SUMMARY:(.*)/)[1]`: the rest of the line after the first `SUMMARY:`. */
  function Summary(s: string): Option<string> {
    match Leftmost(s, SummaryAt, 0)
    case None => None
    case Some(j) =>
      match Leftmost(s, LineEndAt, j + 8)
      case None => None
      case Some(e) => Some(s[j + 8..e])
  }

  /** The event that `cal.createEvent(title, start, end)` is given; times in epoch milliseconds. */
  datatype Entry = Entry(title: string, start: int, end: int)

  /** What one block contributes: an entry when all three properties match and both times parse. */
  function EntryOf(block: string): Option<Entry> {
    match (DtStart(block), DtEnd(block), Summary(block))
    case (Some(a), Some(b), Some(title)) =>
      (match (ParseIcsTime(a), ParseIcsTime(b))
       case (Some(start), Some(end)) => Some(Entry(title, start, end))
       case _ => None)
    case _ => None
  }

  /**
    The values `f` gives for the elements of `xs` where it gives one, in order: a loop that
    appends to a list only for the elements passing its checks.
  */
  function FilterMap<A, B>(xs: seq<A>, f: A -> Option<B>): seq<B>
    decreases |xs|
  {
    if xs == [] then []
    else
      var last := f(xs[|xs| - 1]);
      FilterMap(xs[..|xs| - 1], f) + (if last.Some? then [last.value] else [])
  }

  /** The entries of the blocks, in order. */
  function Entries(blocks: seq<string>): seq<Entry> {
    FilterMap(blocks, EntryOf)
  }

  /** The events doPost creates from the posted text: one per qualifying block after the first marker. */
  function Extract(ics: string): seq<Entry> {
    Entries(Split(ics)[1..])
  }

  /** The body of the `forEach`: the three matches, the two parses and the checks on them. */
  method ReadBlock(block: string) returns (entry: Option<Entry>)
    ensures entry == EntryOf(block)
  {
    entry := None;
    var dtStart := DtStart(block);
    var dtEnd := DtEnd(block);
    var summary := Summary(block);
    if dtStart.Some? && dtEnd.Some? && summary.Some? {
      var start := ParseIcsTime(dtStart.value);
      var end := ParseIcsTime(dtEnd.value);
      if start.Some? && end.Some? {
        entry := Some(Entry(summary.value, start.value, end.value));
      }
    }
  }

  /** The `forEach` over the blocks, collecting what `cal.createEvent` would be called with. */
  method ExtractEvents(ics: string) returns (created: seq<Entry>)
    ensures created == Extract(ics)
  {
    var blocks := Split(ics)[1..];
    created := [];
    var i := 0;
    while i < |blocks|
      invariant 0 <= i <= |blocks|
      invariant created == Entries(blocks[..i])
    {
      var entry := ReadBlock(blocks[i]);
      if entry.Some? {
        created := created + [entry.value];
      }
      FilterMapStep(blocks, i, EntryOf);
      i := i + 1;
    }
    assert blocks[..i] == blocks;
  }

  /** Each element gives at most one value, and the values keep the order of the elements. */
  lemma {:induction false} FilterMapAppend<A, B>(xs: seq<A>, ys: seq<A>, f: A -> Option<B>)
    ensures FilterMap(xs + ys, f) == FilterMap(xs, f) + FilterMap(ys, f)
    decreases |ys|
  {
    if ys == [] {
      assert xs + ys == xs;
    } else {
      var init := ys[..|ys| - 1];
      assert (xs + ys)[..|xs + ys| - 1] == xs + init;
      assert (xs + ys)[|xs + ys| - 1] == ys[|ys| - 1];
      FilterMapAppend(xs, init, f);
    }
  }

  /** One more element adds its value, if it has one, at the end. */
  lemma FilterMapStep<A, B>(xs: seq<A>, i: int, f: A -> Option<B>)
    requires 0 <= i < |xs|
    ensures FilterMap(xs[..i + 1], f) == FilterMap(xs[..i], f) + (if f(xs[i]).Some? then [f(xs[i]).value] else [])
  {
    assert xs[..i + 1][..i] == xs[..i];
  }

  lemma {:induction false} FilterMapBound<A, B>(xs: seq<A>, f: A -> Option<B>)
    ensures |FilterMap(xs, f)| <= |xs|
    decreases |xs|
  {
    if xs != [] {
      FilterMapBound(xs[..|xs| - 1], f);
    }
  }

  /** Blocks contribute their entries independently and in order, at most one each. */
  lemma EntriesAppend(xs: seq<string>, ys: seq<string>)
    ensures Entries(xs + ys) == Entries(xs) + Entries(ys)
    ensures |Entries(xs)| <= |xs|
  {
    FilterMapAppend(xs, ys, EntryOf);
    FilterMapBound(xs, EntryOf);
  }

  /** A single block contributes its entry, if it has one. */
  lemma EntriesSingle(block: string)
    ensures Entries([block]) == if EntryOf(block).Some? then [EntryOf(block).value] else []
  {
    FilterMapSingle(block, EntryOf);
  }

  lemma FilterMapSingle<A, B>(x: A, f: A -> Option<B>)
    ensures FilterMap([x], f) == if f(x).Some? then [f(x).value] else []
  {
    assert [x][..0] == [];
  }

  /** Whatever precedes the first marker has no effect. */
  lemma PreambleIgnored(pre: string, rest: string)
    requires NoMarker(pre)
    ensures Extract(pre + Marker + rest) == Entries(Split(rest))
  {
    SplitAfter(pre, rest);
    assert ([pre] + Split(rest))[1..] == Split(rest);
  }

  /** The blocks joined under markers give one entry per qualifying block, in order. */
  lemma ExtractBlocks(pre: string, blocks: seq<string>)
    requires NoMarker(pre) && forall b :: b in blocks ==> NoMarker(b)
    ensures Extract(Join([pre] + blocks)) == Entries(blocks)
  {
    var pieces := [pre] + blocks;
    forall piece | piece in pieces
      ensures NoMarker(piece)
    {
      if piece != pre {
        assert piece in blocks;
      }
    }
    JoinSplit(pieces);
    assert pieces[1..] == blocks;
  }

  /** A block holding one timed event, with CRLF line ends: its start, its end, then its title. */
  function TimedBlock(st1: string, st2: string, t: string): string {
    "DTSTART:" + st1 + "\r\nDTEND:" + st2 + "\r\nSUMMARY:" + t
  }

  /** Where each part of a timed block lies. */
  lemma TimedBlockLayout(st1: string, st2: string, t: string)
    requires |st1| == 15 && |st2| == 15
    ensures var b := TimedBlock(st1, st2, t);
      && |b| == 56 + |t|
      && b[..8] == "DTSTART:" && b[8..23] == st1 && b[23] == '\r' && b[24] == '\n'
      && b[25..31] == "DTEND:" && b[31..46] == st2 && b[46] == '\r' && b[47] == '\n'
      && b[48..56] == "SUMMARY:" && b[56..] == t
  {
    var b := TimedBlock(st1, st2, t);
    assert b == "DTSTART:" + st1 + "\r\nDTEND:" + st2 + "\r\nSUMMARY:" + t;
    assert b[56..] == t;
  }

  /** The DTSTART of a timed block is its first stamp, with no offset since a line end follows. */
  lemma TimedBlockStart(st1: string, st2: string, t: string)
    requires IsStamp(st1) && IsStamp(st2)
    ensures DtStart(TimedBlock(st1, st2, t)) == Some(st1)
  {
    var b := TimedBlock(st1, st2, t);
    TimedBlockLayout(st1, st2, t);
    assert b[0..8] == "DTSTART" + ":";
    PlainPropertyMatches(b, "DTSTART", 0);
    assert Capture(b, 8) == st1;
    DtStartFirst(b, 0);
  }

  /** A stamp holds only digits and the `T` between date and time. */
  lemma StampChar(st: string, i: int)
    requires IsStamp(st) && 0 <= i < 15
    ensures IsDigit(st[i]) || st[i] == 'T'
  {
    if i < 8 {
      assert st[..8][i] == st[i];
    } else if i > 8 {
      assert st[9..][i - 9] == st[i];
    }
  }

  /** A stamp followed by CRLF holds no `D` and no `S`. */
  lemma StampLineChars(b: string, c: int, st: string)
    requires 0 <= c && c + 17 <= |b| && IsStamp(st)
    requires b[c..c + 15] == st && b[c + 15] == '\r' && b[c + 16] == '\n'
    ensures forall k :: c <= k < c + 17 ==> b[k] != 'D' && b[k] != 'S'
  {
    forall k | c <= k < c + 15
      ensures b[k] != 'D' && b[k] != 'S'
    {
      assert b[k] == b[c..c + 15][k - c] == st[k - c];
      StampChar(st, k - c);
    }
  }

  /** The DTEND of a timed block is its second stamp: no `DTEND` occurs in the DTSTART line. */
  lemma TimedBlockEnd(st1: string, st2: string, t: string)
    requires IsStamp(st1) && IsStamp(st2)
    ensures DtEnd(TimedBlock(st1, st2, t)) == Some(st2)
  {
    var b := TimedBlock(st1, st2, t);
    TimedBlockLayout(st1, st2, t);
    assert b[25..31] == "DTEND" + ":";
    PlainPropertyMatches(b, "DTEND", 25);
    assert Capture(b, 31) == st2;
    NoEndBefore(b, st1);
    DtEndFirst(b, 25);
  }

  /** No DTEND property starts within a `DTSTART:` line. */
  lemma NoEndBefore(b: string, st1: string)
    requires |b| >= 25 && IsStamp(st1)
    requires b[..8] == "DTSTART:" && b[8..23] == st1 && b[23] == '\r' && b[24] == '\n'
    ensures forall k :: 0 <= k < 25 ==> !DtEndAt(b, k)
  {
    assert b[1] == 'T' && b[2] == 'S' && b[3] == 'T' && b[4] == 'A' && b[5] == 'R' && b[6] == 'T' && b[7] == ':' by {
      assert b[..8] == "DTSTART:";
    }
    StampLineChars(b, 8, st1);
    forall k | 0 <= k < 25
      ensures !OccursAt(b, "DTEND", k)
    {
      if k + 5 <= |b| {
        assert b[k..k + 5][0] == b[k] && b[k..k + 5][2] == b[k + 2];
      }
    }
  }

  /** No `SUMMARY:` starts within the `DTSTART:` and `DTEND:` lines. */
  lemma NoSummaryBefore(b: string, st1: string, st2: string)
    requires |b| >= 48 && IsStamp(st1) && IsStamp(st2)
    requires b[..8] == "DTSTART:" && b[8..23] == st1 && b[23] == '\r' && b[24] == '\n'
    requires b[25..31] == "DTEND:" && b[31..46] == st2 && b[46] == '\r' && b[47] == '\n'
    ensures forall k :: 0 <= k < 48 ==> !SummaryAt(b, k)
  {
    assert b[0] == 'D' && b[1] == 'T' && b[2] == 'S' && b[3] == 'T' && b[4] == 'A' && b[5] == 'R' && b[6] == 'T' && b[7] == ':' by {
      assert b[..8] == "DTSTART:";
    }
    assert b[25] == 'D' && b[26] == 'T' && b[27] == 'E' && b[28] == 'N' && b[29] == 'D' && b[30] == ':' by {
      assert b[25..31] == "DTEND:";
    }
    StampLineChars(b, 8, st1);
    StampLineChars(b, 31, st2);
    forall k | 0 <= k < 48
      ensures !SummaryAt(b, k)
    {
      if k + 8 <= |b| {
        assert b[k..k + 8][0] == b[k] && b[k..k + 8][1] == b[k + 1];
      }
    }
  }

  /** The SUMMARY of a timed block is the rest of its last line. */
  lemma TimedBlockSummary(st1: string, st2: string, t: string)
    requires IsStamp(st1) && IsStamp(st2)
    requires forall k :: 0 <= k < |t| ==> !IsLineTerminator(t[k])
    ensures Summary(TimedBlock(st1, st2, t)) == Some(t)
  {
    var b := TimedBlock(st1, st2, t);
    TimedBlockLayout(st1, st2, t);
    NoSummaryBefore(b, st1, st2);
    assert SummaryAt(b, 48);
    LeftmostAt(b, SummaryAt, 0, 48);
    forall k | 56 <= k < |b|
      ensures !LineEndAt(b, k)
    {
      assert b[k] == b[56..][k - 56] == t[k - 56];
    }
    LeftmostAt(b, LineEndAt, 56, |b|);
    assert b[56..|b|] == t;
  }

  /**
    A block with `DTSTART:`, `DTEND:` and `SUMMARY:` lines in that order creates the event with
    that title, from the first time to the second.
  */
  lemma TimedBlockEntry(st1: string, st2: string, t: string)
    requires IsStamp(st1) && IsStamp(st2)
    requires forall k :: 0 <= k < |t| ==> !IsLineTerminator(t[k])
    ensures ParseIcsTime(st1).Some? && ParseIcsTime(st2).Some?
    ensures EntryOf(TimedBlock(st1, st2, t)) == Some(Entry(t, ParseIcsTime(st1).value, ParseIcsTime(st2).value))
  {
    TimedBlockStart(st1, st2, t);
    TimedBlockEnd(st1, st2, t);
    TimedBlockSummary(st1, st2, t);
    StampParses(st1);
    StampParses(st2);
  }

  lemma StampParses(st: string)
    requires IsStamp(st)
    ensures ParseIcsTime(st).Some?
  {
    assert st[..15] == st;
    CaptureParses(st);
  }

  /** A time that was captured always parses: it begins with a stamp. */
  lemma CaptureParses(cap: string)
    requires |cap| >= 15 && IsStamp(cap[..15])
    ensures ParseIcsTime(cap).Some?
  {
    assert cap[0..15] == cap[..15];
    ParseNull(cap);
  }

  /**
    A block yields an entry exactly when DTSTART, DTEND and SUMMARY all match: once captured,
    the times always parse.
  */
  lemma EntryExists(block: string)
    ensures EntryOf(block).Some? <==> DtStart(block).Some? && DtEnd(block).Some? && Summary(block).Some?
  {
    if DtStart(block).Some? && DtEnd(block).Some? {
      CaptureParses(DtStart(block).value);
      CaptureParses(DtEnd(block).value);
    }
  }

  /**
    A property given as a date (`;VALUE=DATE:`, section 3.3.4 of RFC 5545) does not match where
    it occurs: after the name comes neither `;TZID=` nor a colon.
  */
  lemma DateValueNoMatch(s: string, name: string, j: int)
    requires OccursAt(s, name + ";VALUE=DATE", j)
    ensures PropertyAt(s, name, j).None?
  {
    var q := j + |name|;
    assert s[j..j + |name|] == (name + ";VALUE=DATE")[..|name|] == name;
    assert s[q] == (name + ";VALUE=DATE")[|name|] == ';';
    assert s[q + 1] == (name + ";VALUE=DATE")[|name| + 1] == 'V';
    assert ";TZID="[1] == 'T';
  }

  /**
    A block whose every DTSTART is given as a date yields no entry: all-day events of the
    calendar are not imported.
  */
  lemma AllDayBlockSkipped(block: string)
    requires forall j :: OccursAt(block, "DTSTART", j) ==> OccursAt(block, "DTSTART;VALUE=DATE", j)
    ensures EntryOf(block).None?
  {
    forall j
      ensures !DtStartAt(block, j)
    {
      if OccursAt(block, "DTSTART", j) {
        DateValueNoMatch(block, "DTSTART", j);
      }
    }
  }

  /** A title is found exactly when `SUMMARY:` occurs somewhere in the block. */
  lemma SummaryFound(s: string)
    ensures Summary(s).Some? <==> exists j :: SummaryAt(s, j)
  {
    LeftmostSpec(s, SummaryAt, 0);
    if Leftmost(s, SummaryAt, 0).None? {
      forall j
        ensures !SummaryAt(s, j)
      {
        if 0 <= j <= |s| {
          assert !SummaryAt(s, j);
        }
      }
    } else {
      var j := Leftmost(s, SummaryAt, 0).value;
      LeftmostSpec(s, LineEndAt, j + 8);
      assert LineEndAt(s, |s|);
    }
  }

  /**
    The title is the text after the first `SUMMARY:` up to the end of its line: it holds no line
    terminator and is followed by one or by the end of the block. Nothing is unfolded or unescaped.
  */
  lemma SummaryLine(s: string, j: int)
    requires SummaryAt(s, j) && forall k :: 0 <= k < j ==> !SummaryAt(s, k)
    ensures Summary(s).Some?
    ensures var title := Summary(s).value;
      && OccursAt(s, "SUMMARY:" + title, j)
      && LineEndAt(s, j + 8 + |title|)
      && forall k :: 0 <= k < |title| ==> !IsLineTerminator(title[k])
  {
    LeftmostAt(s, SummaryAt, 0, j);
    LeftmostSpec(s, LineEndAt, j + 8);
    assert LineEndAt(s, |s|);
    var e := Leftmost(s, LineEndAt, j + 8).value;
    var title := s[j + 8..e];
    assert Summary(s) == Some(title);
    assert s[j..j + 8 + |title|] == s[j..j + 8] + title;
    forall k | 0 <= k < |title|
      ensures !IsLineTerminator(title[k])
    {
      assert title[k] == s[j + 8 + k];
      assert !LineEndAt(s, j + 8 + k);
    }
  }

  /** What the capture group takes depends only on the text from where the stamp starts. */
  lemma CaptureFrom(s: string, c: int, t: string, d: int)
    requires 0 <= c <= |s| && 0 <= d <= |t| && s[c..] == t[d..]
    ensures StampAt(s, c) <==> StampAt(t, d)
    ensures StampAt(s, c) ==> Capture(s, c) == Capture(t, d)
  {
    if c + 15 <= |s| {
      assert s[c..c + 15] == s[c..][..15] == t[d..][..15] == t[d..d + 15];
    }
    if c + 20 <= |s| {
      assert s[c..c + 20] == s[c..][..20] == t[d..][..20] == t[d..d + 20];
      assert s[c + 15] == s[c..][15] == t[d..][15] == t[d + 15];
      assert s[c + 16..c + 20] == s[c..][16..20] == t[d..][16..20] == t[d + 16..d + 20];
    }
  }

  /**
    A `;TZID=` parameter is skipped: the time after it is captured exactly as if the property
    had no parameter, so it is read as UTC (or with its own `+hhmm`/`-hhmm`) whatever zone it names.
  */
  lemma TzidIgnored(name: string, tz: string, rest: string)
    requires forall k :: 0 <= k < |tz| ==> tz[k] != ':'
    ensures PropertyAt(name + ";TZID=" + tz + ":" + rest, name, 0) == PropertyAt(name + ":" + rest, name, 0)
  {
    var s := name + ";TZID=" + tz + ":" + rest;
    var plain := name + ":" + rest;
    var q := |name|;
    var e := q + 6 + |tz|;
    assert s[..q] == name && plain[..q] == name;
    assert s[q..q + 6] == ";TZID=";
    assert plain[q] == ':';
    assert !OccursAt(plain, ";TZID=", q) by {
      assert ";TZID="[0] == ';';
    }
    forall k | q + 6 <= k < e
      ensures !ColonAt(s, k)
    {
      assert s[k] == tz[k - q - 6];
    }
    assert ColonAt(s, e);
    LeftmostAt(s, ColonAt, q + 6, e);
    assert s[e + 1..] == rest == plain[q + 1..];
    CaptureFrom(s, e + 1, plain, q + 1);
  }
}

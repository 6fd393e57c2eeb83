/**
  get_working_hours (export.py): the day's working time is taken to run from the start of one
  occupying event to the end of the next whenever the gap between them does not cross midnight.
  Occupying events are those marked Tentative, Busy or WorkingElsewhere; OutOfOffice events are
  passed through and their time is cut out of the working time; every other status is ignored.
*/
module WorkingHours {
  import opened Intervals
  import opened Statuses
  import opened Identity
  import opened Events

  /** The statuses whose events occupy the working day: `status in [1, 2, 4]`. */
  predicate Occupying(status: int) {
    status == Tentative || status == Busy || status == Elsewhere
  }

  /** Some occupying event among the first `n` covers grid point `p`. */
  ghost predicate OccupiedUpTo(events: seq<TimedEvent>, n: nat, p: int)
    requires n <= |events|
  {
    exists i :: 0 <= i < n && Occupying(events[i].status) && CoversPoint(events[i], p)
  }

  /** `timerange_event` after the first `n` events. */
  function OccupyingUpTo(events: seq<TimedEvent>, n: nat): seq<Atomic>
    requires n <= |events|
  {
    if n == 0 then []
    else if Occupying(events[n - 1].status) then Union(OccupyingUpTo(events, n - 1), SpanOf(events[n - 1]))
    else OccupyingUpTo(events, n - 1)
  }

  /** `timerange_event` once every event is read. */
  function OccupyingOf(events: seq<TimedEvent>): seq<Atomic> {
    OccupyingUpTo(events, |events|)
  }

  lemma {:induction false} OccupyingUpToValid(events: seq<TimedEvent>, n: nat)
    requires n <= |events|
    ensures Valid(OccupyingUpTo(events, n))
  {
    if n > 0 {
      OccupyingUpToValid(events, n - 1);
      UnionValid(OccupyingUpTo(events, n - 1), SpanOf(events[n - 1]));
    }
  }

  /** `timerange_event` covers exactly the time some occupying event covers. */
  lemma {:induction false} OccupyingUpToCovers(events: seq<TimedEvent>, n: nat)
    requires n <= |events|
    ensures forall p :: In(OccupyingUpTo(events, n), p) <==> OccupiedUpTo(events, n, p)
  {
    if n > 0 {
      var last := events[n - 1];
      OccupyingUpToCovers(events, n - 1);
      forall p
        ensures In(OccupyingUpTo(events, n), p) <==> OccupiedUpTo(events, n, p)
      {
        if Occupying(last.status) {
          UnionIn(OccupyingUpTo(events, n - 1), SpanOf(last), p);
          ClosedIntervalIn(last.start, last.end, p);
        }
        if OccupiedUpTo(events, n, p) {
          var i :| 0 <= i < n && Occupying(events[i].status) && CoversPoint(events[i], p);
          assert i == n - 1 || OccupiedUpTo(events, n - 1, p);
        }
      }
    }
  }

  /** Pieces `i` and `i + 1` are consecutive and the first ends on the date the second starts. */
  predicate Bridged(pieces: seq<Atomic>, i: int) {
    0 <= i && i + 1 < |pieces| && Date(pieces[i].upper) == Date(pieces[i + 1].lower)
  }

  /** Grid point `p` lies in the span a bridged pair `i` adds, `[E[i].lower, E[i+1].upper]`. */
  predicate InBridge(pieces: seq<Atomic>, i: int, p: int)
    requires Bridged(pieces, i)
  {
    Between(2 * pieces[i].lower, p, 2 * pieces[i + 1].upper)
  }

  /** The number of consecutive pairs: `range(len(timerange_event) - 1)`. */
  function Pairs(pieces: seq<Atomic>): nat {
    if |pieces| == 0 then 0 else |pieces| - 1
  }

  /** `timerange_working` after examining the first `n` consecutive pairs. */
  function BridgesUpTo(pieces: seq<Atomic>, n: nat): seq<Atomic>
    requires n <= Pairs(pieces)
  {
    if n == 0 then []
    else if Bridged(pieces, n - 1) then
      Union(BridgesUpTo(pieces, n - 1), ClosedInterval(pieces[n - 1].lower, pieces[n].upper))
    else BridgesUpTo(pieces, n - 1)
  }

  lemma {:induction false} BridgesUpToValid(pieces: seq<Atomic>, n: nat)
    requires n <= Pairs(pieces)
    ensures Valid(BridgesUpTo(pieces, n))
  {
    if n > 0 {
      BridgesUpToValid(pieces, n - 1);
      UnionValid(BridgesUpTo(pieces, n - 1), ClosedInterval(pieces[n - 1].lower, pieces[n].upper));
    }
  }

  /** The bridged set covers exactly the spans of the bridged pairs; other pairs add nothing. */
  lemma {:induction false} BridgesUpToIn(pieces: seq<Atomic>, n: nat)
    requires n <= Pairs(pieces)
    ensures forall p :: In(BridgesUpTo(pieces, n), p) <==>
      exists i :: 0 <= i < n && Bridged(pieces, i) && InBridge(pieces, i, p)
  {
    if n > 0 {
      BridgesUpToIn(pieces, n - 1);
      forall p
        ensures In(BridgesUpTo(pieces, n), p) <==>
          exists i :: 0 <= i < n && Bridged(pieces, i) && InBridge(pieces, i, p)
      {
        if Bridged(pieces, n - 1) {
          UnionIn(BridgesUpTo(pieces, n - 1), ClosedInterval(pieces[n - 1].lower, pieces[n].upper), p);
          ClosedIntervalIn(pieces[n - 1].lower, pieces[n].upper, p);
        }
        if exists i :: 0 <= i < n && Bridged(pieces, i) && InBridge(pieces, i, p) {
          var i :| 0 <= i < n && Bridged(pieces, i) && InBridge(pieces, i, p);
          assert i == n - 1 || exists i' :: 0 <= i' < n - 1 && Bridged(pieces, i') && InBridge(pieces, i', p);
        }
      }
    }
  }

  /** The working time: the bridged spans of the occupying set, less all OutOfOffice time. */
  function Working(events: seq<TimedEvent>): seq<Atomic> {
    var occupying := OccupyingOf(events);
    Difference(BridgesUpTo(occupying, Pairs(occupying)), UnionOf(events, OutOfOffice))
  }

  /** The "勤務" event made from one working piece. */
  function WorkingEvent(piece: Atomic, hash: string -> string, fmt: int -> string): Output {
    Made("勤務", piece.lower, piece.upper, false, hash(WorkingKey(fmt(piece.lower), fmt(piece.upper))))
  }

  /** One working event per piece, in the order of the pieces. */
  function EmitWorking(pieces: seq<Atomic>, hash: string -> string, fmt: int -> string): seq<Output>
    decreases |pieces|
  {
    if pieces == [] then []
    else EmitWorking(pieces[..|pieces| - 1], hash, fmt) + [WorkingEvent(pieces[|pieces| - 1], hash, fmt)]
  }

  /** What get_working_hours returns. */
  function WorkingHoursOf(events: seq<TimedEvent>, hash: string -> string, fmt: int -> string): seq<Output> {
    if events == [] then [] else KeptOf(events) + EmitWorking(Working(events), hash, fmt)
  }

  lemma EmitWorkingStep(pieces: seq<Atomic>, j: int, hash: string -> string, fmt: int -> string)
    requires 0 <= j < |pieces|
    ensures EmitWorking(pieces[..j + 1], hash, fmt) == EmitWorking(pieces[..j], hash, fmt) + [WorkingEvent(pieces[j], hash, fmt)]
  {
    assert pieces[..j + 1][..j] == pieces[..j];
  }

  /**
    One pass of the first loop: pass an OutOfOffice event through and claim its time, union an
    occupying event into `timerange_event`, or skip the event.
  */
  method ReadEvent(events: seq<TimedEvent>, i: int, merged: seq<Output>, occupied: seq<Atomic>, occupying: seq<Atomic>)
    returns (merged': seq<Output>, occupied': seq<Atomic>, occupying': seq<Atomic>)
    requires 0 <= i < |events|
    requires merged == KeptUpTo(events, i)
    requires occupied == UnionUpTo(events, OutOfOffice, i)
    requires occupying == OccupyingUpTo(events, i)
    ensures merged' == KeptUpTo(events, i + 1)
    ensures occupied' == UnionUpTo(events, OutOfOffice, i + 1)
    ensures occupying' == OccupyingUpTo(events, i + 1)
  {
    var event := events[i];
    merged', occupied', occupying' := merged, occupied, occupying;
    if event.status == OutOfOffice {
      merged' := merged + [Kept(event)];
      occupied' := Union(occupied, ClosedInterval(event.start, event.end));
    } else if event.status in [Tentative, Busy, Elsewhere] {
      occupying' := Union(occupying, ClosedInterval(event.start, event.end));
    }
  }

  /** The pair loop: `timerange_working |= P.closed(E[i].lower, E[i+1].upper)` for each bridged pair. */
  method BridgePairs(occupying: seq<Atomic>) returns (working: seq<Atomic>)
    ensures working == BridgesUpTo(occupying, Pairs(occupying))
  {
    working := [];
    var i := 0;
    while i + 1 < |occupying|
      invariant 0 <= i <= Pairs(occupying)
      invariant working == BridgesUpTo(occupying, i)
    {
      if Date(occupying[i].upper) == Date(occupying[i + 1].lower) {
        working := Union(working, ClosedInterval(occupying[i].lower, occupying[i + 1].upper));
      }
      i := i + 1;
    }
  }

  /** get_working_hours, step by step as export.py runs it. */
  method GetWorkingHours(events: seq<TimedEvent>, hash: string -> string, fmt: int -> string)
    returns (r: seq<Output>)
    ensures r == WorkingHoursOf(events, hash, fmt)
  {
    if |events| == 0 {
      return [];
    }
    var merged, occupied, occupying := ReadEvents(events);
    var working := BridgePairs(occupying);
    working := Difference(working, occupied);
    r := EmitWorkingPieces(merged, working, hash, fmt);
  }

  /** The first loop of get_working_hours, over all events. */
  method ReadEvents(events: seq<TimedEvent>) returns (merged: seq<Output>, occupied: seq<Atomic>, occupying: seq<Atomic>)
    ensures merged == KeptOf(events)
    ensures occupied == UnionOf(events, OutOfOffice)
    ensures occupying == OccupyingOf(events)
  {
    merged, occupied, occupying := [], [], [];
    var i := 0;
    while i < |events|
      invariant 0 <= i <= |events|
      invariant merged == KeptUpTo(events, i)
      invariant occupied == UnionUpTo(events, OutOfOffice, i)
      invariant occupying == OccupyingUpTo(events, i)
    {
      merged, occupied, occupying := ReadEvent(events, i, merged, occupied, occupying);
      i := i + 1;
    }
    assert events[..|events|] == events;
  }

  /** The last loop of get_working_hours: one working event per piece, appended in order. */
  method EmitWorkingPieces(merged: seq<Output>, pieces: seq<Atomic>, hash: string -> string, fmt: int -> string)
    returns (r: seq<Output>)
    ensures r == merged + EmitWorking(pieces, hash, fmt)
  {
    r := merged;
    var j := 0;
    while j < |pieces|
      invariant 0 <= j <= |pieces|
      invariant r == merged + EmitWorking(pieces[..j], hash, fmt)
    {
      EmitWorkingStep(pieces, j, hash, fmt);
      r := r + [WorkingEvent(pieces[j], hash, fmt)];
      j := j + 1;
    }
    assert pieces[..j] == pieces;
  }

  /** A longer input does not change the occupying set over its prefix. */
  lemma {:induction false} OccupyingUpToPrefix(xs: seq<TimedEvent>, ys: seq<TimedEvent>, n: nat)
    requires n <= |xs|
    ensures OccupyingUpTo(xs + ys, n) == OccupyingUpTo(xs, n)
  {
    if n > 0 {
      assert (xs + ys)[n - 1] == xs[n - 1];
      OccupyingUpToPrefix(xs, ys, n - 1);
    }
  }

  /**
    An event that does not occupy, wherever it stands, leaves `timerange_event` unchanged: the set
    for `xs + [e] + ys` over the first `|xs| + 1 + m` events is that of `xs + ys` over `|xs| + m`.
  */
  lemma {:induction false} OccupyingUpToSkip(xs: seq<TimedEvent>, e: TimedEvent, ys: seq<TimedEvent>, m: nat)
    requires !Occupying(e.status) && m <= |ys|
    ensures OccupyingUpTo(xs + [e] + ys, |xs| + 1 + m) == OccupyingUpTo(xs + ys, |xs| + m)
  {
    var all, rest := xs + [e] + ys, xs + ys;
    if m == 0 {
      assert all[|xs|] == e;
      assert all == xs + ([e] + ys);
      OccupyingUpToPrefix(xs, [e] + ys, |xs|);
      OccupyingUpToPrefix(xs, ys, |xs|);
    } else {
      assert all[|xs| + m] == ys[m - 1] == rest[|xs| + m - 1];
      OccupyingUpToSkip(xs, e, ys, m - 1);
    }
  }

  /**
    The working time is exactly the time spanned by some bridged pair of consecutive occupying
    pieces that no OutOfOffice event covers: pairs on different dates contribute nothing, and
    working time never overlaps OutOfOffice time.
  */
  lemma WorkingPoints(events: seq<TimedEvent>, p: int)
    ensures var occupying := OccupyingOf(events);
      In(Working(events), p) <==>
        (exists i :: Bridged(occupying, i) && InBridge(occupying, i, p)) && !CoveredBy(events, OutOfOffice, p)
  {
    var occupying := OccupyingOf(events);
    DifferenceIn(BridgesUpTo(occupying, Pairs(occupying)), UnionOf(events, OutOfOffice), p);
    BridgesUpToIn(occupying, Pairs(occupying));
    UnionOfCovers(events, OutOfOffice);
  }

  /**
    A bridged pair makes the whole of `[E[i].lower, E[i+1].upper]` working time, the two occupying
    pieces themselves included and not only the gap between them, except where OutOfOffice.
  */
  lemma PairSpan(events: seq<TimedEvent>, i: int, p: int)
    requires Bridged(OccupyingOf(events), i)
    requires !CoveredBy(events, OutOfOffice, p)
    ensures var occupying := OccupyingOf(events);
      (AtomIn(occupying[i], p) || AtomIn(occupying[i + 1], p) || InBridge(occupying, i, p)) ==> In(Working(events), p)
  {
    var occupying := OccupyingOf(events);
    OccupyingUpToValid(events, |events|);
    assert Hi(occupying[i]) + 1 < Lo(occupying[i + 1]);
    WorkingPoints(events, p);
  }

  /** Every occupying event's own time lies in the occupying set. */
  lemma OccupyingOfCovers(events: seq<TimedEvent>, p: int)
    ensures In(OccupyingOf(events), p) <==>
      exists i :: 0 <= i < |events| && Occupying(events[i].status) && CoversPoint(events[i], p)
  {
    OccupyingUpToCovers(events, |events|);
  }

  lemma {:induction false} DifferenceOfEmpty(t: seq<Atomic>)
    ensures Difference([], t) == []
    decreases |t|
  {
    if t != [] {
      assert Remove([], t[0]) == [];
      DifferenceOfEmpty(t[1..]);
    }
  }

  /** With fewer than two occupying pieces there is no pair, so no working event is made. */
  lemma FewerThanTwo(events: seq<TimedEvent>, hash: string -> string, fmt: int -> string)
    requires |OccupyingOf(events)| < 2
    ensures WorkingHoursOf(events, hash, fmt) == if events == [] then [] else KeptOf(events)
  {
    DifferenceOfEmpty(UnionOf(events, OutOfOffice));
  }

  /**
    An event that is neither OutOfOffice nor occupying (Free, or an unknown code) changes nothing,
    wherever it stands in the input.
  */
  lemma IgnoredStatus(xs: seq<TimedEvent>, e: TimedEvent, ys: seq<TimedEvent>, hash: string -> string, fmt: int -> string)
    requires e.status != OutOfOffice && !Occupying(e.status)
    ensures WorkingHoursOf(xs + [e] + ys, hash, fmt) == WorkingHoursOf(xs + ys, hash, fmt)
  {
    var all, rest := xs + [e] + ys, xs + ys;
    IgnoredInputs(xs, e, ys);
    assert Working(all) == Working(rest);
    if rest == [] {
      assert all == [e];
      IgnoredAlone(e, hash, fmt);
    }
  }

  /** An ignored event adds nothing to what the first loop collects. */
  lemma IgnoredInputs(xs: seq<TimedEvent>, e: TimedEvent, ys: seq<TimedEvent>)
    requires e.status != OutOfOffice && !Occupying(e.status)
    ensures OccupyingOf(xs + [e] + ys) == OccupyingOf(xs + ys)
    ensures UnionOf(xs + [e] + ys, OutOfOffice) == UnionOf(xs + ys, OutOfOffice)
    ensures KeptOf(xs + [e] + ys) == KeptOf(xs + ys)
  {
    OccupyingUpToSkip(xs, e, ys, |ys|);
    UnionUpToSkip(xs, e, ys, OutOfOffice, |ys|);
    KeptOfAppend(xs + [e], ys);
    KeptOfAppend(xs, [e]);
    KeptOfAppend(xs, ys);
    assert KeptOf([e]) == [];
  }

  /** An ignored event on its own gives no output, as the empty input does. */
  lemma IgnoredAlone(e: TimedEvent, hash: string -> string, fmt: int -> string)
    requires e.status != OutOfOffice && !Occupying(e.status)
    ensures WorkingHoursOf([e], hash, fmt) == []
  {
    assert OccupyingOf([e]) == OccupyingUpTo([e], 0) == [];
    assert UnionOf([e], OutOfOffice) == UnionUpTo([e], OutOfOffice, 0) == [];
    DifferenceOfEmpty([]);
    assert KeptOf([e]) == [];
  }

  /** One "勤務" event per working piece, in the order of the pieces. */
  lemma {:induction false} EmitWorkingShape(pieces: seq<Atomic>, hash: string -> string, fmt: int -> string)
    ensures |EmitWorking(pieces, hash, fmt)| == |pieces|
    ensures forall j :: 0 <= j < |pieces| ==> EmitWorking(pieces, hash, fmt)[j] == WorkingEvent(pieces[j], hash, fmt)
    decreases |pieces|
  {
    if pieces != [] {
      EmitWorkingShape(pieces[..|pieces| - 1], hash, fmt);
    }
  }

  /** Appending the working events for canonical pieces: timed "勤務" events in ascending start order. */
  lemma AppendWorking(kept: seq<Output>, pieces: seq<Atomic>, hash: string -> string, fmt: int -> string)
    requires Valid(pieces)
    ensures var out := kept + EmitWorking(pieces, hash, fmt);
      && out[..|kept|] == kept
      && (forall i :: |kept| <= i < |out| ==>
            out[i].Made? && out[i].summary == "勤務" && !out[i].isAllDay && out[i].start <= out[i].end)
      && (forall i, j :: |kept| <= i < j < |out| ==>
            out[i].Made? && out[j].Made? && out[i].start < out[j].start)
  {
    var made := EmitWorking(pieces, hash, fmt);
    EmitWorkingShape(pieces, hash, fmt);
    var out := kept + made;
    assert out[..|kept|] == kept;
    AscendingLower(pieces);
    forall i, j | |kept| <= i < j < |out|
      ensures out[i].Made? && out[j].Made? && out[i].start < out[j].start
    {
      assert out[i] == made[i - |kept|] && out[j] == made[j - |kept|];
    }
    forall i | |kept| <= i < |out|
      ensures out[i].Made? && out[i].summary == "勤務" && !out[i].isAllDay && out[i].start <= out[i].end
    {
      assert out[i] == made[i - |kept|];
    }
  }

  /** The working time is in canonical form: disjoint, separated, ascending pieces. */
  lemma WorkingValid(events: seq<TimedEvent>)
    ensures Valid(Working(events))
  {
    var occupying := OccupyingOf(events);
    OccupyingUpToValid(events, |events|);
    BridgesUpToValid(occupying, Pairs(occupying));
    DifferenceValid(BridgesUpTo(occupying, Pairs(occupying)), UnionOf(events, OutOfOffice));
  }

  /**
    The output list: the OutOfOffice events first, unchanged and in input order, then the
    "勤務" events, timed, in ascending order of their starts and each starting no later than it ends.
  */
  lemma WorkingHoursShape(events: seq<TimedEvent>, hash: string -> string, fmt: int -> string)
    ensures var out, kept := WorkingHoursOf(events, hash, fmt), KeptOf(events);
      && |kept| <= |out| && out[..|kept|] == kept
      && (forall i :: |kept| <= i < |out| ==>
            out[i].Made? && out[i].summary == "勤務" && !out[i].isAllDay && out[i].start <= out[i].end)
      && (forall i, j :: |kept| <= i < j < |out| ==>
            out[i].Made? && out[j].Made? && out[i].start < out[j].start)
  {
    if events != [] {
      WorkingValid(events);
      AppendWorking(KeptOf(events), Working(events), hash, fmt);
    }
  }
}

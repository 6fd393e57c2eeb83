/**
  merge_events (export.py:134-181): the busy-status resolver. OutOfOffice events pass through
  unchanged and claim their time first; the other statuses are unioned per status and painted
  in the order Busy, Tentative, Elsewhere, Free, each keeping only the time nobody claimed before
  it, one output event per atomic piece.
*/
module BusyStatus {
  import opened Wrappers
  import opened Intervals
  import opened Statuses
  import opened Identity
  import opened Events

  /** The `KeyError` merge_events raises for a status code with no key. */
  datatype Error = UnknownStatus(status: int)

  /** The status of the first event whose code is not in the key table, if there is one. */
  function FirstUnknown(events: seq<TimedEvent>): (r: Option<int>)
    ensures r.None? <==> forall i :: 0 <= i < |events| ==> Known(events[i].status)
    ensures r.Some? ==> !Known(r.value)
  {
    if events == [] then None
    else if !Known(events[0].status) then Some(events[0].status)
    else FirstUnknown(events[1..])
  }

  /** The first unknown status is the one at the first position holding an unknown status. */
  lemma {:induction false} FirstUnknownAt(events: seq<TimedEvent>, i: int)
    requires 0 <= i < |events| && !Known(events[i].status)
    requires forall j :: 0 <= j < i ==> Known(events[j].status)
    ensures FirstUnknown(events) == Some(events[i].status)
  {
    if i > 0 {
      assert forall j :: 0 <= j < i - 1 ==> events[1..][j] == events[j + 1];
      FirstUnknownAt(events[1..], i - 1);
    }
  }

  /** The time claimed before painting the k-th status of PaintOrder. */
  function Occupied(events: seq<TimedEvent>, k: nat): seq<Atomic>
    requires k <= |PaintOrder|
    decreases k, 0
  {
    if k == 0 then UnionOf(events, OutOfOffice)
    else Union(Occupied(events, k - 1), Visible(events, k - 1))
  }

  /** The time painted with the k-th status of PaintOrder: what it covers minus what is claimed. */
  function Visible(events: seq<TimedEvent>, k: nat): seq<Atomic>
    requires k < |PaintOrder|
    decreases k, 1
  {
    Difference(UnionOf(events, PaintOrder[k]), Occupied(events, k))
  }

  /**
    The claimed time and each painted layer are in canonical form, so each layer's pieces are
    the maximal runs of time painted with its status.
  */
  lemma {:induction false} LayersValid(events: seq<TimedEvent>, k: nat)
    requires k <= |PaintOrder|
    ensures Valid(Occupied(events, k))
    ensures k < |PaintOrder| ==> Valid(Visible(events, k))
  {
    if k == 0 {
      UnionUpToValid(events, OutOfOffice, |events|);
    } else {
      LayersValid(events, k - 1);
      UnionValid(Occupied(events, k - 1), Visible(events, k - 1));
    }
    if k < |PaintOrder| {
      UnionUpToValid(events, PaintOrder[k], |events|);
      DifferenceValid(UnionOf(events, PaintOrder[k]), Occupied(events, k));
    }
  }

  /** Grid point `p` is claimed before the k-th status of PaintOrder is painted. */
  ghost predicate ClaimedBefore(events: seq<TimedEvent>, k: nat, p: int)
    requires k <= |PaintOrder|
  {
    if k == 0 then CoveredBy(events, OutOfOffice, p)
    else ClaimedBefore(events, k - 1, p) || CoveredBy(events, PaintOrder[k - 1], p)
  }

  /** Claimed time is OutOfOffice time together with the time of every status painted earlier. */
  lemma {:induction false} ClaimedBeforeMeans(events: seq<TimedEvent>, k: nat, p: int)
    requires k <= |PaintOrder|
    ensures ClaimedBefore(events, k, p) <==>
      CoveredBy(events, OutOfOffice, p) || exists j :: 0 <= j < k && CoveredBy(events, PaintOrder[j], p)
  {
    if k > 0 {
      ClaimedBeforeMeans(events, k - 1, p);
      if exists j :: 0 <= j < k && CoveredBy(events, PaintOrder[j], p) {
        var j :| 0 <= j < k && CoveredBy(events, PaintOrder[j], p);
        assert j == k - 1 || exists j' :: 0 <= j' < k - 1 && CoveredBy(events, PaintOrder[j'], p);
      }
    }
  }

  /** Before the k-th status of PaintOrder is painted, `occupied` is exactly the claimed time. */
  lemma {:induction false} OccupiedPoints(events: seq<TimedEvent>, k: nat)
    requires k <= |PaintOrder|
    ensures forall p :: In(Occupied(events, k), p) <==> ClaimedBefore(events, k, p)
    decreases k, 0
  {
    if k == 0 {
      UnionOfCovers(events, OutOfOffice);
    } else {
      var before, painted := Occupied(events, k - 1), Visible(events, k - 1);
      OccupiedPoints(events, k - 1);
      VisiblePoints(events, k - 1);
      forall p
        ensures In(Occupied(events, k), p) <==> ClaimedBefore(events, k, p)
      {
        UnionIn(before, painted, p);
      }
    }
  }

  /** The time painted with the k-th status of PaintOrder is the time it covers that is not yet claimed. */
  lemma {:induction false} VisiblePoints(events: seq<TimedEvent>, k: nat)
    requires k < |PaintOrder|
    ensures forall p :: In(Visible(events, k), p) <==>
      CoveredBy(events, PaintOrder[k], p) && !ClaimedBefore(events, k, p)
    decreases k, 1
  {
    OccupiedPoints(events, k);
    UnionOfCovers(events, PaintOrder[k]);
    forall p
      ensures In(Visible(events, k), p) <==>
        CoveredBy(events, PaintOrder[k], p) && !ClaimedBefore(events, k, p)
    {
      DifferenceIn(UnionOf(events, PaintOrder[k]), Occupied(events, k), p);
    }
  }

  /**
    Priority masking: the time painted with the k-th status of PaintOrder is exactly the points
    that status covers and that neither OutOfOffice nor any status painted earlier covers.
  */
  lemma Priority(events: seq<TimedEvent>, k: nat, p: int)
    requires k < |PaintOrder|
    ensures In(Visible(events, k), p) <==>
      CoveredBy(events, PaintOrder[k], p) && !CoveredBy(events, OutOfOffice, p) &&
      forall j :: 0 <= j < k ==> !CoveredBy(events, PaintOrder[j], p)
  {
    VisiblePoints(events, k);
    ClaimedBeforeMeans(events, k, p);
  }

  /** The output event for one resolved piece of status `status` (export.py:166-177). */
  function MadeOf(status: int, piece: Atomic, hash: string -> string, fmt: int -> string): Output
    requires Known(status)
  {
    Made(Label(status).value, piece.lower, piece.upper, false,
         hash(DerivedKey(Key(status).value, fmt(piece.lower), fmt(piece.upper))))
  }

  /** One output event per piece, in the order of the pieces. */
  function Emit(status: int, pieces: seq<Atomic>, hash: string -> string, fmt: int -> string): seq<Output>
    requires Known(status)
    decreases |pieces|
  {
    if pieces == [] then []
    else Emit(status, pieces[..|pieces| - 1], hash, fmt) + [MadeOf(status, pieces[|pieces| - 1], hash, fmt)]
  }

  /**
    The output list after painting the first k statuses of PaintOrder: the passed-through
    OutOfOffice events, then the made events grouped by status.
  */
  function Painted(events: seq<TimedEvent>, k: nat, hash: string -> string, fmt: int -> string): seq<Output>
    requires k <= |PaintOrder|
  {
    if k == 0 then KeptOf(events)
    else Painted(events, k - 1, hash, fmt) + Emit(PaintOrder[k - 1], Visible(events, k - 1), hash, fmt)
  }

  /** What merge_events returns or raises. */
  function Resolution(events: seq<TimedEvent>, hash: string -> string, fmt: int -> string): Result<seq<Output>, Error>
  {
    if events == [] then Success([])
    else match FirstUnknown(events)
      case Some(status) => Failure(UnknownStatus(status))
      case None => Success(Painted(events, |PaintOrder|, hash, fmt))
  }

  /**
    The `timeranges` dict after the first `n` events: under each painted status, the union of
    that status's events so far. export.py keys the dict by the status's key string; since the
    key table is one-to-one (`TablesInjective`), the model keys it by the status itself.
  */
  predicate Tracks(timeranges: map<int, seq<Atomic>>, events: seq<TimedEvent>, n: nat)
    requires n <= |events|
  {
    && timeranges.Keys == {Free, Tentative, Busy, Elsewhere}
    && timeranges[Free] == UnionUpTo(events, Free, n)
    && timeranges[Tentative] == UnionUpTo(events, Tentative, n)
    && timeranges[Busy] == UnionUpTo(events, Busy, n)
    && timeranges[Elsewhere] == UnionUpTo(events, Elsewhere, n)
  }

  lemma EmitStep(status: int, pieces: seq<Atomic>, j: int, hash: string -> string, fmt: int -> string)
    requires Known(status) && 0 <= j < |pieces|
    ensures Emit(status, pieces[..j + 1], hash, fmt) == Emit(status, pieces[..j], hash, fmt) + [MadeOf(status, pieces[j], hash, fmt)]
  {
    assert pieces[..j + 1][..j] == pieces[..j];
  }

  /** How one more known event changes the `timeranges` dict, by status. */
  lemma TracksAdd(timeranges: map<int, seq<Atomic>>, events: seq<TimedEvent>, i: int)
    requires 0 <= i < |events| && Known(events[i].status) && Tracks(timeranges, events, i)
    ensures events[i].status == OutOfOffice ==> Tracks(timeranges, events, i + 1)
    ensures events[i].status != OutOfOffice ==>
      var st := events[i].status;
      st in timeranges && Tracks(timeranges[st := Union(timeranges[st], SpanOf(events[i]))], events, i + 1)
  {
  }

  /** Looking up the k-th status of PaintOrder in the dict finds that status's union. */
  lemma TracksLookup(timeranges: map<int, seq<Atomic>>, events: seq<TimedEvent>, k: int)
    requires Tracks(timeranges, events, |events|) && 0 <= k < |PaintOrder|
    ensures PaintOrder[k] in timeranges
    ensures timeranges[PaintOrder[k]] == UnionOf(events, PaintOrder[k])
  {
  }

  /**
    One pass of the first loop of merge_events: pass an OutOfOffice event through and claim its
    time, union any other event into its status's set, or raise the `KeyError`.
  */
  method AddEvent(events: seq<TimedEvent>, i: int, merged: seq<Output>, occupied: seq<Atomic>,
                  timeranges: map<int, seq<Atomic>>)
    returns (error: Option<Error>, merged': seq<Output>, occupied': seq<Atomic>, timeranges': map<int, seq<Atomic>>)
    requires 0 <= i < |events|
    requires occupied == UnionUpTo(events, OutOfOffice, i)
    requires merged == KeptUpTo(events, i)
    requires Tracks(timeranges, events, i)
    ensures error.Some? <==> !Known(events[i].status)
    ensures error.Some? ==> error.value == UnknownStatus(events[i].status)
    ensures error.None? ==>
      merged' == KeptUpTo(events, i + 1) && occupied' == UnionUpTo(events, OutOfOffice, i + 1) &&
      Tracks(timeranges', events, i + 1)
  {
    var event := events[i];
    merged', occupied', timeranges' := merged, occupied, timeranges;
    if event.status == OutOfOffice {
      TracksAdd(timeranges, events, i);
      merged' := merged + [Kept(event)];
      occupied' := Union(occupied, ClosedInterval(event.start, event.end));
    } else {
      var key := Key(event.status);
      if key.None? {
        return Some(UnknownStatus(event.status)), merged', occupied', timeranges';
      }
      TracksAdd(timeranges, events, i);
      timeranges' := timeranges[event.status := Union(timeranges[event.status], ClosedInterval(event.start, event.end))];
    }
    error := None;
  }

  /**
    The first loop of merge_events: collect every event in input order, stopping with the
    `KeyError` at the first unknown status.
  */
  method Collect(events: seq<TimedEvent>)
    returns (error: Option<Error>, merged: seq<Output>, occupied: seq<Atomic>, timeranges: map<int, seq<Atomic>>)
    ensures error.Some? <==> FirstUnknown(events).Some?
    ensures error.Some? ==> error.value == UnknownStatus(FirstUnknown(events).value)
    ensures error.None? ==>
      merged == KeptOf(events) && occupied == UnionOf(events, OutOfOffice) && Tracks(timeranges, events, |events|)
  {
    timeranges := map[Free := [], Tentative := [], Busy := [], Elsewhere := []];
    occupied := [];
    merged := [];
    var i := 0;
    while i < |events|
      invariant 0 <= i <= |events|
      invariant forall j :: 0 <= j < i ==> Known(events[j].status)
      invariant occupied == UnionUpTo(events, OutOfOffice, i)
      invariant merged == KeptUpTo(events, i)
      invariant Tracks(timeranges, events, i)
    {
      error, merged, occupied, timeranges := AddEvent(events, i, merged, occupied, timeranges);
      if error.Some? {
        FirstUnknownAt(events, i);
        return;
      }
      i := i + 1;
    }
    error := None;
  }

  /** `for rng in timerange: merged_events.append(...)`: one made event per piece, in order. */
  method EmitPieces(merged: seq<Output>, status: int, pieces: seq<Atomic>, hash: string -> string, fmt: int -> string)
    returns (result: seq<Output>)
    requires Known(status)
    ensures result == merged + Emit(status, pieces, hash, fmt)
  {
    result := merged;
    var j := 0;
    while j < |pieces|
      invariant 0 <= j <= |pieces|
      invariant result == merged + Emit(status, pieces[..j], hash, fmt)
    {
      EmitStep(status, pieces, j, hash, fmt);
      result := result + [MadeOf(status, pieces[j], hash, fmt)];
      j := j + 1;
    }
    assert pieces[..j] == pieces;
  }

  /**
    One pass of the painting loop: the status's unclaimed time becomes one event per piece and is
    then claimed itself.
  */
  method PaintLayer(events: seq<TimedEvent>, k: nat, timerange: seq<Atomic>, merged: seq<Output>,
                    occupied: seq<Atomic>, hash: string -> string, fmt: int -> string)
    returns (merged': seq<Output>, occupied': seq<Atomic>)
    requires k < |PaintOrder|
    requires timerange == UnionOf(events, PaintOrder[k])
    requires occupied == Occupied(events, k)
    requires merged == Painted(events, k, hash, fmt)
    ensures occupied' == Occupied(events, k + 1)
    ensures merged' == Painted(events, k + 1, hash, fmt)
  {
    var visible := Difference(timerange, occupied);
    merged' := EmitPieces(merged, PaintOrder[k], visible, hash, fmt);
    occupied' := Union(occupied, visible);
  }

  /** merge_events, step by step as export.py runs it. */
  method MergeEvents(events: seq<TimedEvent>, hash: string -> string, fmt: int -> string)
    returns (r: Result<seq<Output>, Error>)
    ensures r == Resolution(events, hash, fmt)
  {
    if |events| == 0 {
      return Success([]);
    }
    var error, merged, occupied, timeranges := Collect(events);
    if error.Some? {
      return Failure(error.value);
    }
    var k := 0;
    while k < |PaintOrder|
      invariant 0 <= k <= |PaintOrder|
      invariant occupied == Occupied(events, k)
      invariant merged == Painted(events, k, hash, fmt)
    {
      TracksLookup(timeranges, events, k);
      merged, occupied := PaintLayer(events, k, timeranges[PaintOrder[k]], merged, occupied, hash, fmt);
      k := k + 1;
    }
    return Success(merged);
  }

  /** One made event per piece, in the order of the pieces. */
  lemma {:induction false} EmitShape(status: int, pieces: seq<Atomic>, hash: string -> string, fmt: int -> string)
    requires Known(status)
    ensures |Emit(status, pieces, hash, fmt)| == |pieces|
    ensures forall j :: 0 <= j < |pieces| ==> Emit(status, pieces, hash, fmt)[j] == MadeOf(status, pieces[j], hash, fmt)
    decreases |pieces|
  {
    if pieces != [] {
      EmitShape(status, pieces[..|pieces| - 1], hash, fmt);
    }
  }

  /**
    Within one status, overlapping or touching time becomes a single event, and the events come
    in ascending order of their starts, each starting no later than it ends.
  */
  lemma LayerAscending(events: seq<TimedEvent>, k: nat, hash: string -> string, fmt: int -> string)
    requires k < |PaintOrder|
    ensures var made := Emit(PaintOrder[k], Visible(events, k), hash, fmt);
      && (forall i :: 0 <= i < |made| ==> made[i].Made? && made[i].start <= made[i].end)
      && (forall i, j :: 0 <= i < j < |made| ==> made[i].Made? && made[j].Made? && made[i].start < made[j].start)
  {
    var pieces := Visible(events, k);
    LayersValid(events, k);
    EmitShape(PaintOrder[k], pieces, hash, fmt);
    AscendingLower(pieces);
  }

  /** An event made from time painted in one of the first `k` layers: timed, labelled with its status. */
  predicate MadeInLayers(o: Output, k: nat)
    requires k <= |PaintOrder|
  {
    o.Made? && !o.isAllDay && exists j :: 0 <= j < k && o.summary == Label(PaintOrder[j]).value
  }

  /**
    The output list: the OutOfOffice events first, unchanged and in input order, then events made
    from resolved time, never all-day and labelled with the status they were painted with.
  */
  lemma {:induction false} PaintedShape(events: seq<TimedEvent>, k: nat, hash: string -> string, fmt: int -> string)
    requires k <= |PaintOrder|
    ensures |KeptOf(events)| <= |Painted(events, k, hash, fmt)|
    ensures Painted(events, k, hash, fmt)[..|KeptOf(events)|] == KeptOf(events)
    ensures forall i :: |KeptOf(events)| <= i < |Painted(events, k, hash, fmt)| ==>
      MadeInLayers(Painted(events, k, hash, fmt)[i], k)
  {
    if k > 0 {
      PaintedShape(events, k - 1, hash, fmt);
      AppendLayer(KeptOf(events), Painted(events, k - 1, hash, fmt), k - 1, Visible(events, k - 1), hash, fmt);
    }
  }

  /** Appending one painted layer keeps the shape of the output list. */
  lemma AppendLayer(kept: seq<Output>, init: seq<Output>, k: nat, pieces: seq<Atomic>,
                    hash: string -> string, fmt: int -> string)
    requires k < |PaintOrder|
    requires |kept| <= |init| && init[..|kept|] == kept
    requires forall i :: |kept| <= i < |init| ==> MadeInLayers(init[i], k)
    ensures var out := init + Emit(PaintOrder[k], pieces, hash, fmt);
      && |kept| <= |out| && out[..|kept|] == kept
      && forall i :: |kept| <= i < |out| ==> MadeInLayers(out[i], k + 1)
  {
    var made := Emit(PaintOrder[k], pieces, hash, fmt);
    EmitShape(PaintOrder[k], pieces, hash, fmt);
    var out := init + made;
    forall i | |kept| <= i < |out|
      ensures MadeInLayers(out[i], k + 1)
    {
      if i < |init| {
        assert out[i] == init[i];
        var j :| 0 <= j < k && init[i].summary == Label(PaintOrder[j]).value;
      } else {
        assert out[i] == made[i - |init|];
        assert out[i].summary == Label(PaintOrder[k]).value;
      }
    }
    assert out[..|kept|] == init[..|kept|];
  }

  /** merge_events returns an empty list for no events, and otherwise fails exactly on an unknown status. */
  lemma ResolutionOutcome(events: seq<TimedEvent>, hash: string -> string, fmt: int -> string)
    ensures events == [] ==> Resolution(events, hash, fmt) == Success([])
    ensures Resolution(events, hash, fmt).Failure? <==>
      exists i :: 0 <= i < |events| && !Known(events[i].status)
    ensures forall i :: (0 <= i < |events| && !Known(events[i].status) &&
                         forall j :: 0 <= j < i ==> Known(events[j].status)) ==>
      Resolution(events, hash, fmt) == Failure(UnknownStatus(events[i].status))
  {
    forall i | 0 <= i < |events| && !Known(events[i].status) &&
      (forall j :: 0 <= j < i ==> Known(events[j].status))
      ensures Resolution(events, hash, fmt) == Failure(UnknownStatus(events[i].status))
    {
      FirstUnknownAt(events, i);
    }
  }

  /**
    Priority masking across layers: no point is painted twice, and no painted point is
    OutOfOffice time.
  */
  lemma LayersDisjoint(events: seq<TimedEvent>, j: nat, k: nat, p: int)
    requires j < k < |PaintOrder|
    ensures !(In(Visible(events, j), p) && In(Visible(events, k), p))
    ensures In(Visible(events, k), p) ==> !CoveredBy(events, OutOfOffice, p)
    ensures In(Visible(events, j), p) ==> !CoveredBy(events, OutOfOffice, p)
  {
    Priority(events, j, p);
    Priority(events, k, p);
  }

  /** Claimed time is OutOfOffice time together with the layers painted so far. */
  lemma {:induction false} OccupiedLayers(events: seq<TimedEvent>, k: nat, p: int)
    requires k <= |PaintOrder|
    ensures In(Occupied(events, k), p) <==>
      CoveredBy(events, OutOfOffice, p) || exists j :: 0 <= j < k && In(Visible(events, j), p)
  {
    if k == 0 {
      UnionOfCovers(events, OutOfOffice);
    } else {
      OccupiedLayers(events, k - 1, p);
      var prev, last := Occupied(events, k - 1), Visible(events, k - 1);
      assert Occupied(events, k) == Union(prev, last);
      UnionIn(prev, last, p);
      PaintedStep(events, k, p);
    }
  }

  /** A point painted in one of the first k rounds was painted in the first k - 1 or in round k - 1. */
  lemma PaintedStep(events: seq<TimedEvent>, k: nat, p: int)
    requires 0 < k <= |PaintOrder|
    ensures (exists j :: 0 <= j < k && In(Visible(events, j), p)) <==>
      (exists j :: 0 <= j < k - 1 && In(Visible(events, j), p)) || In(Visible(events, k - 1), p)
  {
    if exists j :: 0 <= j < k && In(Visible(events, j), p) {
      var j :| 0 <= j < k && In(Visible(events, j), p);
      if j < k - 1 {
        assert exists j' :: 0 <= j' < k - 1 && In(Visible(events, j'), p);
      }
    }
  }

  /**
    Coverage: when every status is known, the OutOfOffice events and the painted layers together
    cover exactly the time the input events cover; no time is lost or invented.
  */
  lemma Coverage(events: seq<TimedEvent>, p: int)
    requires FirstUnknown(events).None?
    ensures CoveredByAny(events, p) <==>
      CoveredBy(events, OutOfOffice, p) || exists k :: 0 <= k < |PaintOrder| && In(Visible(events, k), p)
  {
    OccupiedLayers(events, |PaintOrder|, p);
    OccupiedPoints(events, |PaintOrder|);
    ClaimedBeforeMeans(events, |PaintOrder|, p);
    if CoveredByAny(events, p) {
      var i :| 0 <= i < |events| && CoversPoint(events[i], p);
      var st := events[i].status;
      assert st == OutOfOffice || st == PaintOrder[0] || st == PaintOrder[1] || st == PaintOrder[2] || st == PaintOrder[3];
    }
  }
}

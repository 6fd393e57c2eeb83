/**
  The event records export.py passes to merge_events and get_working_hours, and what those two
  functions return. Timestamps are integer seconds in the one fixed offset all events share;
  `fromisoformat` and `strftime` are not modelled (a formatting function is a parameter where
  an id needs the formatted text).
*/
module Events {
  import opened Intervals
  import opened Statuses

  /** A timed event as built in send_calendar: summary, start, end, all-day flag, id, busy status. */
  datatype TimedEvent = TimedEvent(summary: string, start: int, end: int, isAllDay: bool, id: string, status: int)

  /** An output event: an input passed through unchanged, or one made from a resolved interval. */
  datatype Output =
    | Kept(event: TimedEvent)
    | Made(summary: string, start: int, end: int, isAllDay: bool, id: string)

  /** The calendar date of an instant: seconds divided by the length of a day, rounded down. */
  function Date(t: int): int {
    t / 86400
  }

  /** `P.closed(start, end)` for one event. */
  function SpanOf(e: TimedEvent): seq<Atomic> {
    ClosedInterval(e.start, e.end)
  }

  /** Grid point `p` lies in the closed span of `e`. */
  predicate CoversPoint(e: TimedEvent, p: int) {
    Between(2 * e.start, p, 2 * e.end)
  }

  /** Some event with status `status` among the first `n` covers grid point `p`. */
  ghost predicate CoveredUpTo(events: seq<TimedEvent>, status: int, n: nat, p: int)
    requires n <= |events|
  {
    exists i :: 0 <= i < n && events[i].status == status && CoversPoint(events[i], p)
  }

  /** Some event with status `status` covers grid point `p`. */
  ghost predicate CoveredBy(events: seq<TimedEvent>, status: int, p: int) {
    CoveredUpTo(events, status, |events|, p)
  }

  /** Some event, whatever its status, covers grid point `p`. */
  ghost predicate CoveredByAny(events: seq<TimedEvent>, p: int) {
    exists i :: 0 <= i < |events| && CoversPoint(events[i], p)
  }

  /**
    The union of the spans of the first `n` events with status `status`, accumulated left to
    right as `timeranges[...] |= P.closed(start, end)` does.
  */
  function UnionUpTo(events: seq<TimedEvent>, status: int, n: nat): seq<Atomic>
    requires n <= |events|
  {
    if n == 0 then []
    else if events[n - 1].status == status then Union(UnionUpTo(events, status, n - 1), SpanOf(events[n - 1]))
    else UnionUpTo(events, status, n - 1)
  }

  /** The union of the spans of all events with status `status`. */
  function UnionOf(events: seq<TimedEvent>, status: int): seq<Atomic> {
    UnionUpTo(events, status, |events|)
  }

  /** The accumulated union is always in canonical form. */
  lemma {:induction false} UnionUpToValid(events: seq<TimedEvent>, status: int, n: nat)
    requires n <= |events|
    ensures Valid(UnionUpTo(events, status, n))
  {
    if n > 0 {
      UnionUpToValid(events, status, n - 1);
      UnionValid(UnionUpTo(events, status, n - 1), SpanOf(events[n - 1]));
    }
  }

  /** The accumulated union covers exactly the points some event of that status covers. */
  lemma {:induction false} UnionUpToCovers(events: seq<TimedEvent>, status: int, n: nat)
    requires n <= |events|
    ensures forall p :: In(UnionUpTo(events, status, n), p) <==> CoveredUpTo(events, status, n, p)
  {
    if n > 0 {
      var last := events[n - 1];
      UnionUpToCovers(events, status, n - 1);
      forall p
        ensures In(UnionUpTo(events, status, n), p) <==> CoveredUpTo(events, status, n, p)
      {
        if last.status == status {
          UnionIn(UnionUpTo(events, status, n - 1), SpanOf(last), p);
          ClosedIntervalIn(last.start, last.end, p);
        }
        if CoveredUpTo(events, status, n, p) {
          var i :| 0 <= i < n && events[i].status == status && CoversPoint(events[i], p);
          assert i == n - 1 || CoveredUpTo(events, status, n - 1, p);
        }
      }
    }
  }

  lemma UnionOfCovers(events: seq<TimedEvent>, status: int)
    ensures forall p :: In(UnionOf(events, status), p) <==> CoveredBy(events, status, p)
  {
    UnionUpToCovers(events, status, |events|);
  }

  /** A longer input does not change the union over its prefix. */
  lemma {:induction false} UnionUpToPrefix(xs: seq<TimedEvent>, ys: seq<TimedEvent>, status: int, n: nat)
    requires n <= |xs|
    ensures UnionUpTo(xs + ys, status, n) == UnionUpTo(xs, status, n)
  {
    if n > 0 {
      assert (xs + ys)[n - 1] == xs[n - 1];
      UnionUpToPrefix(xs, ys, status, n - 1);
    }
  }

  /**
    An event of another status, wherever it stands, leaves the union unchanged: the union of
    `xs + [e] + ys` over the first `|xs| + 1 + m` events is that of `xs + ys` over `|xs| + m`.
  */
  lemma {:induction false} UnionUpToSkip(xs: seq<TimedEvent>, e: TimedEvent, ys: seq<TimedEvent>, status: int, m: nat)
    requires e.status != status && m <= |ys|
    ensures UnionUpTo(xs + [e] + ys, status, |xs| + 1 + m) == UnionUpTo(xs + ys, status, |xs| + m)
  {
    var all, rest := xs + [e] + ys, xs + ys;
    if m == 0 {
      assert all[|xs|] == e;
      assert all == xs + ([e] + ys);
      UnionUpToPrefix(xs, [e] + ys, status, |xs|);
      UnionUpToPrefix(xs, ys, status, |xs|);
    } else {
      assert all[|xs| + m] == ys[m - 1] == rest[|xs| + m - 1];
      UnionUpToSkip(xs, e, ys, status, m - 1);
    }
  }

  /** The OutOfOffice events among the first `n`, in input order, each passed through unchanged. */
  function KeptUpTo(events: seq<TimedEvent>, n: nat): (r: seq<Output>)
    requires n <= |events|
    ensures |r| <= n
    ensures forall o :: o in r ==> o.Kept? && o.event in events[..n] && o.event.status == OutOfOffice
  {
    if n == 0 then []
    else
      assert events[..n] == events[..n - 1] + [events[n - 1]];
      KeptUpTo(events, n - 1) + (if events[n - 1].status == OutOfOffice then [Kept(events[n - 1])] else [])
  }

  /** The OutOfOffice events, in input order, each passed through unchanged. */
  function KeptOf(events: seq<TimedEvent>): (r: seq<Output>)
    ensures |r| <= |events|
    ensures forall o :: o in r ==> o.Kept? && o.event in events && o.event.status == OutOfOffice
  {
    assert events[..|events|] == events;
    KeptUpTo(events, |events|)
  }

  /** Every OutOfOffice input is passed through. */
  lemma {:induction false} KeptUpToComplete(events: seq<TimedEvent>, n: nat, i: int)
    requires 0 <= i < n <= |events| && events[i].status == OutOfOffice
    ensures Kept(events[i]) in KeptUpTo(events, n)
  {
    if i < n - 1 {
      KeptUpToComplete(events, n - 1, i);
    }
  }

  lemma KeptOfComplete(events: seq<TimedEvent>, i: int)
    requires 0 <= i < |events| && events[i].status == OutOfOffice
    ensures Kept(events[i]) in KeptOf(events)
  {
    KeptUpToComplete(events, |events|, i);
  }

  /** A longer input does not change what its prefix passes through. */
  lemma {:induction false} KeptUpToPrefix(xs: seq<TimedEvent>, ys: seq<TimedEvent>, n: nat)
    requires n <= |xs|
    ensures KeptUpTo(xs + ys, n) == KeptUpTo(xs, n)
  {
    if n > 0 {
      assert (xs + ys)[n - 1] == xs[n - 1];
      KeptUpToPrefix(xs, ys, n - 1);
    }
  }

  lemma {:induction false} KeptUpToSuffix(xs: seq<TimedEvent>, ys: seq<TimedEvent>, m: nat)
    requires m <= |ys|
    ensures KeptUpTo(xs + ys, |xs| + m) == KeptOf(xs) + KeptUpTo(ys, m)
  {
    if m == 0 {
      KeptUpToPrefix(xs, ys, |xs|);
    } else {
      assert (xs + ys)[|xs| + m - 1] == ys[m - 1];
      KeptUpToSuffix(xs, ys, m - 1);
    }
  }

  /** Passing through is order preserving: it distributes over concatenation of inputs. */
  lemma KeptOfAppend(xs: seq<TimedEvent>, ys: seq<TimedEvent>)
    ensures KeptOf(xs + ys) == KeptOf(xs) + KeptOf(ys)
  {
    KeptUpToSuffix(xs, ys, |ys|);
  }
}

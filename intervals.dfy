/**
  Interval sets over integer instants, in the shape of the `portion` library used by export.py:
  an interval set is a sorted sequence of disjoint, non-adjacent atomic intervals, each with its
  own open/closed endpoint flags (difference of closed intervals produces open endpoints).

  The points of the time line are dense, but every endpoint is an integer, so the points an
  atomic interval covers are determined by "grid points": grid point 2t stands for the instant t
  and grid point 2t+1 for the open second (t, t+1). `Lo` and `Hi` give an atomic interval's first
  and last grid point; `ContainsGrid` shows that this agrees with membership of real points.
*/
module Intervals {

  datatype Bound = Open | Closed

  /** One atomic interval: `left`/`right` say whether `lower`/`upper` belong to it. */
  datatype Atomic = Atomic(left: Bound, lower: int, upper: int, right: Bound)

  /** First grid point covered by `a`. */
  function Lo(a: Atomic): int {
    if a.left == Closed then 2 * a.lower else 2 * a.lower + 1
  }

  /** Last grid point covered by `a`. */
  function Hi(a: Atomic): int {
    if a.right == Closed then 2 * a.upper else 2 * a.upper - 1
  }

  /** The other endpoint flag: a closed endpoint of `b` is an open endpoint of its complement. */
  function Flip(b: Bound): Bound {
    if b == Open then Closed else Open
  }

  /** An atomic interval is determined by its first and last grid points. */
  lemma SameEnds(a: Atomic, b: Atomic)
    requires Lo(a) == Lo(b) && Hi(a) == Hi(b)
    ensures a == b
  {
  }

  /** `portion` drops empty atomic intervals: those that cover no point. */
  predicate IsEmpty(a: Atomic) {
    Lo(a) > Hi(a)
  }

  /** Membership of a real point, read off the endpoint flags as `portion` does. */
  ghost predicate Contains(a: Atomic, x: real) {
    (if a.left == Closed then a.lower as real <= x else a.lower as real < x) &&
    (if a.right == Closed then x <= a.upper as real else x < a.upper as real)
  }

  /** The grid point a real point falls on. */
  function GridOf(x: real): int {
    if x == x.Floor as real then 2 * x.Floor else 2 * x.Floor + 1
  }

  /** The grid encoding is exact: `x` is in `a` iff its grid point lies between `Lo(a)` and `Hi(a)`. */
  lemma ContainsGrid(a: Atomic, x: real)
    ensures Contains(a, x) <==> Lo(a) <= GridOf(x) <= Hi(a)
  {
    var f := x.Floor;
    assert f as real <= x < f as real + 1.0;
    if x != f as real {
      assert a.lower as real < x <==> a.lower <= f;
      assert a.lower as real <= x <==> a.lower <= f;
      assert x < a.upper as real <==> f < a.upper;
      assert x <= a.upper as real <==> f < a.upper;
    }
  }

  predicate Between(lo: int, p: int, hi: int) {
    lo <= p <= hi
  }

  /** Grid point `p` belongs to the atomic interval `a`. */
  predicate AtomIn(a: Atomic, p: int) {
    Between(Lo(a), p, Hi(a))
  }

  /** Grid point `p` belongs to the interval set `s`: some atomic interval of `s` covers it. */
  predicate In(s: seq<Atomic>, p: int)
    decreases |s|
  {
    s != [] && (AtomIn(s[0], p) || In(s[1..], p))
  }

  /**
    `portion`'s canonical form: no atomic interval is empty and any two are separated by at
    least one point that neither covers (so overlapping or touching pieces have been merged),
    in ascending order.
  */
  predicate Valid(s: seq<Atomic>) {
    (forall i :: 0 <= i < |s| ==> Lo(s[i]) <= Hi(s[i])) &&
    (forall i, j :: 0 <= i < j < |s| ==> Hi(s[i]) + 1 < Lo(s[j]))
  }

  /** `P.closed(lower, upper)`: empty when `lower > upper`. */
  function ClosedInterval(lower: int, upper: int): (s: seq<Atomic>)
    ensures Valid(s)
    ensures |s| <= 1
    ensures forall i :: 0 <= i < |s| ==> s[i].left == Closed && s[i].right == Closed
  {
    if lower <= upper then [Atomic(Closed, lower, upper, Closed)] else []
  }

  /** A closed interval covers exactly the instants from `lower` to `upper` and the seconds between. */
  lemma ClosedIntervalIn(lower: int, upper: int, p: int)
    ensures In(ClosedInterval(lower, upper), p) <==> Between(2 * lower, p, 2 * upper)
  {
    var s := ClosedInterval(lower, upper);
    if s != [] {
      assert s[1..] == [];
    }
  }

  function Min(x: int, y: int): int { if x <= y then x else y }

  function Max(x: int, y: int): int { if x <= y then y else x }

  /** The smallest atomic interval covering both `a` and `b`. */
  function Hull(a: Atomic, b: Atomic): (h: Atomic)
    ensures Lo(h) == Min(Lo(a), Lo(b)) && Hi(h) == Max(Hi(a), Hi(b))
  {
    var first := if Lo(a) <= Lo(b) then a else b;
    var last := if Hi(a) <= Hi(b) then b else a;
    Atomic(first.left, first.lower, last.upper, last.right)
  }

  /**
    Union with one atomic interval: skip the pieces entirely before `a`, merge every piece that
    overlaps or touches it, and put it in front of the first piece entirely after it.
  */
  function Insert(s: seq<Atomic>, a: Atomic): seq<Atomic>
    decreases |s|
  {
    if IsEmpty(a) then s
    else if s == [] then [a]
    else if Hi(a) + 1 < Lo(s[0]) then [a] + s
    else if Hi(s[0]) + 1 < Lo(a) then [s[0]] + Insert(s[1..], a)
    else Insert(s[1..], Hull(s[0], a))
  }

  /** Where the union of `s` and `a` starts: at the first of their first points. */
  function FirstLo(s: seq<Atomic>, a: Atomic): int {
    if s == [] then Lo(a) else if IsEmpty(a) then Lo(s[0]) else Min(Lo(s[0]), Lo(a))
  }

  /** Inserting into a canonical set gives a canonical set, starting where `s` or `a` starts. */
  lemma {:induction false} InsertValid(s: seq<Atomic>, a: Atomic)
    requires Valid(s)
    ensures Valid(Insert(s, a))
    ensures Insert(s, a) != [] <==> s != [] || !IsEmpty(a)
    ensures Insert(s, a) != [] ==> Lo(Insert(s, a)[0]) == FirstLo(s, a)
    decreases |s|
  {
    if IsEmpty(a) || s == [] {
    } else if Hi(a) + 1 < Lo(s[0]) {
      ValidAbove(s, Hi(a) + 1);
      ValidConcat([a], s, Hi(a));
    } else if Hi(s[0]) + 1 < Lo(a) {
      ValidTail(s);
      var rest := Insert(s[1..], a);
      InsertValid(s[1..], a);
      ValidAbove(rest, Hi(s[0]) + 1);
      ValidConcat([s[0]], rest, Hi(s[0]));
    } else {
      ValidTail(s);
      InsertValid(s[1..], Hull(s[0], a));
    }
  }

  /** Every piece of a valid set starts after a point below its first piece. */
  lemma ValidAbove(s: seq<Atomic>, m: int)
    requires Valid(s) && (s != [] ==> m < Lo(s[0]))
    ensures forall j :: 0 <= j < |s| ==> m < Lo(s[j])
  {
  }

  /** Inserting `a` adds exactly the points of `a`. */
  lemma {:induction false} InsertIn(s: seq<Atomic>, a: Atomic, p: int)
    ensures In(Insert(s, a), p) <==> In(s, p) || AtomIn(a, p)
    decreases |s|
  {
    if IsEmpty(a) {
    } else if s == [] {
      assert [a][1..] == [];
    } else if Hi(a) + 1 < Lo(s[0]) {
      assert ([a] + s)[1..] == s;
    } else if Hi(s[0]) + 1 < Lo(a) {
      InsertIn(s[1..], a, p);
      assert ([s[0]] + Insert(s[1..], a))[1..] == Insert(s[1..], a);
    } else {
      InsertIn(s[1..], Hull(s[0], a), p);
    }
  }

  /** `s | t`: the pieces of `t` inserted one by one. */
  function Union(s: seq<Atomic>, t: seq<Atomic>): seq<Atomic>
    decreases |t|
  {
    if t == [] then s else Union(Insert(s, t[0]), t[1..])
  }

  /** The union of a canonical set with anything is canonical. */
  lemma {:induction false} UnionValid(s: seq<Atomic>, t: seq<Atomic>)
    requires Valid(s)
    ensures Valid(Union(s, t))
    decreases |t|
  {
    if t != [] {
      InsertValid(s, t[0]);
      UnionValid(Insert(s, t[0]), t[1..]);
    }
  }

  /** The union covers exactly the points either operand covers. */
  lemma {:induction false} UnionIn(s: seq<Atomic>, t: seq<Atomic>, p: int)
    ensures In(Union(s, t), p) <==> In(s, p) || In(t, p)
    decreases |t|
  {
    if t != [] {
      InsertIn(s, t[0], p);
      UnionIn(Insert(s, t[0]), t[1..], p);
    }
  }

  /** An atomic interval as an interval set: dropped when empty. */
  function Single(a: Atomic): (r: seq<Atomic>)
    ensures Valid(r)
    ensures forall j :: 0 <= j < |r| ==> r[j] == a
  {
    if IsEmpty(a) then [] else [a]
  }

  lemma SingleIn(a: Atomic, p: int)
    ensures In(Single(a), p) <==> AtomIn(a, p)
  {
    if !IsEmpty(a) {
      assert [a][1..] == [];
    }
  }

  /**
    The part of `a` before `b`: it ends where `a` ends or just before `b` starts, whichever is
    first, the endpoint taken from `b` changing from closed to open or back.
  */
  function Before(a: Atomic, b: Atomic): (r: Atomic)
    ensures Lo(r) == Lo(a) && Hi(r) == Min(Hi(a), Lo(b) - 1)
  {
    if Hi(a) <= Lo(b) - 1 then a else Atomic(a.left, a.lower, b.lower, Flip(b.left))
  }

  /** The part of `a` after `b`. */
  function After(a: Atomic, b: Atomic): (r: Atomic)
    ensures Lo(r) == Max(Lo(a), Hi(b) + 1) && Hi(r) == Hi(a)
  {
    if Hi(b) + 1 <= Lo(a) then a else Atomic(Flip(b.right), b.upper, a.upper, a.right)
  }

  /** `a - b` for one atomic interval: the part before `b` and the part after it. */
  function Cut(a: Atomic, b: Atomic): seq<Atomic> {
    if IsEmpty(b) then Single(a) else Single(Before(a, b)) + Single(After(a, b))
  }

  /** What is left of `a` is canonical and lies within `a`. */
  lemma CutValid(a: Atomic, b: Atomic)
    ensures Valid(Cut(a, b))
    ensures forall j :: 0 <= j < |Cut(a, b)| ==> Lo(a) <= Lo(Cut(a, b)[j]) && Hi(Cut(a, b)[j]) <= Hi(a)
  {
    if !IsEmpty(b) {
      ValidConcat(Single(Before(a, b)), Single(After(a, b)), Lo(b) - 1);
    }
  }

  /** Cutting `b` out of `a` leaves exactly the points of `a` outside `b`. */
  lemma CutIn(a: Atomic, b: Atomic, p: int)
    ensures In(Cut(a, b), p) <==> AtomIn(a, p) && !AtomIn(b, p)
  {
    if IsEmpty(b) {
      SingleIn(a, p);
    } else {
      var x, y := Before(a, b), After(a, b);
      SingleIn(x, p);
      SingleIn(y, p);
      ConcatIn(Single(x), Single(y), p);
      assert AtomIn(x, p) <==> Lo(a) <= p <= Min(Hi(a), Lo(b) - 1);
      assert AtomIn(y, p) <==> Max(Lo(a), Hi(b) + 1) <= p <= Hi(a);
    }
  }

  /** `s - b` for one atomic interval `b`: each piece cut in turn. */
  function Remove(s: seq<Atomic>, b: Atomic): seq<Atomic>
    decreases |s|
  {
    if s == [] then [] else Cut(s[0], b) + Remove(s[1..], b)
  }

  /** Removing from a canonical set gives a canonical set, starting no earlier. */
  lemma {:induction false} RemoveValid(s: seq<Atomic>, b: Atomic)
    requires Valid(s)
    ensures Valid(Remove(s, b))
    ensures forall j :: 0 <= j < |Remove(s, b)| ==> |s| > 0 && Lo(s[0]) <= Lo(Remove(s, b)[j])
    decreases |s|
  {
    if s != [] {
      ValidTail(s);
      RemoveValid(s[1..], b);
      CutValid(s[0], b);
      var head, tail := Cut(s[0], b), Remove(s[1..], b);
      assert forall j :: 0 <= j < |tail| ==> Hi(s[0]) + 1 < Lo(tail[j]);
      ValidConcat(head, tail, Hi(s[0]));
      assert forall j :: 0 <= j < |head + tail| ==> Lo(s[0]) <= Lo((head + tail)[j]);
    }
  }

  /** Removing `b` takes away exactly the points of `b`. */
  lemma {:induction false} RemoveIn(s: seq<Atomic>, b: Atomic, p: int)
    ensures In(Remove(s, b), p) <==> In(s, p) && !AtomIn(b, p)
    decreases |s|
  {
    if s != [] {
      RemoveIn(s[1..], b, p);
      CutIn(s[0], b, p);
      ConcatIn(Cut(s[0], b), Remove(s[1..], b), p);
    }
  }

  /** `s - t`: the pieces of `t` removed one by one. */
  function Difference(s: seq<Atomic>, t: seq<Atomic>): seq<Atomic>
    decreases |t|
  {
    if t == [] then s else Difference(Remove(s, t[0]), t[1..])
  }

  /** The difference of a canonical set and anything is canonical. */
  lemma {:induction false} DifferenceValid(s: seq<Atomic>, t: seq<Atomic>)
    requires Valid(s)
    ensures Valid(Difference(s, t))
    decreases |t|
  {
    if t != [] {
      RemoveValid(s, t[0]);
      DifferenceValid(Remove(s, t[0]), t[1..]);
    }
  }

  /** The difference covers exactly the points of `s` that `t` does not cover. */
  lemma {:induction false} DifferenceIn(s: seq<Atomic>, t: seq<Atomic>, p: int)
    ensures In(Difference(s, t), p) <==> In(s, p) && !In(t, p)
    decreases |t|
  {
    if t != [] {
      RemoveIn(s, t[0], p);
      DifferenceIn(Remove(s, t[0]), t[1..], p);
    }
  }

  lemma ValidTail(s: seq<Atomic>)
    requires Valid(s) && s != []
    ensures Valid(s[1..])
    ensures forall j :: 0 <= j < |s| - 1 ==> s[1..][j] == s[j + 1]
    ensures |s| > 1 ==> Hi(s[0]) + 1 < Lo(s[1])
  {
  }

  /** Two valid sets, the first ending before grid point `m + 1` and the second starting after it. */
  lemma ValidConcat(s: seq<Atomic>, t: seq<Atomic>, m: int)
    requires Valid(s) && Valid(t)
    requires forall i :: 0 <= i < |s| ==> Hi(s[i]) <= m
    requires forall j :: 0 <= j < |t| ==> m + 1 < Lo(t[j])
    ensures Valid(s + t)
  {
    forall i, j | 0 <= i < j < |s + t|
      ensures Hi((s + t)[i]) + 1 < Lo((s + t)[j])
    {
      if j < |s| {
        assert (s + t)[i] == s[i] && (s + t)[j] == s[j];
      } else if i < |s| {
        assert (s + t)[i] == s[i] && (s + t)[j] == t[j - |s|];
      } else {
        assert (s + t)[i] == t[i - |s|] && (s + t)[j] == t[j - |s|];
      }
    }
  }

  /** Membership in a concatenation is membership in either part. */
  lemma {:induction false} ConcatIn(s: seq<Atomic>, t: seq<Atomic>, p: int)
    ensures In(s + t, p) <==> In(s, p) || In(t, p)
    decreases |s|
  {
    if s == [] {
      assert s + t == t;
    } else {
      assert (s + t)[0] == s[0];
      assert (s + t)[1..] == s[1..] + t;
      ConcatIn(s[1..], t, p);
    }
  }

  /** Membership means some piece covers the point. */
  lemma {:induction false} InIndex(s: seq<Atomic>, p: int)
    ensures In(s, p) <==> exists k :: 0 <= k < |s| && AtomIn(s[k], p)
    decreases |s|
  {
    if s != [] {
      InIndex(s[1..], p);
      if exists k :: 0 <= k < |s| && AtomIn(s[k], p) {
        var k :| 0 <= k < |s| && AtomIn(s[k], p);
        if k > 0 {
          assert s[1..][k - 1] == s[k];
        }
      }
      if exists k :: 0 <= k < |s| - 1 && AtomIn(s[1..][k], p) {
        var k :| 0 <= k < |s| - 1 && AtomIn(s[1..][k], p);
        assert s[k + 1] == s[1..][k];
      }
    }
  }

  /** Every point of a valid set lies at or after its first piece's first point. */
  lemma InFrom(s: seq<Atomic>, p: int)
    requires Valid(s) && In(s, p)
    ensures s != [] && Lo(s[0]) <= p
  {
    InIndex(s, p);
    var k :| 0 <= k < |s| && AtomIn(s[k], p);
  }

  /**
    The first piece of a valid set is maximal and followed by a gap: the rest lies after the grid
    point just past it, which the set does not cover.
  */
  lemma SplitFirst(s: seq<Atomic>, p: int)
    requires Valid(s) && s != []
    ensures In(s[1..], p) ==> Hi(s[0]) + 1 < p
    ensures !In(s, Hi(s[0]) + 1)
    ensures In(s, Lo(s[0]))
  {
    ValidTail(s);
    if In(s[1..], p) {
      InFrom(s[1..], p);
    }
    if In(s[1..], Hi(s[0]) + 1) {
      InFrom(s[1..], Hi(s[0]) + 1);
    }
  }

  /**
    A valid set is determined by the points it covers: two canonical sets with the same points
    are the same sequence. So the model's union and difference return what `portion` returns.
  */
  lemma {:induction false} Canonical(s: seq<Atomic>, t: seq<Atomic>)
    requires Valid(s) && Valid(t)
    requires forall p :: In(s, p) <==> In(t, p)
    ensures s == t
    decreases |s|
  {
    if s != [] && t != [] {
      SplitFirst(s, Lo(t[0]));
      SplitFirst(t, Lo(s[0]));
      InFrom(s, Lo(t[0]));
      InFrom(t, Lo(s[0]));
      SplitFirst(s, Hi(t[0]) + 1);
      SplitFirst(t, Hi(s[0]) + 1);
      // A longer first piece in one set would cover the other's uncovered point Hi + 1.
      assert Hi(s[0]) == Hi(t[0]);
      SameEnds(s[0], t[0]);
      ValidTail(s);
      ValidTail(t);
      forall p
        ensures In(s[1..], p) <==> In(t[1..], p)
      {
        SplitFirst(s, p);
        SplitFirst(t, p);
        assert In(s, p) <==> In(t, p);
      }
      Canonical(s[1..], t[1..]);
      assert s == [s[0]] + s[1..] && t == [t[0]] + t[1..];
    } else if s != [] {
      SplitFirst(s, 0);
    } else if t != [] {
      SplitFirst(t, 0);
    }
  }

  /** Merging an already merged set changes nothing: `s | s == s` and `empty | s == s`. */
  lemma UnionIdempotent(s: seq<Atomic>)
    requires Valid(s)
    ensures Union(s, s) == s
    ensures Union([], s) == s
  {
    UnionValid(s, s);
    UnionValid([], s);
    forall p
      ensures In(Union(s, s), p) <==> In(s, p)
      ensures In(Union([], s), p) <==> In(s, p)
    {
      UnionIn(s, s, p);
      UnionIn([], s, p);
    }
    Canonical(Union(s, s), s);
    Canonical(Union([], s), s);
  }

  /**
    The pieces of a valid set come in strictly ascending order of their lower endpoints, and each
    piece starts no later than it ends.
  */
  lemma AscendingLower(s: seq<Atomic>)
    requires Valid(s)
    ensures forall i, j :: 0 <= i < j < |s| ==> s[i].lower < s[j].lower
    ensures forall i :: 0 <= i < |s| ==> s[i].lower <= s[i].upper
  {
  }

  /**
    Two consecutive pieces are never merged only because a point between them is not covered:
    the pieces are maximal.
  */
  lemma GapBetween(s: seq<Atomic>, i: int)
    requires Valid(s) && 0 <= i < |s| - 1
    ensures Hi(s[i]) < Hi(s[i]) + 1 < Lo(s[i + 1]) && !In(s, Hi(s[i]) + 1)
  {
    forall k | 0 <= k < |s|
      ensures !AtomIn(s[k], Hi(s[i]) + 1)
    {
      if k > i + 1 {
        assert Lo(s[i + 1]) < Lo(s[k]);
      }
    }
    InIndex(s, Hi(s[i]) + 1);
  }
}

/**
  The strings export.py hashes into event ids. The hash itself (SHA-256 as hex) and the
  timestamp formatting (`strftime("%Y-%m-%dT%H:%M:%S%z")`) are parameters of the operations that
  use these keys; an id is `hash(key)`, so equal keys give equal ids on every run.
*/
module Identity {
  import opened Statuses

  /** Python's `str(b)` for a bool. */
  function PyBool(b: bool): string {
    if b then "True" else "False"
  }

  /** Key of a derived busy-status event: status key + start + end (export.py:168). */
  function DerivedKey(statusKey: string, start: string, end: string): string {
    statusKey + start + end
  }

  /** Key of a working event: "working" + start + end (export.py:223). */
  function WorkingKey(start: string, end: string): string {
    "working" + start + end
  }

  /** Key of an event read from the calendar: mode + subject + start + end + str(allDay) (export.py:70). */
  function EventKey(mode: string, subject: string, start: string, end: string, isAllDay: bool): string {
    mode + subject + start + end + PyBool(isAllDay)
  }

  /**
    With timestamps of one fixed width (as the format above gives), a derived key determines the
    status and both timestamps: different derived events never share a key.
  */
  lemma DerivedKeyInjective(st1: int, s1: string, e1: string, st2: int, s2: string, e2: string)
    requires Key(st1).Some? && Key(st2).Some?
    requires |s1| == |e1| == |s2| == |e2|
    requires DerivedKey(Key(st1).value, s1, e1) == DerivedKey(Key(st2).value, s2, e2)
    ensures st1 == st2 && s1 == s2 && e1 == e2
  {
    var k1, k2 := Key(st1).value, Key(st2).value;
    var w := |s1|;
    var key := DerivedKey(k1, s1, e1);
    assert |k1| == |k2|;
    assert k1 == key[..|k1|] == k2;
    TablesInjective(st1, st2);
    assert s1 == key[|k1|..|k1| + w] == s2;
    assert e1 == key[|k1| + w..] == e2;
  }

  /** A working key never equals a derived key: it starts with `w`, and no status key does. */
  lemma WorkingKeyDistinct(st: int, s1: string, e1: string, s2: string, e2: string)
    requires Key(st).Some?
    ensures WorkingKey(s1, e1) != DerivedKey(Key(st).value, s2, e2)
  {
    var k := Key(st).value;
    assert k[0] != 'w';
    assert WorkingKey(s1, e1)[0] == 'w' && DerivedKey(k, s2, e2)[0] == k[0];
  }

  /**
    An event key ends with the two timestamps and the all-day flag, so with fixed-width
    timestamps it determines them, and what is left is mode + subject.
  */
  lemma EventKeyFields(m1: string, sub1: string, s1: string, e1: string, d1: bool,
                       m2: string, sub2: string, s2: string, e2: string, d2: bool)
    requires |s1| == |e1| == |s2| == |e2|
    requires EventKey(m1, sub1, s1, e1, d1) == EventKey(m2, sub2, s2, e2, d2)
    ensures d1 == d2 && s1 == s2 && e1 == e2 && m1 + sub1 == m2 + sub2
  {
    var p1, p2 := m1 + sub1 + s1 + e1, m2 + sub2 + s2 + e2;
    var key := p1 + PyBool(d1);
    assert key == p2 + PyBool(d2);
    var n := |key|;
    // The second-to-last character is 'u' in "True" and 's' in "False".
    assert key[n - 2] == PyBool(d1)[|PyBool(d1)| - 2];
    assert key[n - 2] == PyBool(d2)[|PyBool(d2)| - 2];
    assert d1 == d2;
    assert p1 == key[..|p1|] == p2;
    var w := |s1|;
    var q := |p1|;
    assert e1 == p1[q - w..] == e2;
    assert s1 == p1[q - 2 * w..q - w] == s2;
    assert m1 + sub1 == p1[..q - 2 * w] == m2 + sub2;
  }
}

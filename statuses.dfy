/**
  The Outlook busy-status codes and the two static tables of export.py that name them: a display
  label and a short key. Looking a code up in either table fails (a `KeyError`) outside 0..4.
*/
module Statuses {
  import opened Wrappers

  const Free: int := 0
  const Tentative: int := 1
  const Busy: int := 2
  const OutOfOffice: int := 3
  const Elsewhere: int := 4

  /** A status code the two tables know. */
  predicate Known(status: int) {
    Free <= status <= Elsewhere
  }

  /** `busy_status_label[status]`. */
  function Label(status: int): (r: Option<string>)
    ensures r.Some? <==> Known(status)
  {
    match status
    case 0 => Some("空き時間")
    case 1 => Some("仮の予定")
    case 2 => Some("予定あり")
    case 3 => Some("不在")
    case 4 => Some("他の場所")
    case _ => None
  }

  /** `busy_status_key[status]`. */
  function Key(status: int): (r: Option<string>)
    ensures r.Some? <==> Known(status)
  {
    match status
    case 0 => Some("free")
    case 1 => Some("tentative")
    case 2 => Some("busy")
    case 3 => Some("ooo")
    case 4 => Some("elsewhere")
    case _ => None
  }

  /** The order in which merge_events paints the statuses below OutOfOffice, highest priority first. */
  const PaintOrder: seq<int> := [Busy, Tentative, Elsewhere, Free]

  /** Both tables are one-to-one, so a key or a label names a single status. */
  lemma TablesInjective(a: int, b: int)
    requires Key(a).Some? && Key(b).Some?
    ensures Key(a) == Key(b) ==> a == b
    ensures Label(a) == Label(b) ==> a == b
  {
  }

  /** Every known status other than OutOfOffice is painted exactly once. */
  lemma PaintOrderIsPermutation(status: int)
    ensures status in PaintOrder <==> Key(status).Some? && status != OutOfOffice
    ensures forall i, j :: 0 <= i < j < |PaintOrder| ==> PaintOrder[i] != PaintOrder[j]
  {
  }
}

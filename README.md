# Calendar busy-status resolver and ICS import, modelled in Dafny

The system synchronises an Outlook calendar to a Google calendar, and this project models two
pieces of it.

The first piece is `export.py`. It reduces the timed Outlook events of the export window (from
`past` days back to `future` days ahead) to one event per stretch of time, in one of two ways:

- `merge_events` is the busy-status view. OutOfOffice events pass through unchanged and claim their
  time first. The other statuses are unioned per status and painted in the order Busy, Tentative,
  WorkingElsewhere, Free. Each status keeps only the time that no earlier status claimed.
- `get_working_hours` is the working-hours view. It unions the Tentative, Busy and
  WorkingElsewhere events into maximal pieces. It bridges each pair of consecutive pieces whose
  gap does not cross midnight. Then it removes the OutOfOffice time and emits what is left as
  "勤務" (working) events.

The second piece is `import_ics.js`, the Apps Script web hook on the Google side. `doPost` splits
the posted iCalendar text on `BEGIN:VEVENT` and reads `DTSTART`, `DTEND` and `SUMMARY` from each
block with regular expressions. `parseICSTime` turns a `YYYYMMDDTHHMMSS[Z|±hhmm]` stamp into an
epoch-millisecond instant, as `Date.UTC` computes it.

## Modules

| file | module | what it holds |
|---|---|---|
| `wrappers.dfy` | `Wrappers` | `Option` and `Result` |
| `intervals.dfy` | `Intervals` | the interval-set algebra export.py takes from the `portion` library |
| `statuses.dfy` | `Statuses` | the status codes and the label and key tables |
| `identity.dfy` | `Identity` | the strings the ids are hashed from |
| `events.dfy` | `Events` | event records, and the per-status unions and pass-through shared by both functions |
| `busy_status.dfy` | `BusyStatus` | `merge_events` |
| `working_hours.dfy` | `WorkingHours` | `get_working_hours` |
| `text.dfy` | `Text` | digits, `parseInt`, zero padding, leftmost regex search |
| `ics_time.dfy` | `IcsTime` | `parseICSTime` and ECMAScript `Date.UTC` |
| `ics_import.dfy` | `IcsImport` | the `doPost` extraction loop |

### How the interval sets are represented

An interval set is a sorted sequence of atomic intervals. Each atomic interval carries its own
open or closed endpoint flags, because the difference of two closed intervals has open ends. The
sequence is in `portion`'s canonical form (`Intervals.Valid`): the pieces are non-empty, disjoint
and non-adjacent.

Timestamps are integer seconds in one fixed offset. Every endpoint is an integer, so proofs count
"grid points" rather than real numbers:

- grid point 2t is the instant t;
- grid point 2t+1 is the open second (t, t+1).

`Intervals.ContainsGrid` shows that this counting agrees with membership of real points. The
calendar date of an instant is `t / 86400`.

### How the loops are modelled

The loops of `merge_events`, `get_working_hours` and `doPost` are Dafny methods. Each is proved
equal to a function that states what the loop builds. The properties are then proved about that
function.

### Parameters standing in for code the model does not contain

- The id hash (SHA-256 of the key string) is a function parameter `hash`.
- `strftime` of a timestamp is a function parameter `fmt`.
- The key strings fed to the hash are modelled exactly, in `Identity`.

### Behaviour of the code worth knowing

- **Output order.** The output is not sorted. `merge_events` returns the OutOfOffice
  events first, in input order. Then come the Busy pieces, then Tentative, then
  WorkingElsewhere, then Free, each group in ascending order (`BusyStatus.PaintedShape`,
  `BusyStatus.LayerAscending`).
- **Working span.** For a bridged pair of occupying pieces, `get_working_hours` adds the whole span
  `[E[i].lower, E[i+1].upper]`, not only the gap between them. So two Busy events 09:00–09:30 and
  12:00–12:30 give working time 09:00–12:30 (`WorkingHours.PairSpan`).
- **OutOfOffice events.** Both functions pass the OutOfOffice events through one by one,
  unmerged, so they may overlap each other. `merge_events` raises `KeyError` on a status code it
  has no key for. `get_working_hours` silently ignores such a code, and Free as well.
- **Timed events only.** Both functions receive only the timed events (export.py:93-97). The
  all-day events are put in front of their result unchanged, outside both functions.

## Model

| member | source | states |
|---|---|---|
| Statuses.Label | export.py:18-24 | a label exists exactly for the five status codes 0 to 4 |
| Statuses.Key | export.py:26-32 | a key exists exactly for the five status codes 0 to 4 |
| Statuses.TablesInjective | export.py:18-32 | different known statuses have different keys and different labels, so a dict keyed by key string is a dict keyed by status |
| Statuses.PaintOrderIsPermutation | export.py:162 | the paint order lists each keyed status other than OutOfOffice exactly once |
| Identity.DerivedKeyInjective | export.py:168 | with fixed-width timestamps, the key of a derived event determines its status and both timestamps |
| Identity.WorkingKeyDistinct | export.py:168-223 | a working event's key ("working" + start + end) never equals a derived busy-status event's key |
| Identity.EventKeyFields | export.py:70 | with fixed-width timestamps, the key of a calendar event determines its start, end and all-day flag, and mode + subject |
| Intervals.ContainsGrid | export.py:157 | a real instant lies in an atomic interval exactly when its grid point lies between the interval's first and last grid points |
| Intervals.ClosedInterval | export.py:157 | `P.closed(start, end)` is canonical, has at most one piece, and that piece is closed at both ends |
| Intervals.ClosedIntervalIn | export.py:157 | `P.closed(start, end)` holds exactly the points from start to end |
| Intervals.Hull | export.py:159 | the merge of two pieces spans from the lower start to the higher end |
| Intervals.InsertValid | export.py:159 | adding one piece to a canonical set gives a canonical set, empty only when both were empty |
| Intervals.InsertIn | export.py:159 | adding one piece gives exactly the points of the set and of the piece |
| Intervals.UnionValid | export.py:159 | the union update keeps the set canonical |
| Intervals.UnionIn | export.py:159 | the union update gives exactly the points in either operand |
| Intervals.UnionIdempotent | export.py:159 | unioning a canonical set with itself, or into an empty set, returns it unchanged |
| Intervals.Single | export.py:159 | one piece on its own, dropped when empty, is a canonical set |
| Intervals.SingleIn | export.py:159 | that set holds exactly the piece's points |
| Intervals.Before | export.py:163 | the part of a piece left of another keeps its start and ends just before the other begins |
| Intervals.After | export.py:163 | the part of a piece right of another starts just after the other ends and keeps its end |
| Intervals.CutValid | export.py:163 | cutting one piece out of another leaves a canonical set inside the original piece |
| Intervals.CutIn | export.py:163 | cutting leaves exactly the points of the first piece outside the second |
| Intervals.RemoveValid | export.py:163 | removing a piece from a canonical set leaves a canonical set starting no earlier |
| Intervals.RemoveIn | export.py:163 | removing a piece leaves exactly the set's points outside it |
| Intervals.DifferenceValid | export.py:163 | `-` keeps a canonical set canonical |
| Intervals.DifferenceIn | export.py:163 | `s - t` holds exactly the points of s not in t |
| Intervals.Canonical | export.py:165 | two canonical sets with the same points are the same sequence of pieces |
| Intervals.AscendingLower | export.py:165 | iteration yields pieces in strictly ascending lower bound, and every piece, the last included, has lower <= upper |
| Intervals.GapBetween | export.py:213-215 | consecutive pieces of a canonical set are separated by a point the set does not hold |
| Intervals.InIndex | export.py:165 | a point is in a set exactly when one of its pieces holds it |
| Intervals.SplitFirst | export.py:165 | the first piece starts the set, and a point just past it lies outside the set |
| Events.UnionUpToValid | export.py:157-159 | the per-status union accumulated by the loop is canonical at every step |
| Events.UnionUpToCovers | export.py:157-159 | after n events, the union of a status holds exactly the points some earlier event of that status covers |
| Events.UnionOfCovers | export.py:157-159 | the final union of a status holds exactly the points its events cover |
| Events.UnionUpToPrefix | export.py:149 | events later in the list do not change the union over the earlier ones |
| Events.UnionUpToSkip | export.py:153-158 | an event of another status leaves a status's union unchanged wherever it stands in the input |
| Events.KeptUpTo | export.py:154-156 | after n events the pass-through list holds only OutOfOffice inputs among the first n, unchanged |
| Events.KeptOf | export.py:154-156 | the pass-through list is no longer than the input and holds only OutOfOffice inputs, unchanged |
| Events.KeptUpToComplete | export.py:154-156 | every OutOfOffice event among the first n is passed through |
| Events.KeptOfComplete | export.py:154-156 | every OutOfOffice input is passed through |
| Events.KeptUpToPrefix | export.py:149 | events later in the list do not change what is passed through for the earlier ones |
| Events.KeptUpToSuffix | export.py:149 | the pass-through of a concatenation, counted into the second part, is the first part's followed by the second's prefix |
| Events.KeptOfAppend | export.py:149-156 | pass-through keeps input order: it distributes over concatenation |
| BusyStatus.FirstUnknown | export.py:159 | none exactly when every status has a key; otherwise a status without one |
| BusyStatus.FirstUnknownAt | export.py:149-159 | the `KeyError` names the first event, in input order, whose status has no key |
| BusyStatus.AddEvent | export.py:150-159 | one loop step passes an OutOfOffice event through and adds it to `occupied`, or adds another event's span to its status's union; an unknown status is the `KeyError` |
| BusyStatus.Collect | export.py:147-159 | the first loop fails exactly on the first unknown status; otherwise it ends with the pass-through list, the OutOfOffice union and every status's union |
| BusyStatus.TracksAdd | export.py:159 | updating one status's entry keeps the dict holding each status's union |
| BusyStatus.TracksLookup | export.py:163 | every painted status has an entry, holding the union of that status's events |
| BusyStatus.EmitPieces | export.py:165-178 | the inner loop appends one event per piece, in order, to the output list |
| BusyStatus.EmitStep | export.py:165-178 | emitting one more piece appends exactly that piece's event |
| BusyStatus.PaintLayer | export.py:162-179 | one round of the paint loop extends the output with the status's visible pieces and extends `occupied` by them |
| BusyStatus.MergeEvents | export.py:134-181 | the function returns exactly the painted output, or raises the `KeyError` of the first unknown status |
| BusyStatus.ResolutionOutcome | export.py:136-159 | empty input gives an empty list; the call fails exactly when some status has no key, with the first such status |
| BusyStatus.LayersValid | export.py:163-179 | `occupied` and every visible set are canonical |
| BusyStatus.ClaimedBeforeMeans | export.py:157-179 | a point is claimed before round k exactly when an OutOfOffice event or an event of an earlier-painted status covers it |
| BusyStatus.OccupiedPoints | export.py:157-179 | `occupied` before round k holds exactly the points claimed before round k |
| BusyStatus.VisiblePoints | export.py:163 | a status's visible set holds exactly its covered points that no one claimed before it |
| BusyStatus.Priority | export.py:162-163 | a point is painted with a status exactly when that status covers it, no OutOfOffice event covers it, and no earlier status in the order covers it |
| BusyStatus.LayersDisjoint | export.py:157-179 | two different statuses never paint the same point, and no painted point lies in OutOfOffice time |
| BusyStatus.OccupiedLayers | export.py:179 | `occupied` before round k is exactly the OutOfOffice time plus the pieces painted in earlier rounds |
| BusyStatus.PaintedStep | export.py:179 | a point painted in one of the first k rounds was painted in one of the first k-1 or in round k, and conversely |
| BusyStatus.Coverage | export.py:157-179 | a point is covered by some input exactly when it is OutOfOffice time or painted by some status: no time is lost or invented |
| BusyStatus.EmitShape | export.py:165-178 | one output event per piece, the j-th made from the j-th piece |
| BusyStatus.LayerAscending | export.py:165-178 | within one status, every event is made with start <= end, and the events come in strictly ascending start order |
| BusyStatus.PaintedShape | export.py:148-178 | the output starts with the OutOfOffice events unchanged and in input order; every later event is made, not all-day, and carries a painted status's label |
| BusyStatus.AppendLayer | export.py:170-178 | appending a round's events keeps the pass-through prefix and adds only made, labelled, not-all-day events |
| WorkingHours.OccupyingUpToValid | export.py:204-208 | the union of occupying events is canonical at every step |
| WorkingHours.OccupyingUpToCovers | export.py:204-208 | after n events, the occupying union holds exactly the points some earlier Tentative, Busy or WorkingElsewhere event covers |
| WorkingHours.OccupyingOfCovers | export.py:204-208 | the final occupying union holds exactly the points an occupying event covers |
| WorkingHours.OccupyingUpToPrefix | export.py:195 | events later in the list do not change the occupying union over the earlier ones |
| WorkingHours.OccupyingUpToSkip | export.py:205-211 | an event that does not occupy leaves the occupying union unchanged wherever it stands in the input |
| WorkingHours.BridgesUpToValid | export.py:213-216 | the working set built from pairs is canonical at every step |
| WorkingHours.BridgesUpToIn | export.py:213-216 | after n pairs, the working set holds exactly the points in the span of an examined pair whose end and next start share a date |
| WorkingHours.ReadEvent | export.py:196-211 | one loop step passes an OutOfOffice event through and adds it to `occupied`, adds an occupying event to `timerange_event`, and ignores anything else |
| WorkingHours.ReadEvents | export.py:195-211 | the first loop over the events yields the passed-through OutOfOffice events, the union of OutOfOffice time and the list of occupying ranges |
| WorkingHours.BridgePairs | export.py:213-216 | the pair loop builds the union of the spans of all same-date pairs |
| WorkingHours.EmitWorkingStep | export.py:220-233 | emitting one more piece appends exactly that piece's working event |
| WorkingHours.EmitWorkingPieces | export.py:220-233 | the final loop appends one working event per piece, in order, after the events already collected |
| WorkingHours.GetWorkingHours | export.py:184-235 | the function returns empty for empty input, else the OutOfOffice events then one working event per piece of bridged time minus OutOfOffice time |
| WorkingHours.WorkingPoints | export.py:213-218 | a point is working time exactly when it lies in the span of a same-date pair and in no OutOfOffice event |
| WorkingHours.PairSpan | export.py:215-218 | for a same-date pair, both events and everything between them are working time, except OutOfOffice time |
| WorkingHours.DifferenceOfEmpty | export.py:218 | subtracting from an empty set leaves it empty |
| WorkingHours.FewerThanTwo | export.py:213-216 | with fewer than two occupying pieces, no working event is produced |
| WorkingHours.IgnoredStatus | export.py:209-211 | a Free event, or one with a status code outside 0 to 4, changes nothing wherever it stands in the input |
| WorkingHours.IgnoredInputs | export.py:194-211 | an ignored event, wherever it stands, changes neither the pass-through list, the OutOfOffice union nor the occupying union |
| WorkingHours.EmitWorkingShape | export.py:220-233 | one working event per piece, the j-th made from the j-th piece |
| WorkingHours.AppendWorking | export.py:220-233 | every appended event is a "勤務" event, not all-day, with start <= end, and they come in strictly ascending start order |
| WorkingHours.WorkingValid | export.py:218 | the working set after subtraction is canonical |
| WorkingHours.WorkingHoursShape | export.py:194-233 | the output starts with the OutOfOffice events unchanged; every later event is a non-all-day "勤務" event with start <= end, in ascending start order |
| Text.Value | import_ics.js:77-82 | `parseInt` of k digits is below 10^k |
| Text.Pad | import_ics.js:68 | a zero-padded number has exactly the field width and only digits |
| Text.PadValue | import_ics.js:77-82 | `parseInt` of a zero-padded number that fits its width gives the number back |
| Text.Leftmost | import_ics.js:67-69 | a non-global regex match is reported at a position where the pattern matches |
| Text.LeftmostSpec | import_ics.js:67-70 | no earlier position matches; a null match means no position matches |
| Text.LeftmostAt | import_ics.js:67-69 | the first matching position is where the match is reported |
| IcsTime.FieldsOf | import_ics.js:72-82 | the six captured numbers fit the widths of the pattern |
| IcsTime.ZoneAt | import_ics.js:68-90 | a captured offset has two-digit hours and minutes |
| IcsTime.ParseNull | import_ics.js:67-70 | the result is null exactly when no stamp occurs anywhere in the text |
| IcsTime.ReadingLeftmost | import_ics.js:67-72 | the fields and zone are read from the leftmost stamp |
| IcsTime.FormatFields | import_ics.js:68-82 | writing fields that fit as `YYYYMMDDTHHMMSS` gives a stamp whose captured fields are those fields |
| IcsTime.FormatLayout | import_ics.js:68 | a written stamp has the shape the pattern matches, with each field zero-padded in its own digit group |
| IcsTime.ReadStamp | import_ics.js:67-72 | a text starting with a stamp is read from that stamp, with the zone read right after it |
| IcsTime.ReadPlain | import_ics.js:67-72 | a bare stamp is read with no zone |
| IcsTime.RoundTrip | import_ics.js:75-87 | formatting fields with a year from 100 on and parsing them, with or without `Z`, gives their UTC instant |
| IcsTime.TwoDigitYear | import_ics.js:75-84 | a year below 100 is parsed as the year 1900 later |
| IcsTime.SuffixShift | import_ics.js:87-92 | whatever follows a stamp moves its instant back by the offset read there |
| IcsTime.ZoneOfSuffix | import_ics.js:68-91 | a written `±hhmm` is read back as that sign, hours and minutes; with SuffixShift, and OffsetMs giving `sign * ((hh * 60 + mm) * 60000)`, the instant moves back by that offset |
| IcsTime.ZeroZones | import_ics.js:87-91 | `Z`, `+0000` and `-0000` all have offset zero |
| IcsTime.NoShift | import_ics.js:87-92 | a suffix whose offset is zero leaves the instant unchanged |
| IcsTime.ZeroOffset | import_ics.js:87-92 | `+0000`, `-0000` and `Z` give the same instant as no suffix |
| IcsTime.YearLength | import_ics.js:76 | the day count of January 1 advances by 366 over a leap year and 365 otherwise |
| IcsTime.NextDay | import_ics.js:76-79 | the calendar day after a valid date is a valid date |
| IcsTime.December | import_ics.js:76-79 | the days before December are 334, or 335 in a leap year |
| IcsTime.DayStep | import_ics.js:76-79 | the day number of the next date is one more, across month ends and year ends |
| IcsTime.NextDayNumber | import_ics.js:76-79 | on every valid date, the next calendar day has the next day number |
| IcsTime.Epoch | import_ics.js:76-79 | 1970-01-01 is day 0 |
| IcsImport.Split | import_ics.js:35 | splitting always yields at least one piece |
| IcsImport.SplitJoin | import_ics.js:35 | joining the pieces with `BEGIN:VEVENT` gives the text back |
| IcsImport.SplitWhole | import_ics.js:35 | text without `BEGIN:VEVENT` splits into the one piece that is the whole text |
| IcsImport.SplitPieces | import_ics.js:35 | no piece contains `BEGIN:VEVENT` |
| IcsImport.SplitAfter | import_ics.js:35 | text up to the first marker becomes the first piece, and the rest is split on its own |
| IcsImport.JoinSplit | import_ics.js:35 | splitting the join of marker-free pieces gives those pieces back |
| IcsImport.Capture | import_ics.js:38-41 | the captured group is the stamp plus, when one follows, a signed four-digit offset, and never a `Z` |
| IcsImport.PropertyAt | import_ics.js:38-41 | a property match starts with the property name and captures a stamp; PlainPropertyMatches and TzidPropertyMatches state when it matches |
| IcsImport.PlainPropertyMatches | import_ics.js:37-42 | `NAME:` directly followed by a stamp matches there, and the group is that stamp with its offset, if any |
| IcsImport.TzidPropertyMatches | import_ics.js:37-42 | `NAME;TZID=zone:` followed by a stamp matches there, the zone running to the first colon, and the group is the stamp after it |
| IcsImport.DtStart | import_ics.js:37-39 | a found `DTSTART` value starts with a stamp; DtStartFirst and DtStartNone state which match it is and when there is none |
| IcsImport.DtEnd | import_ics.js:40-42 | a found `DTEND` value starts with a stamp; DtEndFirst and DtEndNone state which match it is and when there is none |
| IcsImport.DtStartFirst | import_ics.js:37-39 | the DTSTART value is the group of the first position where the property matches |
| IcsImport.DtStartNone | import_ics.js:37-39 | the DTSTART match is null exactly when the property matches at no position |
| IcsImport.DtEndFirst | import_ics.js:40-42 | the DTEND value is the group of the first position where the property matches |
| IcsImport.DtEndNone | import_ics.js:40-42 | the DTEND match is null exactly when the property matches at no position |
| IcsImport.ReadBlock | import_ics.js:37-50 | one pass of the `forEach` body gives the block's entry, or nothing |
| IcsImport.ExtractEvents | import_ics.js:35-52 | the loop creates exactly the entries of the blocks after the first marker, in order |
| IcsImport.FilterMapStep | import_ics.js:36-50 | one more block appends its entry, if it has one |
| IcsImport.FilterMapAppend | import_ics.js:36-50 | entries are created in block order: the result distributes over concatenation |
| IcsImport.FilterMapBound | import_ics.js:36-50 | each block gives at most one entry |
| IcsImport.FilterMapSingle | import_ics.js:45-50 | a single block gives its entry exactly when it has one |
| IcsImport.EntriesAppend | import_ics.js:36-50 | the entries of two block lists are the entries of each in order, at most one per block |
| IcsImport.EntriesSingle | import_ics.js:45-50 | a single block gives its entry exactly when it has one |
| IcsImport.PreambleIgnored | import_ics.js:35 | text before the first `BEGIN:VEVENT` contributes nothing |
| IcsImport.ExtractBlocks | import_ics.js:35-36 | for a preamble and marker-free blocks joined by the marker, the result is the entries of the blocks |
| IcsImport.CaptureParses | import_ics.js:46-47 | every captured value parses to an instant |
| IcsImport.EntryExists | import_ics.js:45-50 | a block yields an entry exactly when `DTSTART`, `DTEND` and `SUMMARY` all match |
| IcsImport.TimedBlockStart | import_ics.js:37-39 | in a block `DTSTART:st1 CRLF DTEND:st2 CRLF SUMMARY:t`, DTSTART gives st1 |
| IcsImport.TimedBlockEnd | import_ics.js:40-42 | in that block DTEND gives st2: no DTEND occurs in the DTSTART line |
| IcsImport.TimedBlockSummary | import_ics.js:43 | in that block SUMMARY gives t, when t holds no line terminator |
| IcsImport.TimedBlockEntry | import_ics.js:37-50 | that block creates the event titled t from the parse of st1 to the parse of st2, both of which succeed |
| IcsImport.DateValueNoMatch | import_ics.js:38-41 | a property written `;VALUE=DATE` does not match at that place |
| IcsImport.AllDayBlockSkipped | import_ics.js:37-45 | a block whose every `DTSTART` is `;VALUE=DATE` yields no entry |
| IcsImport.SummaryFound | import_ics.js:43 | a summary is found exactly when `SUMMARY:` occurs |
| IcsImport.SummaryLine | import_ics.js:43-48 | the title is the text after the first `SUMMARY:`, up to the next line terminator or the end, as written |
| IcsImport.CaptureFrom | import_ics.js:38 | the capture depends only on the text from its start on |
| IcsImport.TzidIgnored | import_ics.js:38-41 | a `;TZID=` parameter is skipped: the captured value is the one without it |

## Left out

- Outlook COM access, `datetime.now`, dotenv, the HTTP POST and printing in `export.py`
  (`send_calendar` and `__main__`): all of it is I/O.
- `export_ics.py` and `import.js` are not part of this model. They are retrieval and web-hook
  plumbing that copies fields and, in `export_ics.py`, replaces the subject of every timed event
  with "予定あり".
- The `doPost` authentication check, the deletion of existing events, the `CalendarApp` calls,
  the `ContentService` responses and the `try`/`catch` are not modelled. The extraction is
  modelled as the list of `(title, start, end)` triples that `cal.createEvent` would receive.
- SHA-256 and `strftime` are parameters (`hash`, `fmt`), and `fromisoformat` is replaced by
  integer seconds. So ISO formatting and each event's own UTC offset, taken from
  `item.Start - item.StartUTC`, are not modelled. All events share one fixed offset.
- Identity.DerivedKeyInjective: proved only for timestamps of one fixed width, which is what
  `strftime("%Y-%m-%dT%H:%M:%S%z")` gives for four-digit years.
- Identity.EventKeyFields: proved only for timestamps of one fixed width. It cannot separate mode
  from subject, because the code concatenates them with no separator.
- The `timeranges` dict is keyed by status code rather than by key string. The two are the same
  because the key table is one-to-one (`Statuses.TablesInjective`).
- BusyStatus.MergeEvents: a `KeyError` is modelled as a `Failure` result. The partial work done
  before the exception is not observable, and the model does not represent it.
- `TimeClip` in `Date.UTC` is not modelled. It cannot change the result, because
  every four-digit year lies within its ±8.64e15 ms range.
- IcsTime.RoundTrip: stated for years from 100 on. Earlier years are the two-digit-year case of
  `IcsTime.TwoDigitYear`.
- A `DTSTART;TZID=...` value is read as UTC, ignoring the named zone, exactly as the regular
  expression does (`IcsImport.TzidIgnored`). Time-zone databases are not modelled.
- The field regular expression's capture group never includes a trailing `Z`. `parseICSTime`
  then sees no zone, which reads the same as `Z` (`IcsTime.ZeroOffset`).
- Line unfolding and text unescaping are not modelled: the code does neither, and a title is
  taken as written (`IcsImport.SummaryLine`).
- The truthiness test `if (start && end)` always passes for the `Date` objects `parseICSTime`
  returns. The model therefore keeps an entry whenever both captured values parse
  (`IcsImport.CaptureParses`).

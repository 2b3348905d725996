/** The race-entry form (components/RaceEntry.tsx): editing the result rows, the
    route-to-venue autofill, the athlete picker and the validation that turns the
    rows into the entries handed to `recordSession`. */
module RaceEntry {
  import opened Wrappers
  import opened Text
  import opened Seqs
  import opened Types
  import opened Utils

  /** One row of the form, as typed. */
  datatype EntryRow = EntryRow(id: int, athleteId: string, timeStr: string, placeStr: string)

  /** The fields `handleEntryChange` is called with. */
  datatype Field = AthleteIdField | TimeStrField | PlaceStrField

  function Get(e: EntryRow, field: Field): string {
    match field
    case AthleteIdField => e.athleteId
    case TimeStrField => e.timeStr
    case PlaceStrField => e.placeStr
  }

  /** `{ ...e, [field]: value }` */
  function SetField(e: EntryRow, field: Field, value: string): (r: EntryRow)
    ensures r.id == e.id
    ensures forall f :: Get(r, f) == if f == field then value else Get(e, f)
  {
    match field
    case AthleteIdField => e.(athleteId := value)
    case TimeStrField => e.(timeStr := value)
    case PlaceStrField => e.(placeStr := value)
  }

  // ---------------------------------------------------------------------------
  // Row edits

  /** `handleEntryChange`: the named field of every row with that id takes the value;
      nothing else changes. */
  function EntryChanged(rows: seq<EntryRow>, id: int, field: Field, value: string): (r: seq<EntryRow>)
    ensures |r| == |rows|
    ensures forall i :: 0 <= i < |rows| ==> r[i].id == rows[i].id
    ensures forall i, f :: 0 <= i < |rows| ==>
      Get(r[i], f) == if rows[i].id == id && f == field then value else Get(rows[i], f)
  {
    if |rows| == 0 then []
    else
      var head := if rows[0].id == id then SetField(rows[0], field, value) else rows[0];
      [head] + EntryChanged(rows[1..], id, field, value)
  }

  /** A row is determined by its id and its three fields. */
  lemma {:induction false} RowsEqual(a: EntryRow, b: EntryRow)
    requires a.id == b.id && forall f :: Get(a, f) == Get(b, f)
    ensures a == b
  {
    assert Get(a, AthleteIdField) == Get(b, AthleteIdField);
    assert Get(a, TimeStrField) == Get(b, TimeStrField);
    assert Get(a, PlaceStrField) == Get(b, PlaceStrField);
  }

  /** A second change to the same field overwrites the first. */
  lemma {:induction false} EntryChangedOverwrites(rows: seq<EntryRow>, id: int, field: Field, v1: string, v2: string)
    ensures EntryChanged(EntryChanged(rows, id, field, v1), id, field, v2) == EntryChanged(rows, id, field, v2)
  {
    var a := EntryChanged(EntryChanged(rows, id, field, v1), id, field, v2);
    var b := EntryChanged(rows, id, field, v2);
    forall i | 0 <= i < |rows| ensures a[i] == b[i] {
      RowsEqual(a[i], b[i]);
    }
  }

  /** `addRow`: a blank row with the fresh id (`Date.now()`) at the end. */
  function AddRow(rows: seq<EntryRow>, freshId: int): (r: seq<EntryRow>)
    ensures |r| == |rows| + 1 && r[..|rows|] == rows
    ensures r[|rows|].id == freshId && forall f :: Get(r[|rows|], f) == ""
  {
    rows + [EntryRow(freshId, "", "", "")]
  }

  /** `removeRow`: the rows without that id, in order. */
  function RemoveRow(rows: seq<EntryRow>, id: int): (r: seq<EntryRow>)
    ensures |r| <= |rows|
    ensures forall e :: e in r <==> e in rows && e.id != id
  {
    if |rows| == 0 then []
    else (if rows[0].id != id then [rows[0]] else []) + RemoveRow(rows[1..], id)
  }

  /** The remaining rows stay in form order, each as often as before. */
  lemma {:induction false} RemoveRowKeeps(rows: seq<EntryRow>, id: int)
    ensures Subsequence(RemoveRow(rows, id), rows)
    ensures forall e :: multiset(RemoveRow(rows, id))[e] == if e.id != id then multiset(rows)[e] else 0
  {
    if |rows| > 0 {
      RemoveRowKeeps(rows[1..], id);
      assert rows == [rows[0]] + rows[1..];
      SubsequenceCons(rows[0], RemoveRow(rows[1..], id), rows[1..], rows[0].id != id);
    }
  }

  /** Removing a row just added with a fresh id restores the rows. */
  lemma {:induction false} RemoveAddedRow(rows: seq<EntryRow>, freshId: int)
    requires forall e :: e in rows ==> e.id != freshId
    ensures RemoveRow(AddRow(rows, freshId), freshId) == rows
  {
    if |rows| == 0 {
      assert AddRow(rows, freshId)[1..] == [];
    } else {
      assert AddRow(rows, freshId)[1..] == AddRow(rows[1..], freshId);
      RemoveAddedRow(rows[1..], freshId);
    }
  }

  // ---------------------------------------------------------------------------
  // Route autofill

  /** `handleRouteChange`: a known route fills in its id and, as the venue, its name;
      an unknown id clears both. */
  function RouteChanged(meta: SessionMeta, routes: seq<Route>, selectedRouteId: string): (r: SessionMeta)
    ensures r.(routeId := meta.routeId, venue := meta.venue) == meta
    ensures (exists i :: 0 <= i < |routes| && routes[i].id == selectedRouteId) ==>
      r.routeId == selectedRouteId
      && exists i :: (0 <= i < |routes| && routes[i].id == selectedRouteId && routes[i].name == r.venue
        && forall j :: 0 <= j < i ==> routes[j].id != selectedRouteId)
    ensures (forall i :: 0 <= i < |routes| ==> routes[i].id != selectedRouteId) ==>
      r.routeId == "" && r.venue == ""
  {
    FindRouteFirst(routes, selectedRouteId);
    match FindRoute(routes, selectedRouteId)
    case Some(route) => meta.(routeId := route.id, venue := route.name)
    case None => meta.(routeId := "", venue := "")
  }

  /** `find` returns the first route with the id. */
  lemma {:induction false} FindRouteFirst(routes: seq<Route>, id: string)
    ensures FindRoute(routes, id).Some? ==>
      exists i :: (0 <= i < |routes| && routes[i] == FindRoute(routes, id).value
        && forall j :: 0 <= j < i ==> routes[j].id != id)
  {
    if |routes| > 0 && routes[0].id != id {
      FindRouteFirst(routes[1..], id);
      if FindRoute(routes, id).Some? {
        var i :| 0 <= i < |routes[1..]| && routes[1..][i] == FindRoute(routes, id).value
          && forall j :: 0 <= j < i ==> routes[1..][j].id != id;
        assert routes[i + 1] == FindRoute(routes, id).value;
        forall j | 0 <= j < i + 1 ensures routes[j].id != id {
          if j > 0 {
            assert routes[j] == routes[1..][j - 1];
          }
        }
      }
    } else if |routes| > 0 {
      assert routes[0] == FindRoute(routes, id).value;
    }
  }

  // ---------------------------------------------------------------------------
  // Athlete picker

  /** Some row has chosen the athlete. */
  predicate Chosen(rows: seq<EntryRow>, athleteId: string) {
    exists i :: 0 <= i < |rows| && rows[i].athleteId == athleteId
  }

  /** The options of the picker on `row`: active athletes nobody has chosen, and the
      row's own athlete, in roster order. */
  function AthleteOptions(athletes: seq<Athlete>, rows: seq<EntryRow>, row: EntryRow): (r: seq<Athlete>)
    ensures forall a :: a in r <==>
      a in athletes && a.isActive && (a.id == row.athleteId || !Chosen(rows, a.id))
    ensures Subsequence(r, athletes)
  {
    if |athletes| == 0 then []
    else
      var a := athletes[0];
      var rest := AthleteOptions(athletes[1..], rows, row);
      if a.isActive && (a.id == row.athleteId || !Chosen(rows, a.id)) then [a] + rest else rest
  }

  /** An athlete chosen in another row is never offered twice. */
  lemma {:induction false} OptionsExcludeOthers(athletes: seq<Athlete>, rows: seq<EntryRow>, row: EntryRow, other: EntryRow, a: Athlete)
    requires other in rows && other.athleteId == a.id && row.athleteId != a.id
    ensures a !in AthleteOptions(athletes, rows, row)
  {
  }

  // ---------------------------------------------------------------------------
  // Validation

  /** JavaScript's `parseInt(s)` in base 10: leading whitespace, an optional sign, then
      the longest run of digits; `None` is NaN. */
  function ParseInt(s: string): (r: Option<int>)
    decreases |s|
  {
    if |s| > 0 && IsSpace(s[0]) then ParseInt(s[1..])
    else if |s| > 0 && (s[0] == '-' || s[0] == '+') then
      match ParseIntPrefix(s[1..])
      case Some(v) => Some(if s[0] == '-' then -v else v)
      case None => None
    else ParseIntPrefix(s)
  }

  lemma {:induction false} LeadingDigitsAll(d: string)
    requires AllDigits(d)
    ensures LeadingDigits(d) == d
  {
    if |d| > 0 {
      LeadingDigitsAll(d[1..]);
      assert [d[0]] + d[1..] == d;
    }
  }

  /** `parseInt` reads back what `${n}` writes. */
  lemma {:induction false} ParseIntToString(n: int)
    ensures ParseInt(IntToString(n)) == Some(n)
  {
    if n < 0 {
      var d := NatToString(-n);
      assert IntToString(n) == "-" + d;
      NatToStringValue(-n);
      ParseIntSigned(d);
    } else {
      NatToStringValue(n);
      ParseIntDigits(NatToString(n));
    }
  }

  /** A digit string reads back as its value. */
  lemma {:induction false} ParseIntDigits(d: string)
    requires |d| > 0 && AllDigits(d)
    ensures ParseInt(d) == Some(DigitsValue(d))
  {
    assert IsDigit(d[0]);
    LeadingDigitsAll(d);
  }

  /** A minus sign before a digit string reads back as the negated value. */
  lemma {:induction false} ParseIntSigned(d: string)
    requires |d| > 0 && AllDigits(d)
    ensures var v: int := DigitsValue(d); ParseInt("-" + d) == Some(-v)
  {
    assert ("-" + d)[0] == '-' && ("-" + d)[1..] == d;
    assert IsDigit(d[0]);
    LeadingDigitsAll(d);
  }

  /** Leading whitespace is skipped. */
  lemma {:induction false} ParseIntSkipsSpace(s: string)
    ensures ParseInt(" " + s) == ParseInt(s)
  {
    assert (" " + s)[1..] == s;
  }

  /** The manual place: `parseInt(placeStr)` when it is a number above 0, otherwise
      undefined. */
  function PlaceOf(placeStr: string): (r: Option<int>)
    ensures r.Some? ==> r.value > 0
  {
    match ParseInt(placeStr)
    case Some(p) => if p > 0 then Some(p) else None
    case None => None
  }

  /** The place typed as a number is kept exactly when it is positive. */
  lemma {:induction false} PlaceOfNumber(n: int)
    ensures PlaceOf(IntToString(n)) == if n > 0 then Some(n) else None
  {
    ParseIntToString(n);
  }

  /** The row is submitted: an athlete is chosen, a time typed and `parseTime` accepts it. */
  predicate Accepted(e: EntryRow) {
    e.athleteId != "" && e.timeStr != "" && ParseTime(e.timeStr).Some?
  }

  /** The entry built from a row. */
  function ToEntry(e: EntryRow): Entry {
    var time := match ParseTime(e.timeStr) case Some(t) => t case None => 0;
    Entry(e.athleteId, time, PlaceOf(e.placeStr))
  }

  /** `validEntries` after the rows, built as the `for` loop builds it. */
  function ValidEntriesOf(rows: seq<EntryRow>): seq<Entry> {
    Collect(rows, Accepted, ToEntry)
  }

  /** The submitted entries are exactly the accepted rows, in row order, each with the
      parsed time and the manual place when it is positive. */
  lemma {:induction false} ValidEntriesCorrect(rows: seq<EntryRow>)
    ensures ValidEntriesOf(rows) == Map(Filter(rows, Accepted), ToEntry)
  {
    CollectIsMapFilter(rows, Accepted, ToEntry);
  }

  /** Each submitted entry comes from an accepted row with its athlete, time and place. */
  lemma {:induction false} ValidEntriesRows(rows: seq<EntryRow>)
    ensures forall x :: x in ValidEntriesOf(rows) ==> exists e :: (e in rows && Accepted(e)
      && x.athleteId == e.athleteId && x.athleteId != ""
      && ParseTime(e.timeStr) == Some(x.time) && x.place == PlaceOf(e.placeStr))
  {
    ValidEntriesCorrect(rows);
    var acc := Filter(rows, Accepted);
    forall x | x in ValidEntriesOf(rows) ensures exists e :: (e in rows && Accepted(e)
      && x.athleteId == e.athleteId && x.athleteId != ""
      && ParseTime(e.timeStr) == Some(x.time) && x.place == PlaceOf(e.placeStr))
    {
      var i :| 0 <= i < |acc| && Map(acc, ToEntry)[i] == x;
      assert acc[i] in rows && Accepted(acc[i]);
    }
  }

  /** A blank row added to the form is never submitted. */
  lemma {:induction false} AddedRowNotSubmitted(rows: seq<EntryRow>, freshId: int)
    ensures ValidEntriesOf(AddRow(rows, freshId)) == ValidEntriesOf(rows)
  {
    assert AddRow(rows, freshId)[..|rows|] == rows;
  }

  /** The outcome of `handleSubmit`: without an event nothing is saved and the form
      stays as it is; otherwise `onSave` receives the metadata and the entries, and the
      form is reset. */
  datatype Submission =
    | Rejected
    | Saved(meta: SessionMeta, entries: seq<Entry>, nextMeta: SessionMeta, nextRows: seq<EntryRow>)

  /** `handleSubmit`; `freshId` stands for `Date.now()`. */
  method HandleSubmit(meta: SessionMeta, rows: seq<EntryRow>, freshId: int) returns (outcome: Submission)
    ensures outcome.Rejected? <==> meta.eventId == ""
    ensures outcome.Saved? ==>
      && outcome.meta == meta
      && outcome.entries == ValidEntriesOf(rows)
      && outcome.nextMeta == meta.(name := "", venue := "", routeId := "", notes := "")
      && outcome.nextRows == [EntryRow(freshId, "", "", "")]
  {
    var validEntries: seq<Entry> := [];
    for i := 0 to |rows|
      invariant validEntries == ValidEntriesOf(rows[..i])
    {
      assert rows[..i + 1][..i] == rows[..i];
      var entry := rows[i];
      if entry.athleteId != "" && entry.timeStr != "" {
        var time := ParseTime(entry.timeStr);
        var place := ParseInt(entry.placeStr);
        if time.Some? {
          validEntries := validEntries + [Entry(entry.athleteId, time.value, if place.Some? && place.value > 0 then place else None)];
        }
      }
    }
    assert rows[..|rows|] == rows;
    if meta.eventId == "" {
      return Rejected;
    }
    outcome := Saved(meta, validEntries, meta.(name := "", venue := "", routeId := "", notes := ""),
                     [EntryRow(freshId, "", "", "")]);
  }
}

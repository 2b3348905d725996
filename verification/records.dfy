/** The records page (components/RecordsList.tsx): the options of its filters, the
    tables of best and of all performances by event and by course, and the filters
    applied to the table shown. */
module Records {
  import opened Wrappers
  import opened Text
  import opened Seqs
  import opened Types

  // ---------------------------------------------------------------------------
  // Filter options

  /** `set.add(x)` on a `Set`, which keeps its first insertion order. */
  function Add(items: seq<string>, x: string): seq<string> {
    if x in items then items else items + [x]
  }

  /** The `Set` built by adding each of `xs` in turn. */
  function Distinct(xs: seq<string>): seq<string> {
    if |xs| == 0 then [] else Add(Distinct(xs[..|xs| - 1]), xs[|xs| - 1])
  }

  lemma {:induction false} DistinctCorrect(xs: seq<string>)
    ensures NoDup(Distinct(xs))
    ensures forall x :: x in Distinct(xs) <==> x in xs
  {
    if |xs| > 0 {
      var n := |xs| - 1;
      DistinctCorrect(xs[..n]);
      assert xs == xs[..n] + [xs[n]];
    }
  }

  /** `Array.from(set).sort()`: code-unit order. */
  predicate StrAscLe(a: string, b: string) {
    StrLe(a, b)
  }

  lemma {:induction false} StrAscLeOrder()
    ensures TotalPreorder(StrAscLe)
  {
    StrLeOrder();
  }

  /** The sorted `Set` of `xs` holds each of them once, in strictly ascending order. */
  lemma {:induction false} SortedDistinct(xs: seq<string>, r: seq<string>)
    requires r == SortBy(Distinct(xs), StrAscLe)
    ensures forall x :: x in r <==> x in xs
    ensures forall i, j :: 0 <= i < j < |r| ==> StrLe(r[i], r[j]) && r[i] != r[j]
  {
    var d := Distinct(xs);
    DistinctCorrect(xs);
    SortByPermutes(d, StrAscLe);
    NoDupPermutes(d, r);
    StrAscLeOrder();
    SortBySorted(d, StrAscLe);
    forall x ensures x in r <==> x in xs {
      assert x in r <==> x in multiset(r);
      assert x in d <==> x in multiset(d);
    }
  }

  /** The faculties `forEach` adds, in order: the non-empty ones. */
  function FacultyCandidates(athletes: seq<Athlete>): seq<string> {
    if |athletes| == 0 then []
    else (if athletes[0].faculty != "" then [athletes[0].faculty] else []) + FacultyCandidates(athletes[1..])
  }

  function BatchCandidates(athletes: seq<Athlete>): seq<string> {
    if |athletes| == 0 then []
    else (if athletes[0].batch != "" then [athletes[0].batch] else []) + BatchCandidates(athletes[1..])
  }

  /** `uniqueFaculties` */
  function UniqueFaculties(athletes: seq<Athlete>): seq<string> {
    SortBy(Distinct(FacultyCandidates(athletes)), StrAscLe)
  }

  /** `uniqueBatches` */
  function UniqueBatches(athletes: seq<Athlete>): seq<string> {
    SortBy(Distinct(BatchCandidates(athletes)), StrAscLe)
  }

  lemma {:induction false} FacultyCandidatesMembers(athletes: seq<Athlete>)
    ensures forall x :: x in FacultyCandidates(athletes) <==>
      x != "" && exists i :: 0 <= i < |athletes| && athletes[i].faculty == x
  {
    if |athletes| > 0 {
      FacultyCandidatesMembers(athletes[1..]);
      forall x | x != "" && (exists i :: 0 <= i < |athletes| && athletes[i].faculty == x)
        ensures x in FacultyCandidates(athletes)
      {
        var i :| 0 <= i < |athletes| && athletes[i].faculty == x;
        if i > 0 {
          assert athletes[1..][i - 1] == athletes[i];
        }
      }
    }
  }

  lemma {:induction false} BatchCandidatesMembers(athletes: seq<Athlete>)
    ensures forall x :: x in BatchCandidates(athletes) <==>
      x != "" && exists i :: 0 <= i < |athletes| && athletes[i].batch == x
  {
    if |athletes| > 0 {
      BatchCandidatesMembers(athletes[1..]);
      forall x | x != "" && (exists i :: 0 <= i < |athletes| && athletes[i].batch == x)
        ensures x in BatchCandidates(athletes)
      {
        var i :| 0 <= i < |athletes| && athletes[i].batch == x;
        if i > 0 {
          assert athletes[1..][i - 1] == athletes[i];
        }
      }
    }
  }

  /** The faculty options are the distinct non-empty faculties, ascending. */
  lemma {:induction false} UniqueFacultiesCorrect(athletes: seq<Athlete>)
    ensures var r := UniqueFaculties(athletes);
      && (forall x :: x in r <==> x != "" && exists i :: 0 <= i < |athletes| && athletes[i].faculty == x)
      && (forall i, j :: 0 <= i < j < |r| ==> StrLe(r[i], r[j]) && r[i] != r[j])
  {
    SortedDistinct(FacultyCandidates(athletes), UniqueFaculties(athletes));
    FacultyCandidatesMembers(athletes);
  }

  /** The batch options are the distinct non-empty batches, ascending. */
  lemma {:induction false} UniqueBatchesCorrect(athletes: seq<Athlete>)
    ensures var r := UniqueBatches(athletes);
      && (forall x :: x in r <==> x != "" && exists i :: 0 <= i < |athletes| && athletes[i].batch == x)
      && (forall i, j :: 0 <= i < j < |r| ==> StrLe(r[i], r[j]) && r[i] != r[j])
  {
    SortedDistinct(BatchCandidates(athletes), UniqueBatches(athletes));
    BatchCandidatesMembers(athletes);
  }

  /** `date.split('-')[0]` */
  function YearOf(date: string): string {
    Before(date, '-')
  }

  /** The years of the dated sessions, in order. */
  function SessionYears(sessions: seq<RaceSession>): seq<string> {
    if |sessions| == 0 then []
    else (if sessions[0].date != "" then [YearOf(sessions[0].date)] else []) + SessionYears(sessions[1..])
  }

  function PBYears(pbs: seq<PB>): seq<string> {
    if |pbs| == 0 then []
    else (if pbs[0].date != "" then [YearOf(pbs[0].date)] else []) + PBYears(pbs[1..])
  }

  /** The years of the dated PBs, athlete by athlete. */
  function AthleteYears(athletes: seq<Athlete>): seq<string> {
    if |athletes| == 0 then [] else PBYears(athletes[0].personalBests) + AthleteYears(athletes[1..])
  }

  /** `uniqueYears`: sorted, then reversed. */
  function UniqueYears(sessions: seq<RaceSession>, athletes: seq<Athlete>): seq<string> {
    Reverse(SortBy(Distinct(SessionYears(sessions) + AthleteYears(athletes)), StrAscLe))
  }

  lemma {:induction false} SessionYearsMembers(sessions: seq<RaceSession>)
    ensures forall y :: y in SessionYears(sessions) <==>
      exists i :: 0 <= i < |sessions| && sessions[i].date != "" && YearOf(sessions[i].date) == y
  {
    if |sessions| > 0 {
      SessionYearsMembers(sessions[1..]);
      forall y | exists i :: 0 <= i < |sessions| && sessions[i].date != "" && YearOf(sessions[i].date) == y
        ensures y in SessionYears(sessions)
      {
        var i :| 0 <= i < |sessions| && sessions[i].date != "" && YearOf(sessions[i].date) == y;
        if i > 0 {
          assert sessions[1..][i - 1] == sessions[i];
        }
      }
    }
  }

  lemma {:induction false} PBYearsMembers(pbs: seq<PB>)
    ensures forall y :: y in PBYears(pbs) <==> exists p :: p in pbs && p.date != "" && YearOf(p.date) == y
  {
    if |pbs| > 0 {
      PBYearsMembers(pbs[1..]);
      assert pbs == [pbs[0]] + pbs[1..];
    }
  }

  lemma {:induction false} AthleteYearsMembers(athletes: seq<Athlete>)
    ensures forall y :: y in AthleteYears(athletes) <==>
      exists i, p :: 0 <= i < |athletes| && p in athletes[i].personalBests && p.date != "" && YearOf(p.date) == y
  {
    if |athletes| > 0 {
      AthleteYearsMembers(athletes[1..]);
      PBYearsMembers(athletes[0].personalBests);
      forall y | exists i, p :: 0 <= i < |athletes| && p in athletes[i].personalBests && p.date != "" && YearOf(p.date) == y
        ensures y in AthleteYears(athletes)
      {
        var i, p :| 0 <= i < |athletes| && p in athletes[i].personalBests && p.date != "" && YearOf(p.date) == y;
        if i > 0 {
          assert athletes[1..][i - 1] == athletes[i];
        }
      }
      forall y | y in AthleteYears(athletes[1..])
        ensures exists i, p :: 0 <= i < |athletes| && p in athletes[i].personalBests && p.date != "" && YearOf(p.date) == y
      {
        var i, p :| 0 <= i < |athletes[1..]| && p in athletes[1..][i].personalBests && p.date != "" && YearOf(p.date) == y;
        assert athletes[1..][i] == athletes[i + 1];
      }
    }
  }

  lemma {:induction false} YearCandidatesMembers(sessions: seq<RaceSession>, athletes: seq<Athlete>)
    ensures forall y :: y in SessionYears(sessions) + AthleteYears(athletes) <==>
      (exists i :: 0 <= i < |sessions| && sessions[i].date != "" && YearOf(sessions[i].date) == y)
      || (exists i, p :: 0 <= i < |athletes| && p in athletes[i].personalBests && p.date != "" && YearOf(p.date) == y)
  {
    SessionYearsMembers(sessions);
    AthleteYearsMembers(athletes);
  }

  /** Reversing a strictly ascending list gives a strictly descending one. */
  lemma {:induction false} ReverseDescending(sorted: seq<string>)
    requires forall a, b :: 0 <= a < b < |sorted| ==> StrLe(sorted[a], sorted[b]) && sorted[a] != sorted[b]
    ensures forall y :: y in Reverse(sorted) <==> y in sorted
    ensures forall i, j :: 0 <= i < j < |Reverse(sorted)| ==>
      StrLe(Reverse(sorted)[j], Reverse(sorted)[i]) && Reverse(sorted)[i] != Reverse(sorted)[j]
  {
    var r := Reverse(sorted);
    forall y ensures y in r <==> y in sorted {
      if y in sorted {
        var k :| 0 <= k < |sorted| && sorted[k] == y;
        assert r[|sorted| - 1 - k] == y;
      }
    }
    forall i, j | 0 <= i < j < |r| ensures StrLe(r[j], r[i]) && r[i] != r[j] {
      var a, b := |sorted| - 1 - j, |sorted| - 1 - i;
      assert r[i] == sorted[b] && r[j] == sorted[a];
    }
  }

  /** The year options are the distinct date prefixes of the dated sessions and PBs,
      newest first. */
  lemma {:induction false} UniqueYearsCorrect(sessions: seq<RaceSession>, athletes: seq<Athlete>)
    ensures var r := UniqueYears(sessions, athletes);
      && (forall y :: y in r <==>
            (exists i :: 0 <= i < |sessions| && sessions[i].date != "" && YearOf(sessions[i].date) == y)
            || (exists i, p :: 0 <= i < |athletes| && p in athletes[i].personalBests && p.date != "" && YearOf(p.date) == y))
      && (forall i, j :: 0 <= i < j < |r| ==> StrLe(r[j], r[i]) && r[i] != r[j])
  {
    var xs := SessionYears(sessions) + AthleteYears(athletes);
    var sorted := SortBy(Distinct(xs), StrAscLe);
    SortedDistinct(xs, sorted);
    YearCandidatesMembers(sessions, athletes);
    ReverseDescending(sorted);
  }

  // ---------------------------------------------------------------------------
  // Record rows

  /** A row of a records table: the athlete (`undefined` when unknown), the time, the
      date, the venue (event tables), the session name (course tables) and the
      points (`null` for a manual PB). The field a table does not have is "". */
  datatype RecordRow = RecordRow(
    athlete: Option<Athlete>, time: Time, date: string, venue: string, sessionName: string, points: Option<int>)

  datatype View = Events | Courses

  datatype Mode = Best | All

  /** The comparator `a.time - b.time`. */
  predicate TimeLe(a: RecordRow, b: RecordRow) {
    a.time <= b.time
  }

  lemma {:induction false} TimeLeOrder()
    ensures TotalPreorder(TimeLe)
  {
  }

  /** The row of a session result: by event with `s.venue || s.name`, by course with
      the session's name. */
  function ResultRow(athletes: seq<Athlete>, view: View, s: RaceSession, r: RaceResult): RecordRow {
    var athlete := FindAthlete(athletes, r.athleteId);
    match view
    case Events => RecordRow(athlete, r.time, s.date, if s.venue != "" then s.venue else s.name, "", Some(r.points))
    case Courses => RecordRow(athlete, r.time, s.date, "", s.name, Some(r.points))
  }

  /** `s.results.filter(r => r.time > 0).map(...)` */
  function FinishedRows(athletes: seq<Athlete>, view: View, s: RaceSession, results: seq<RaceResult>): seq<RecordRow> {
    if |results| == 0 then []
    else
      var head := if results[0].time > 0 then [ResultRow(athletes, view, s, results[0])] else [];
      head + FinishedRows(athletes, view, s, results[1..])
  }

  /** The session is for the selected event, or on the selected route. */
  predicate Selected(view: View, s: RaceSession, id: string) {
    match view
    case Events => s.eventId == id
    case Courses => s.routeId == id
  }

  /** `sessions.filter(...).flatMap(...)`: the finished results of the selected sessions. */
  function SelectedRows(athletes: seq<Athlete>, view: View, sessions: seq<RaceSession>, id: string): seq<RecordRow> {
    if |sessions| == 0 then []
    else
      var head := if Selected(view, sessions[0], id) then FinishedRows(athletes, view, sessions[0], sessions[0].results) else [];
      head + SelectedRows(athletes, view, sessions[1..], id)
  }

  /** `filter(r => r.athlete)` */
  function KnownRows(rows: seq<RecordRow>): seq<RecordRow> {
    if |rows| == 0 then []
    else (if rows[0].athlete.Some? then [rows[0]] else []) + KnownRows(rows[1..])
  }

  lemma {:induction false} FinishedRowsMembers(athletes: seq<Athlete>, view: View, s: RaceSession, results: seq<RaceResult>)
    ensures forall x :: x in FinishedRows(athletes, view, s, results) <==>
      exists r :: r in results && r.time > 0 && x == ResultRow(athletes, view, s, r)
  {
    if |results| > 0 {
      FinishedRowsMembers(athletes, view, s, results[1..]);
      assert results == [results[0]] + results[1..];
    }
  }

  /** The rows collected are exactly the finished results of the selected sessions. */
  lemma {:induction false} SelectedRowsMembers(athletes: seq<Athlete>, view: View, sessions: seq<RaceSession>, id: string)
    ensures forall x :: x in SelectedRows(athletes, view, sessions, id) <==>
      exists s, r :: s in sessions && Selected(view, s, id) && r in s.results && r.time > 0
        && x == ResultRow(athletes, view, s, r)
  {
    if |sessions| > 0 {
      SelectedRowsMembers(athletes, view, sessions[1..], id);
      FinishedRowsMembers(athletes, view, sessions[0], sessions[0].results);
      assert sessions == [sessions[0]] + sessions[1..];
    }
  }

  lemma {:induction false} KnownRowsMembers(rows: seq<RecordRow>)
    ensures forall x :: x in KnownRows(rows) <==> x in rows && x.athlete.Some?
  {
    if |rows| > 0 {
      KnownRowsMembers(rows[1..]);
      assert rows == [rows[0]] + rows[1..];
    }
  }

  // ---------------------------------------------------------------------------
  // Records by event

  /** The manual PB row of an athlete for the event, when they hold one. */
  function PBRow(a: Athlete, eventId: string): seq<RecordRow> {
    match FindPB(a.personalBests, eventId)
    case Some(pb) => [RecordRow(Some(a), pb.time, pb.date, pb.venue, "", None)]
    case None => []
  }

  function PBRows(athletes: seq<Athlete>, eventId: string): seq<RecordRow> {
    if |athletes| == 0 then [] else PBRow(athletes[0], eventId) + PBRows(athletes[1..], eventId)
  }

  /** The number of athletes holding a PB for the event. */
  function CountHolders(athletes: seq<Athlete>, eventId: string): nat {
    if |athletes| == 0 then 0
    else (if FindPB(athletes[0].personalBests, eventId).Some? then 1 else 0) + CountHolders(athletes[1..], eventId)
  }

  /** The signature `${athlete?.id}_${time}_${date || ''}` as a triple; an unknown
      athlete prints as "undefined". */
  datatype Signature = Signature(athleteId: string, time: Time, date: string)

  function SigOf(r: RecordRow): Signature {
    Signature(match r.athlete case Some(a) => a.id case None => "undefined", r.time, r.date)
  }

  /** `new Set(sessionResults.map(...))` */
  function Signatures(rows: seq<RecordRow>): set<Signature> {
    set r | r in rows :: SigOf(r)
  }

  /** An athlete's PB row unless a session row has the same signature. */
  function ManualRow(a: Athlete, eventId: string, sigs: set<Signature>): seq<RecordRow> {
    match FindPB(a.personalBests, eventId)
    case Some(pb) =>
      if Signature(a.id, pb.time, pb.date) in sigs then []
      else [RecordRow(Some(a), pb.time, pb.date, pb.venue, "", None)]
    case None => []
  }

  function ManualRows(athletes: seq<Athlete>, eventId: string, sigs: set<Signature>): seq<RecordRow> {
    if |athletes| == 0 then [] else ManualRow(athletes[0], eventId, sigs) + ManualRows(athletes[1..], eventId, sigs)
  }

  /** "All" mode: the session rows and the manual PBs not already among them, of known
      athletes, fastest first. */
  function EventAll(athletes: seq<Athlete>, sessions: seq<RaceSession>, eventId: string): seq<RecordRow> {
    var sessionResults := SelectedRows(athletes, Events, sessions, eventId);
    var manualPBs := ManualRows(athletes, eventId, Signatures(sessionResults));
    SortBy(KnownRows(sessionResults + manualPBs), TimeLe)
  }

  /** `eventRecords` */
  function EventRecords(athletes: seq<Athlete>, sessions: seq<RaceSession>, eventId: string, mode: Mode): seq<RecordRow> {
    if eventId == "" then []
    else if mode == Best then SortBy(PBRows(athletes, eventId), TimeLe)
    else EventAll(athletes, sessions, eventId)
  }

  lemma {:induction false} PBRowsMembers(athletes: seq<Athlete>, eventId: string)
    ensures |PBRows(athletes, eventId)| == CountHolders(athletes, eventId)
    ensures forall x :: x in PBRows(athletes, eventId) <==>
      exists a, pb :: a in athletes && FindPB(a.personalBests, eventId) == Some(pb)
        && x == RecordRow(Some(a), pb.time, pb.date, pb.venue, "", None)
  {
    if |athletes| > 0 {
      PBRowsMembers(athletes[1..], eventId);
      assert athletes == [athletes[0]] + athletes[1..];
    }
  }

  /** "Best" mode: one row per athlete holding a PB for the event, carrying that PB,
      fastest first. */
  lemma {:induction false} EventBestCorrect(athletes: seq<Athlete>, sessions: seq<RaceSession>, eventId: string)
    requires eventId != ""
    ensures var r := EventRecords(athletes, sessions, eventId, Best);
      && SortedBy(r, TimeLe)
      && |r| == CountHolders(athletes, eventId)
      && forall x :: x in r <==>
           exists a, pb :: a in athletes && FindPB(a.personalBests, eventId) == Some(pb)
             && x == RecordRow(Some(a), pb.time, pb.date, pb.venue, "", None)
  {
    var rows := PBRows(athletes, eventId);
    PBRowsMembers(athletes, eventId);
    TimeLeOrder();
    SortBySorted(rows, TimeLe);
    forall x ensures x in SortBy(rows, TimeLe) <==> x in rows {
      InSortBy(rows, TimeLe, x);
    }
  }

  lemma {:induction false} ManualRowsMembers(athletes: seq<Athlete>, eventId: string, sigs: set<Signature>)
    ensures forall x :: x in ManualRows(athletes, eventId, sigs) <==>
      exists a, pb :: a in athletes && FindPB(a.personalBests, eventId) == Some(pb)
        && Signature(a.id, pb.time, pb.date) !in sigs
        && x == RecordRow(Some(a), pb.time, pb.date, pb.venue, "", None)
  {
    if |athletes| > 0 {
      ManualRowsMembers(athletes[1..], eventId, sigs);
      assert athletes == [athletes[0]] + athletes[1..];
    }
  }

  /** "All" mode holds the finished session results of known athletes and the PBs whose
      signature matches no session row, fastest first; so no PB that a session row
      already shows is listed twice. */
  lemma {:induction false} EventAllCorrect(athletes: seq<Athlete>, sessions: seq<RaceSession>, eventId: string)
    requires eventId != ""
    ensures var r := EventRecords(athletes, sessions, eventId, All);
      var sr := SelectedRows(athletes, Events, sessions, eventId);
      && SortedBy(r, TimeLe)
      && (forall x :: x in r <==>
            (x.athlete.Some? && exists s, res :: s in sessions && s.eventId == eventId && res in s.results
                                 && res.time > 0 && x == ResultRow(athletes, Events, s, res))
            || (exists a, pb :: a in athletes && FindPB(a.personalBests, eventId) == Some(pb)
                  && (forall y :: y in sr ==> SigOf(y) != Signature(a.id, pb.time, pb.date))
                  && x == RecordRow(Some(a), pb.time, pb.date, pb.venue, "", None)))
  {
    EventAllSorted(athletes, sessions, eventId);
    EventAllMembers(athletes, sessions, eventId);
  }

  lemma {:induction false} EventAllSorted(athletes: seq<Athlete>, sessions: seq<RaceSession>, eventId: string)
    requires eventId != ""
    ensures SortedBy(EventRecords(athletes, sessions, eventId, All), TimeLe)
  {
    var sr := SelectedRows(athletes, Events, sessions, eventId);
    var rows := KnownRows(sr + ManualRows(athletes, eventId, Signatures(sr)));
    assert EventRecords(athletes, sessions, eventId, All) == SortBy(rows, TimeLe);
    TimeLeOrder();
    SortBySorted(rows, TimeLe);
  }

  lemma {:induction false} EventAllMembers(athletes: seq<Athlete>, sessions: seq<RaceSession>, eventId: string)
    requires eventId != ""
    ensures var r := EventRecords(athletes, sessions, eventId, All);
      var sr := SelectedRows(athletes, Events, sessions, eventId);
      forall x :: x in r <==>
        (x.athlete.Some? && exists s, res :: s in sessions && s.eventId == eventId && res in s.results
                             && res.time > 0 && x == ResultRow(athletes, Events, s, res))
        || (exists a, pb :: a in athletes && FindPB(a.personalBests, eventId) == Some(pb)
              && (forall y :: y in sr ==> SigOf(y) != Signature(a.id, pb.time, pb.date))
              && x == RecordRow(Some(a), pb.time, pb.date, pb.venue, "", None))
  {
    var sr := SelectedRows(athletes, Events, sessions, eventId);
    var rows := KnownRows(sr + ManualRows(athletes, eventId, Signatures(sr)));
    assert EventRecords(athletes, sessions, eventId, All) == SortBy(rows, TimeLe);
    EventAllRows(athletes, sessions, eventId);
    forall x ensures x in SortBy(rows, TimeLe) <==> x in rows {
      InSortBy(rows, TimeLe, x);
    }
  }

  /** The rows of "All" mode before sorting. */
  lemma {:induction false} EventAllRows(athletes: seq<Athlete>, sessions: seq<RaceSession>, eventId: string)
    ensures var sr := SelectedRows(athletes, Events, sessions, eventId);
      forall x :: x in KnownRows(sr + ManualRows(athletes, eventId, Signatures(sr))) <==>
        (x.athlete.Some? && exists s, res :: s in sessions && s.eventId == eventId && res in s.results
                             && res.time > 0 && x == ResultRow(athletes, Events, s, res))
        || (exists a, pb :: a in athletes && FindPB(a.personalBests, eventId) == Some(pb)
              && (forall y :: y in sr ==> SigOf(y) != Signature(a.id, pb.time, pb.date))
              && x == RecordRow(Some(a), pb.time, pb.date, pb.venue, "", None))
  {
    var sr := SelectedRows(athletes, Events, sessions, eventId);
    var sigs := Signatures(sr);
    var mr := ManualRows(athletes, eventId, sigs);
    SelectedRowsMembers(athletes, Events, sessions, eventId);
    ManualRowsMembers(athletes, eventId, sigs);
    KnownRowsMembers(sr + mr);
    forall a: Athlete, pb: PB ensures Signature(a.id, pb.time, pb.date) !in sigs <==>
      (forall y :: y in sr ==> SigOf(y) != Signature(a.id, pb.time, pb.date))
    {
    }
  }

  // ---------------------------------------------------------------------------
  // Records by course

  /** The key of the `bests` map: the athlete's id. */
  function KeyOf(r: RecordRow): string {
    match r.athlete
    case Some(a) => a.id
    case None => ""
  }

  /** A JavaScript `Map` from athlete id to row: its entries, and its keys in insertion
      order (the order `values()` follows; `set` on an existing key keeps its place). */
  datatype BestMap = BestMap(order: seq<string>, bests: map<string, RecordRow>)

  /** One step of the `forEach`: the row becomes its athlete's entry when there is
      none yet or when it is strictly faster. */
  function Step(s: BestMap, r: RecordRow): BestMap {
    var key := KeyOf(r);
    if key !in s.bests then BestMap(s.order + [key], s.bests[key := r])
    else if r.time < s.bests[key].time then BestMap(s.order, s.bests[key := r])
    else s
  }

  /** The map after the rows. */
  function BestsAfter(rows: seq<RecordRow>): BestMap {
    if |rows| == 0 then BestMap([], map[]) else Step(BestsAfter(rows[..|rows| - 1]), rows[|rows| - 1])
  }

  /** `[...bests.values()]` */
  function Values(order: seq<string>, bests: map<string, RecordRow>): seq<RecordRow> {
    if |order| == 0 then []
    else
      var n := |order| - 1;
      Values(order[..n], bests) + (if order[n] in bests then [bests[order[n]]] else [])
  }

  /** `[...bests.values()]` after the `forEach` over the rows. */
  function BestValuesOf(rows: seq<RecordRow>): seq<RecordRow> {
    Values(BestsAfter(rows).order, BestsAfter(rows).bests)
  }

  lemma {:induction false} ValuesAt(order: seq<string>, bests: map<string, RecordRow>)
    requires forall k :: k in order ==> k in bests
    ensures |Values(order, bests)| == |order|
    ensures forall j :: 0 <= j < |order| ==> Values(order, bests)[j] == bests[order[j]]
  {
    if |order| > 0 {
      var n := |order| - 1;
      assert forall k :: k in order[..n] ==> k in order;
      ValuesAt(order[..n], bests);
    }
  }

  /** What one step does to the map. */
  lemma {:induction false} StepFacts(p: BestMap, r: RecordRow)
    ensures var s := Step(p, r); var k := KeyOf(r);
      && (forall x :: x in s.bests <==> x in p.bests || x == k)
      && (forall x :: x in p.bests && x != k ==> s.bests[x] == p.bests[x])
      && s.bests[k] == (if k in p.bests && p.bests[k].time <= r.time then p.bests[k] else r)
      && s.order == (if k in p.bests then p.order else p.order + [k])
  {
  }

  /** The keys in insertion order are the map's keys, each listed once. */
  lemma {:induction false} BestsAfterOrder(rows: seq<RecordRow>)
    ensures var s := BestsAfter(rows);
      NoDup(s.order) && forall k :: k in s.bests <==> k in s.order
  {
    if |rows| > 0 {
      var n := |rows| - 1;
      var p := BestsAfter(rows[..n]);
      BestsAfterOrder(rows[..n]);
      StepFacts(p, rows[n]);
      var k := KeyOf(rows[n]);
      if k !in p.bests {
        var o := p.order + [k];
        forall i, j | 0 <= i < j < |o| ensures o[i] != o[j] {
          if j == |o| - 1 {
            assert o[i] == p.order[i];
          } else {
            assert o[i] == p.order[i] && o[j] == p.order[j];
          }
        }
      }
    }
  }

  /** The map's keys are the athletes met. */
  lemma {:induction false} BestsAfterKeys(rows: seq<RecordRow>)
    ensures forall k :: k in BestsAfter(rows).bests <==> exists i :: 0 <= i < |rows| && KeyOf(rows[i]) == k
  {
    BestsAfterKeysMet(rows);
    BestsAfterRowsKeyed(rows);
  }

  lemma {:induction false} BestsAfterKeysMet(rows: seq<RecordRow>)
    ensures forall k :: k in BestsAfter(rows).bests ==> exists i :: 0 <= i < |rows| && KeyOf(rows[i]) == k
  {
    if |rows| > 0 {
      var n := |rows| - 1;
      var pre := rows[..n];
      var p := BestsAfter(pre);
      var s := BestsAfter(rows);
      assert s == Step(p, rows[n]);
      BestsAfterKeysMet(pre);
      StepFacts(p, rows[n]);
      forall k | k in s.bests ensures exists i :: 0 <= i < |rows| && KeyOf(rows[i]) == k {
        if k != KeyOf(rows[n]) {
          var i :| 0 <= i < n && KeyOf(pre[i]) == k;
          assert pre[i] == rows[i];
        }
      }
    }
  }

  lemma {:induction false} BestsAfterRowsKeyed(rows: seq<RecordRow>)
    ensures forall i :: 0 <= i < |rows| ==> KeyOf(rows[i]) in BestsAfter(rows).bests
  {
    if |rows| > 0 {
      var n := |rows| - 1;
      var pre := rows[..n];
      var p := BestsAfter(pre);
      var s := BestsAfter(rows);
      assert s == Step(p, rows[n]);
      BestsAfterRowsKeyed(pre);
      StepKeys(p, rows[n]);
      forall i | 0 <= i < |rows| ensures KeyOf(rows[i]) in s.bests {
        if i < n {
          assert pre[i] == rows[i];
        }
      }
    }
  }

  /** A step keeps every key and adds the row's own. */
  lemma {:induction false} StepKeys(p: BestMap, r: RecordRow)
    ensures KeyOf(r) in Step(p, r).bests
    ensures forall x :: x in p.bests ==> x in Step(p, r).bests
  {
    StepFacts(p, r);
  }

  /** Each entry is a row of the athlete it is filed under. */
  lemma {:induction false} BestsAfterEntries(rows: seq<RecordRow>)
    ensures forall k :: k in BestsAfter(rows).bests ==>
      KeyOf(BestsAfter(rows).bests[k]) == k && BestsAfter(rows).bests[k] in rows
  {
    if |rows| > 0 {
      var n := |rows| - 1;
      var pre := rows[..n];
      var p := BestsAfter(pre);
      assert BestsAfter(rows) == Step(p, rows[n]);
      BestsAfterEntries(pre);
      StepFacts(p, rows[n]);
      forall k | k in BestsAfter(rows).bests
        ensures KeyOf(BestsAfter(rows).bests[k]) == k && BestsAfter(rows).bests[k] in rows
      {
        var e := BestsAfter(rows).bests[k];
        if k in p.bests && e == p.bests[k] {
          assert e in pre;
          var i :| 0 <= i < n && pre[i] == e;
          assert rows[i] == e;
        } else {
          assert e == rows[n];
        }
      }
    }
  }

  /** Each athlete's entry is no slower than any of their rows. */
  lemma {:induction false} BestsAfterMinimal(rows: seq<RecordRow>)
    ensures var s := BestsAfter(rows);
      forall i :: 0 <= i < |rows| ==> KeyOf(rows[i]) in s.bests && s.bests[KeyOf(rows[i])].time <= rows[i].time
  {
    if |rows| > 0 {
      var n := |rows| - 1;
      BestsAfterMinimal(rows[..n]);
      forall i | 0 <= i < n ensures rows[..n][i] == rows[i] { }
    }
  }

  /** Every earlier row of the athlete of `rows[i]` is strictly slower. */
  predicate FirstAt(rows: seq<RecordRow>, i: int)
    requires 0 <= i < |rows|
  {
    forall q :: 0 <= q < i && KeyOf(rows[q]) == KeyOf(rows[i]) ==> rows[q].time > rows[i].time
  }

  /** `x` is met in `rows` before any other row of its athlete with its time. */
  predicate FirstWithTime(x: RecordRow, rows: seq<RecordRow>) {
    exists i :: 0 <= i < |rows| && rows[i] == x && FirstAt(rows, i)
  }

  /** `x` is no slower than any row of its athlete in `rows`. */
  predicate Fastest(x: RecordRow, rows: seq<RecordRow>) {
    forall y :: y in rows && KeyOf(y) == KeyOf(x) ==> x.time <= y.time
  }

  lemma {:induction false} FirstWithTimeExtend(x: RecordRow, pre: seq<RecordRow>, r: RecordRow)
    requires FirstWithTime(x, pre)
    ensures FirstWithTime(x, pre + [r])
  {
    var i :| 0 <= i < |pre| && pre[i] == x && FirstAt(pre, i);
    var rows := pre + [r];
    forall q | 0 <= q < i && KeyOf(rows[q]) == KeyOf(rows[i]) ensures rows[q].time > rows[i].time {
      assert rows[q] == pre[q] && rows[i] == pre[i];
    }
    assert rows[i] == x && FirstAt(rows, i);
  }

  /** Each entry is the first of its athlete's rows with that time: ties keep the
      first one met. */
  lemma {:induction false} BestsAfterFirst(rows: seq<RecordRow>)
    ensures var s := BestsAfter(rows);
      forall k :: k in s.bests ==> FirstWithTime(s.bests[k], rows)
  {
    if |rows| > 0 {
      var n := |rows| - 1;
      var pre := rows[..n];
      var p := BestsAfter(pre);
      var s := BestsAfter(rows);
      assert rows == pre + [rows[n]];
      BestsAfterFirst(pre);
      BestsAfterMinimal(pre);
      StepFacts(p, rows[n]);
      forall k | k in s.bests ensures FirstWithTime(s.bests[k], rows) {
        if k in p.bests && s.bests[k] == p.bests[k] {
          FirstWithTimeExtend(p.bests[k], pre, rows[n]);
        } else {
          forall q | 0 <= q < n && KeyOf(rows[q]) == KeyOf(rows[n]) ensures rows[q].time > rows[n].time {
            assert pre[q] == rows[q];
          }
          assert FirstAt(rows, n);
        }
      }
    }
  }

  /** The `forEach` over `allResults` filling the `bests` map, then `values()`. */
  method CourseBests(allResults: seq<RecordRow>) returns (values: seq<RecordRow>)
    ensures values == BestValuesOf(allResults)
  {
    var bests: map<string, RecordRow> := map[];
    var order: seq<string> := [];
    for i := 0 to |allResults|
      invariant BestMap(order, bests) == BestsAfter(allResults[..i])
    {
      assert allResults[..i + 1][..i] == allResults[..i];
      var r := allResults[i];
      var key := KeyOf(r);
      if key !in bests || r.time < bests[key].time {
        if key !in bests {
          order := order + [key];
        }
        bests := bests[key := r];
      }
    }
    assert allResults[..|allResults|] == allResults;
    values := [];
    for j := 0 to |order|
      invariant values == Values(order[..j], bests)
    {
      assert order[..j + 1][..j] == order[..j];
      if order[j] in bests {
        values := values + [bests[order[j]]];
      }
    }
    assert order[..|order|] == order;
  }

  /** The value of `courseRecords`. */
  function CourseRecordsOf(athletes: seq<Athlete>, sessions: seq<RaceSession>, routeId: string, mode: Mode): seq<RecordRow> {
    if routeId == "" then []
    else
      var allResults := KnownRows(SelectedRows(athletes, Courses, sessions, routeId));
      if mode == All then SortBy(allResults, TimeLe) else SortBy(BestValuesOf(allResults), TimeLe)
  }

  /** `courseRecords` */
  method CourseRecords(athletes: seq<Athlete>, sessions: seq<RaceSession>, routeId: string, mode: Mode)
    returns (records: seq<RecordRow>)
    ensures records == CourseRecordsOf(athletes, sessions, routeId, mode)
  {
    if routeId == "" {
      return [];
    }
    var allResults := KnownRows(SelectedRows(athletes, Courses, sessions, routeId));
    if mode == All {
      records := SortBy(allResults, TimeLe);
    } else {
      var values := CourseBests(allResults);
      records := SortBy(values, TimeLe);
    }
  }

  /** "All" by course: every finished result on the route of a known athlete, fastest
      first. */
  lemma {:induction false} CourseAllCorrect(athletes: seq<Athlete>, sessions: seq<RaceSession>, routeId: string)
    requires routeId != ""
    ensures var r := CourseRecordsOf(athletes, sessions, routeId, All);
      && SortedBy(r, TimeLe)
      && forall x :: x in r <==>
           x.athlete.Some? && exists s, res :: (s in sessions && s.routeId == routeId && res in s.results
             && res.time > 0 && x == ResultRow(athletes, Courses, s, res))
  {
    var rows := KnownRows(SelectedRows(athletes, Courses, sessions, routeId));
    SelectedRowsMembers(athletes, Courses, sessions, routeId);
    KnownRowsMembers(SelectedRows(athletes, Courses, sessions, routeId));
    TimeLeOrder();
    SortBySorted(rows, TimeLe);
    forall x ensures x in SortBy(rows, TimeLe) <==> x in rows {
      InSortBy(rows, TimeLe, x);
    }
  }

  /** The values of the map are filed under the keys in insertion order. */
  lemma {:induction false} BestValuesOrder(rows: seq<RecordRow>)
    ensures Map(BestValuesOf(rows), KeyOf) == BestsAfter(rows).order
  {
    var s := BestsAfter(rows);
    var v := BestValuesOf(rows);
    BestsAfterOrder(rows);
    BestsAfterEntries(rows);
    ValuesAt(s.order, s.bests);
    forall j | 0 <= j < |v| ensures Map(v, KeyOf)[j] == s.order[j] {
      assert v[j] == s.bests[s.order[j]];
    }
  }

  /** The values of the map: one row per athlete met, and every athlete met has one. */
  lemma {:induction false} BestValuesKeys(rows: seq<RecordRow>)
    ensures NoDup(Map(BestValuesOf(rows), KeyOf))
    ensures forall y :: y in rows ==> exists x :: x in BestValuesOf(rows) && KeyOf(x) == KeyOf(y)
  {
    var s := BestsAfter(rows);
    var v := BestValuesOf(rows);
    BestsAfterOrder(rows);
    BestValuesOrder(rows);
    forall y | y in rows ensures exists x :: x in v && KeyOf(x) == KeyOf(y) {
      var i :| 0 <= i < |rows| && rows[i] == y;
      BestsAfterKeys(rows);
      assert KeyOf(y) in s.order;
      var j :| 0 <= j < |s.order| && s.order[j] == KeyOf(y);
      assert Map(v, KeyOf)[j] == KeyOf(v[j]);
      assert v[j] in v;
    }
  }

  /** Each value of the map is a row of its athlete, no slower than any other and the
      first met with that time. */
  lemma {:induction false} BestValuesRows(rows: seq<RecordRow>)
    ensures forall x :: x in BestValuesOf(rows) ==> x in rows && Fastest(x, rows) && FirstWithTime(x, rows)
  {
    var s := BestsAfter(rows);
    var v := Values(s.order, s.bests);
    BestsAfterOrder(rows);
    BestsAfterEntries(rows);
    BestsAfterMinimal(rows);
    BestsAfterFirst(rows);
    ValuesAt(s.order, s.bests);
    forall x | x in v ensures x in rows && Fastest(x, rows) && FirstWithTime(x, rows) {
      var j :| 0 <= j < |v| && v[j] == x;
      var k := s.order[j];
      assert x == s.bests[k];
      forall y | y in rows && KeyOf(y) == KeyOf(x) ensures x.time <= y.time {
        var i :| 0 <= i < |rows| && rows[i] == y;
      }
    }
  }

  /** "Best" by course: fastest first, at most one row per athlete, and every athlete
      with a row on the route has one. */
  lemma {:induction false} CourseBestCorrect(athletes: seq<Athlete>, sessions: seq<RaceSession>, routeId: string)
    requires routeId != ""
    ensures var all := KnownRows(SelectedRows(athletes, Courses, sessions, routeId));
      var r := CourseRecordsOf(athletes, sessions, routeId, Best);
      && SortedBy(r, TimeLe)
      && (forall i, j :: 0 <= i < j < |r| ==> KeyOf(r[i]) != KeyOf(r[j]))
      && (forall y :: y in all ==> exists x :: x in r && KeyOf(x) == KeyOf(y))
  {
    var all := KnownRows(SelectedRows(athletes, Courses, sessions, routeId));
    var s := BestsAfter(all);
    var v := Values(s.order, s.bests);
    var r := SortBy(v, TimeLe);
    assert r == CourseRecordsOf(athletes, sessions, routeId, Best);
    BestValuesKeys(all);
    TimeLeOrder();
    SortBySorted(v, TimeLe);
    forall x ensures x in r <==> x in v {
      InSortBy(v, TimeLe, x);
    }
    SortByProjectPermutes(v, TimeLe, KeyOf);
    NoDupPermutes(Map(v, KeyOf), Map(r, KeyOf));
    forall i, j | 0 <= i < j < |r| ensures KeyOf(r[i]) != KeyOf(r[j]) {
      assert Map(r, KeyOf)[i] == KeyOf(r[i]) && Map(r, KeyOf)[j] == KeyOf(r[j]);
    }
  }

  /** Each "best" course row is a finished route result of its athlete, no slower than
      any other of theirs and the first met with that time. */
  lemma {:induction false} CourseBestRows(athletes: seq<Athlete>, sessions: seq<RaceSession>, routeId: string)
    requires routeId != ""
    ensures var all := KnownRows(SelectedRows(athletes, Courses, sessions, routeId));
      forall x :: x in CourseRecordsOf(athletes, sessions, routeId, Best) ==>
        x in all && Fastest(x, all) && FirstWithTime(x, all)
  {
    var all := KnownRows(SelectedRows(athletes, Courses, sessions, routeId));
    var s := BestsAfter(all);
    var v := Values(s.order, s.bests);
    assert SortBy(v, TimeLe) == CourseRecordsOf(athletes, sessions, routeId, Best);
    BestValuesRows(all);
    forall x ensures x in SortBy(v, TimeLe) <==> x in v {
      InSortBy(v, TimeLe, x);
    }
  }

  // ---------------------------------------------------------------------------
  // Filters

  /** The four filter fields; "" means the filter is off. */
  datatype Filters = Filters(faculty: string, batch: string, athleteId: string, year: string)

  /** The test of `filteredRecords`: each filter that is on must match, and with a
      year filter the row must be dated. */
  predicate Keep(f: Filters, record: RecordRow) {
    var athlete := record.athlete;
    && !(f.faculty != "" && (athlete.None? || athlete.value.faculty != f.faculty))
    && !(f.batch != "" && (athlete.None? || athlete.value.batch != f.batch))
    && !(f.athleteId != "" && (athlete.None? || athlete.value.id != f.athleteId))
    && !(f.year != "" && (record.date == "" || YearOf(record.date) != f.year))
  }

  function FilterRecords(rows: seq<RecordRow>, f: Filters): seq<RecordRow> {
    if |rows| == 0 then []
    else (if Keep(f, rows[0]) then [rows[0]] else []) + FilterRecords(rows[1..], f)
  }

  /** `filteredRecords` */
  function FilteredRecords(view: View, eventRecords: seq<RecordRow>, courseRecords: seq<RecordRow>, f: Filters): seq<RecordRow> {
    FilterRecords(if view == Events then eventRecords else courseRecords, f)
  }

  lemma {:induction false} FilterRecordsCorrect(rows: seq<RecordRow>, f: Filters)
    ensures Subsequence(FilterRecords(rows, f), rows)
    ensures forall x :: x in FilterRecords(rows, f) <==> x in rows && Keep(f, x)
  {
    if |rows| > 0 {
      FilterRecordsCorrect(rows[1..], f);
      var r := FilterRecords(rows, f);
      assert rows == [rows[0]] + rows[1..];
      if Keep(f, rows[0]) {
        assert r[0] == rows[0] && r[1..] == FilterRecords(rows[1..], f);
        assert Subsequence(r[1..], rows[1..]);
      } else {
        assert r == FilterRecords(rows[1..], f);
        assert Subsequence(r, rows[1..]);
      }
    }
  }

  /** The filtered table keeps, in order, exactly the rows of the table shown that
      match every filter that is on; the year filter drops undated rows. */
  lemma {:induction false} FilteredRecordsCorrect(view: View, eventRecords: seq<RecordRow>, courseRecords: seq<RecordRow>, f: Filters)
    ensures var source := if view == Events then eventRecords else courseRecords;
      var r := FilteredRecords(view, eventRecords, courseRecords, f);
      && Subsequence(r, source)
      && forall x :: x in r <==> (x in source
           && (f.faculty != "" ==> x.athlete.Some? && x.athlete.value.faculty == f.faculty)
           && (f.batch != "" ==> x.athlete.Some? && x.athlete.value.batch == f.batch)
           && (f.athleteId != "" ==> x.athlete.Some? && x.athlete.value.id == f.athleteId)
           && (f.year != "" ==> x.date != "" && YearOf(x.date) == f.year))
  {
    FilterRecordsCorrect(if view == Events then eventRecords else courseRecords, f);
  }
}

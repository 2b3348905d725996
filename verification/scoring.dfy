/** What `recordSession` and `calculatePenalty` compute (hooks/useAthleticsData.ts),
    as functions of the store's state before the call. */
module Scoring {
  import opened Wrappers
  import opened Text
  import opened Seqs
  import opened Types
  import opened Utils

  // ---------------------------------------------------------------------------
  // Minima where `None` stands for `Infinity`

  /** `Math.min(...s)`, `Infinity` for an empty `s`. */
  function MinOf(s: seq<Time>): (r: Option<Time>)
    ensures r.None? <==> |s| == 0
    ensures r.Some? ==> r.value in s && forall i :: 0 <= i < |s| ==> r.value <= s[i]
  {
    if |s| == 0 then None
    else match MinOf(s[1..])
      case None => Some(s[0])
      case Some(m) => Some(if s[0] <= m then s[0] else m)
  }

  /** `Math.min(a, b)` over times or `Infinity`. */
  function MinOpt(a: Option<Time>, b: Option<Time>): Option<Time> {
    if a.None? then b else if b.None? then a else Some(if a.value <= b.value then a.value else b.value)
  }

  /** `t < bound` where the bound may be `Infinity`. */
  predicate Below(t: Time, bound: Option<Time>) {
    bound.None? || t < bound.value
  }

  lemma {:induction false} BelowMinOf(t: Time, s: seq<Time>)
    ensures Below(t, MinOf(s)) <==> forall i :: 0 <= i < |s| ==> t < s[i]
  {
  }

  lemma {:induction false} MinOfConcat(a: seq<Time>, b: seq<Time>)
    ensures MinOf(a + b) == MinOpt(MinOf(a), MinOf(b))
  {
    if |a| > 0 {
      assert (a + b)[1..] == a[1..] + b;
      MinOfConcat(a[1..], b);
    } else {
      assert a + b == b;
    }
  }

  // ---------------------------------------------------------------------------
  // Years

  /** `parseInt(date.split('-')[0])`; `None` is NaN. */
  function YearOf(date: string): Option<int> {
    ParseIntPrefix(Before(date, '-'))
  }

  /** `===` on parsed years: NaN equals nothing, itself included. */
  predicate SameYear(a: Option<int>, b: Option<int>) {
    a.Some? && b.Some? && a.value == b.value
  }

  // ---------------------------------------------------------------------------
  // Course record

  /** The times above zero in `results`, in order. */
  function PositiveTimes(results: seq<RaceResult>): seq<Time> {
    if |results| == 0 then []
    else (if results[0].time > 0 then [results[0].time] else []) + PositiveTimes(results[1..])
  }

  /** Every time above zero recorded on sessions of the route. */
  function RouteTimes(sessions: seq<RaceSession>, routeId: string): seq<Time> {
    if |sessions| == 0 then []
    else
      var head := if sessions[0].routeId == routeId then PositiveTimes(sessions[0].results) else [];
      head + RouteTimes(sessions[1..], routeId)
  }

  /** `courseRecordTime`: the fastest earlier time on the route, `Infinity` without a route
      or without earlier times. */
  function CourseRecordTime(sessions: seq<RaceSession>, routeId: string): Option<Time> {
    if routeId == "" then None else MinOf(RouteTimes(sessions, routeId))
  }

  /** `t` beats every earlier time above zero on the route. */
  predicate FasterThanRoute(t: Time, sessions: seq<RaceSession>, routeId: string) {
    forall i, j ::
      (0 <= i < |sessions| && sessions[i].routeId == routeId && 0 <= j < |sessions[i].results|
        && sessions[i].results[j].time > 0) ==> t < sessions[i].results[j].time
  }

  lemma {:induction false} BelowPositiveTimes(t: Time, results: seq<RaceResult>)
    ensures Below(t, MinOf(PositiveTimes(results))) <==>
      (forall j :: 0 <= j < |results| && results[j].time > 0 ==> t < results[j].time)
  {
    if |results| > 0 {
      BelowPositiveTimes(t, results[1..]);
      var head := if results[0].time > 0 then [results[0].time] else [];
      MinOfConcat(head, PositiveTimes(results[1..]));
      forall j | 1 <= j < |results| ensures results[j] == results[1..][j - 1] { }
    }
  }

  lemma {:induction false} BelowRouteTimes(t: Time, sessions: seq<RaceSession>, routeId: string)
    ensures Below(t, MinOf(RouteTimes(sessions, routeId))) <==> FasterThanRoute(t, sessions, routeId)
  {
    if |sessions| > 0 {
      BelowRouteTimes(t, sessions[1..], routeId);
      BelowPositiveTimes(t, sessions[0].results);
      var head := if sessions[0].routeId == routeId then PositiveTimes(sessions[0].results) else [];
      MinOfConcat(head, RouteTimes(sessions[1..], routeId));
      BelowMinOpt(t, MinOf(head), MinOf(RouteTimes(sessions[1..], routeId)));
      FasterThanRouteCons(t, sessions, routeId);
    }
  }

  lemma {:induction false} BelowMinOpt(t: Time, a: Option<Time>, b: Option<Time>)
    ensures Below(t, MinOpt(a, b)) <==> Below(t, a) && Below(t, b)
  {
  }

  /** Beating the route's times on a list of sessions is beating those of the first
      session, when it is on the route, and those of the rest. */
  lemma {:induction false} FasterThanRouteCons(t: Time, sessions: seq<RaceSession>, routeId: string)
    requires |sessions| > 0
    ensures FasterThanRoute(t, sessions, routeId) <==>
      && (sessions[0].routeId == routeId ==>
            forall j :: 0 <= j < |sessions[0].results| && sessions[0].results[j].time > 0 ==> t < sessions[0].results[j].time)
      && FasterThanRoute(t, sessions[1..], routeId)
  {
    var rest := sessions[1..];
    forall i | 1 <= i < |sessions| ensures sessions[i] == rest[i - 1] { }
    if FasterThanRoute(t, rest, routeId) && (sessions[0].routeId == routeId ==>
            forall j :: 0 <= j < |sessions[0].results| && sessions[0].results[j].time > 0 ==> t < sessions[0].results[j].time) {
      forall i, j | 0 <= i < |sessions| && sessions[i].routeId == routeId && 0 <= j < |sessions[i].results|
          && sessions[i].results[j].time > 0
        ensures t < sessions[i].results[j].time
      {
        if i > 0 {
          assert rest[i - 1] == sessions[i];
        }
      }
    }
  }

  /** A time is below the course record exactly when a route is set and the time beats
      every earlier time above zero on it. */
  lemma {:induction false} BelowCourseRecord(t: Time, sessions: seq<RaceSession>, routeId: string)
    requires routeId != ""
    ensures Below(t, CourseRecordTime(sessions, routeId)) <==> FasterThanRoute(t, sessions, routeId)
  {
    BelowRouteTimes(t, sessions, routeId);
  }

  // ---------------------------------------------------------------------------
  // Tags and points of one entry

  /** `!pb || time < pb.time` */
  predicate IsPB(pb: Option<PB>, t: Time) {
    pb.None? || t < pb.value.time
  }

  /** The athlete's times above zero in `results`. */
  function AthleteTimes(results: seq<RaceResult>, athleteId: string): seq<Time> {
    if |results| == 0 then []
    else
      var head := if results[0].athleteId == athleteId && results[0].time > 0 then [results[0].time] else [];
      head + AthleteTimes(results[1..], athleteId)
  }

  /** The athlete's times above zero in earlier sessions of the event in the race's year. */
  function SeasonTimes(sessions: seq<RaceSession>, year: Option<int>, eventId: string, athleteId: string): seq<Time> {
    if |sessions| == 0 then []
    else
      var head := if SameYear(YearOf(sessions[0].date), year) && sessions[0].eventId == eventId
        then AthleteTimes(sessions[0].results, athleteId) else [];
      head + SeasonTimes(sessions[1..], year, eventId, athleteId)
  }

  /** `manualPBBest`: the stored PB when it carries a date in the race's year. */
  function ManualSeasonBest(pb: Option<PB>, year: Option<int>): Option<Time> {
    if pb.Some? && pb.value.date != "" && SameYear(YearOf(pb.value.date), year) then Some(pb.value.time) else None
  }

  /** The tags of a scored entry: "PB" then "SB", both judged against the state
      before the session. */
  function EntryTags(e: Entry, eventId: string, athletes: seq<Athlete>, sessions: seq<RaceSession>, date: string): seq<Tag> {
    match FindAthlete(athletes, e.athleteId)
    case None => []
    case Some(a) =>
      if e.time <= 0 then []
      else
        var pb := FindPB(a.personalBests, eventId);
        var year := YearOf(date);
        var seasonBest := MinOpt(MinOf(SeasonTimes(sessions, year, eventId, e.athleteId)), ManualSeasonBest(pb, year));
        (if IsPB(pb, e.time) then [PBTag] else [])
          + (if IsPB(pb, e.time) || Below(e.time, seasonBest) then [SBTag] else [])
  }

  /** The result row built for one entry, before sorting and ranking. */
  function ScoreEntry(e: Entry, event: EventStandard, athletes: seq<Athlete>, sessions: seq<RaceSession>,
                      date: string, law: PowerLaw): RaceResult {
    RaceResult(e.athleteId, e.time, CalculatePoints(e.time, event.goldTime, event.kValue, law), 0,
      EntryTags(e, event.id, athletes, sessions, date), "")
  }

  function ScoreAll(entries: seq<Entry>, event: EventStandard, athletes: seq<Athlete>, sessions: seq<RaceSession>,
                    date: string, law: PowerLaw): (r: seq<RaceResult>)
    ensures |r| == |entries|
    ensures forall i :: 0 <= i < |entries| ==> r[i] == ScoreEntry(entries[i], event, athletes, sessions, date, law)
  {
    if |entries| == 0 then []
    else
      [ScoreEntry(entries[0], event, athletes, sessions, date, law)]
        + ScoreAll(entries[1..], event, athletes, sessions, date, law)
  }

  /** The condition for a "PB" tag. */
  predicate EarnsPB(e: Entry, eventId: string, athletes: seq<Athlete>) {
    var a := FindAthlete(athletes, e.athleteId);
    a.Some? && e.time > 0 && IsPB(FindPB(a.value.personalBests, eventId), e.time)
  }

  /** `t` beats every earlier time above zero of the athlete at the event in the year. */
  predicate FasterThanSeason(t: Time, sessions: seq<RaceSession>, year: Option<int>, eventId: string, athleteId: string) {
    forall i, j ::
      (0 <= i < |sessions| && SameYear(YearOf(sessions[i].date), year) && sessions[i].eventId == eventId
        && 0 <= j < |sessions[i].results| && sessions[i].results[j].athleteId == athleteId
        && sessions[i].results[j].time > 0) ==> t < sessions[i].results[j].time
  }

  /** The condition for an "SB" tag: a known athlete who finished, with a PB, or with a
      time below their earlier times at the event this year and below a stored PB dated
      this year. */
  predicate EarnsSB(e: Entry, eventId: string, athletes: seq<Athlete>, sessions: seq<RaceSession>, date: string) {
    var a := FindAthlete(athletes, e.athleteId);
    a.Some? && e.time > 0 &&
      var pb := FindPB(a.value.personalBests, eventId);
      var year := YearOf(date);
      || IsPB(pb, e.time)
      || (&& FasterThanSeason(e.time, sessions, year, eventId, e.athleteId)
          && (pb.Some? && pb.value.date != "" && SameYear(YearOf(pb.value.date), year) ==> e.time < pb.value.time))
  }

  /** "PB" exactly when the athlete exists, finished, and has no PB for the event or
      beat it; "SB" exactly when the season-best condition holds, so a "PB" always
      comes with an "SB"; no other tag is produced. */
  lemma {:induction false} EntryTagsCorrect(e: Entry, eventId: string, athletes: seq<Athlete>, sessions: seq<RaceSession>, date: string)
    ensures var tags := EntryTags(e, eventId, athletes, sessions, date);
      && (PBTag in tags <==> EarnsPB(e, eventId, athletes))
      && (SBTag in tags <==> EarnsSB(e, eventId, athletes, sessions, date))
      && (PBTag in tags ==> SBTag in tags)
      && CRTag !in tags && PenaltyTag !in tags
  {
    EntryTagsSeasonBest(e, eventId, athletes, sessions, date);
  }

  lemma {:induction false} EntryTagsSeasonBest(e: Entry, eventId: string, athletes: seq<Athlete>, sessions: seq<RaceSession>, date: string)
    ensures SBTag in EntryTags(e, eventId, athletes, sessions, date) <==> EarnsSB(e, eventId, athletes, sessions, date)
  {
    var a := FindAthlete(athletes, e.athleteId);
    if a.Some? && e.time > 0 {
      var pb := FindPB(a.value.personalBests, eventId);
      var year := YearOf(date);
      var times := SeasonTimes(sessions, year, eventId, e.athleteId);
      BelowSeasonTimes(e.time, sessions, year, eventId, e.athleteId);
      BelowMinOpt(e.time, MinOf(times), ManualSeasonBest(pb, year));
    }
  }

  lemma {:induction false} BelowAthleteTimes(t: Time, results: seq<RaceResult>, athleteId: string)
    ensures Below(t, MinOf(AthleteTimes(results, athleteId))) <==>
      (forall j :: 0 <= j < |results| && results[j].athleteId == athleteId && results[j].time > 0 ==> t < results[j].time)
  {
    if |results| > 0 {
      BelowAthleteTimes(t, results[1..], athleteId);
      var head := if results[0].athleteId == athleteId && results[0].time > 0 then [results[0].time] else [];
      MinOfConcat(head, AthleteTimes(results[1..], athleteId));
      forall j | 1 <= j < |results| ensures results[j] == results[1..][j - 1] { }
    }
  }

  lemma {:induction false} BelowSeasonTimes(t: Time, sessions: seq<RaceSession>, year: Option<int>, eventId: string, athleteId: string)
    ensures Below(t, MinOf(SeasonTimes(sessions, year, eventId, athleteId))) <==>
      FasterThanSeason(t, sessions, year, eventId, athleteId)
  {
    if |sessions| > 0 {
      BelowSeasonTimes(t, sessions[1..], year, eventId, athleteId);
      BelowAthleteTimes(t, sessions[0].results, athleteId);
      var head := if SameYear(YearOf(sessions[0].date), year) && sessions[0].eventId == eventId
        then AthleteTimes(sessions[0].results, athleteId) else [];
      MinOfConcat(head, SeasonTimes(sessions[1..], year, eventId, athleteId));
      BelowMinOpt(t, MinOf(head), MinOf(SeasonTimes(sessions[1..], year, eventId, athleteId)));
      FasterThanSeasonCons(t, sessions, year, eventId, athleteId);
    }
  }

  /** Beating the season's times on a list of sessions is beating those of the first
      session, when it counts, and those of the rest. */
  lemma {:induction false} FasterThanSeasonCons(t: Time, sessions: seq<RaceSession>, year: Option<int>, eventId: string, athleteId: string)
    requires |sessions| > 0
    ensures FasterThanSeason(t, sessions, year, eventId, athleteId) <==>
      && (SameYear(YearOf(sessions[0].date), year) && sessions[0].eventId == eventId ==>
            forall j :: (0 <= j < |sessions[0].results| && sessions[0].results[j].athleteId == athleteId
              && sessions[0].results[j].time > 0) ==> t < sessions[0].results[j].time)
      && FasterThanSeason(t, sessions[1..], year, eventId, athleteId)
  {
    var rest := sessions[1..];
    forall i | 1 <= i < |sessions| ensures sessions[i] == rest[i - 1] { }
    if && FasterThanSeason(t, rest, year, eventId, athleteId)
       && (SameYear(YearOf(sessions[0].date), year) && sessions[0].eventId == eventId ==>
            forall j :: (0 <= j < |sessions[0].results| && sessions[0].results[j].athleteId == athleteId
              && sessions[0].results[j].time > 0) ==> t < sessions[0].results[j].time) {
      forall i, j | 0 <= i < |sessions| && SameYear(YearOf(sessions[i].date), year) && sessions[i].eventId == eventId
          && 0 <= j < |sessions[i].results| && sessions[i].results[j].athleteId == athleteId
          && sessions[i].results[j].time > 0
        ensures t < sessions[i].results[j].time
      {
        if i > 0 {
          assert rest[i - 1] == sessions[i];
        }
      }
    }
  }

  // ---------------------------------------------------------------------------
  // Sorting and ranks

  /** The comparator `a.time - b.time`. */
  predicate TimeLe(a: RaceResult, b: RaceResult) {
    a.time <= b.time
  }

  lemma {:induction false} TimeLeOrder()
    ensures TotalPreorder(TimeLe)
  {
  }

  /** `entries.find(e => e.athleteId === id)` */
  function FindEntry(entries: seq<Entry>, athleteId: string): (r: Option<Entry>)
    ensures r.Some? ==> r.value in entries && r.value.athleteId == athleteId
    ensures r.None? <==> forall i :: 0 <= i < |entries| ==> entries[i].athleteId != athleteId
  {
    if |entries| == 0 then None
    else if entries[0].athleteId == athleteId then Some(entries[0])
    else FindEntry(entries[1..], athleteId)
  }

  /** `find` returns the first entry of the athlete. */
  lemma {:induction false} FindEntryFirst(entries: seq<Entry>, athleteId: string) returns (i: nat)
    requires FindEntry(entries, athleteId).Some?
    ensures i < |entries| && entries[i] == FindEntry(entries, athleteId).value
    ensures forall j :: 0 <= j < i ==> entries[j].athleteId != athleteId
  {
    if entries[0].athleteId == athleteId {
      i := 0;
    } else {
      var k := FindEntryFirst(entries[1..], athleteId);
      i := k + 1;
      forall j | 1 <= j < i ensures entries[j].athleteId != athleteId {
        assert entries[j] == entries[1..][j - 1];
      }
    }
  }

  /** A manual place is used when it is truthy, i.e. given and not 0. */
  predicate HasPlace(e: Option<Entry>) {
    e.Some? && e.value.place.Some? && e.value.place.value != 0
  }

  /** `(entry && entry.place) ? entry.place : idx + 1` */
  function RankFor(entries: seq<Entry>, athleteId: string, idx: nat): int {
    var e := FindEntry(entries, athleteId);
    if HasPlace(e) then e.value.place.value else idx + 1
  }

  /** The rows with their ranks filled in, `from` being the index of the first. */
  function Ranked(rs: seq<RaceResult>, entries: seq<Entry>, from: nat): (r: seq<RaceResult>)
    ensures |r| == |rs|
    ensures forall i :: 0 <= i < |rs| ==> r[i] == rs[i].(rank := RankFor(entries, rs[i].athleteId, from + i))
  {
    if |rs| == 0 then []
    else [rs[0].(rank := RankFor(entries, rs[0].athleteId, from))] + Ranked(rs[1..], entries, from + 1)
  }

  /** `results[0].tags.push('CR')` when the winner beats the course record of a set route. */
  function WithCourseRecord(rs: seq<RaceResult>, record: Option<Time>, routeId: string): (r: seq<RaceResult>)
    ensures |r| == |rs|
  {
    if |rs| > 0 && Below(rs[0].time, record) && routeId != ""
    then [rs[0].(tags := rs[0].tags + [CRTag])] + rs[1..]
    else rs
  }

  // ---------------------------------------------------------------------------
  // Penalties

  predicate DateDescLe(a: RaceSession, b: RaceSession) {
    StrLe(b.date, a.date)
  }

  lemma {:induction false} DateDescLeOrder()
    ensures TotalPreorder(DateDescLe)
  {
    StrLeOrder();
  }

  /** Sessions dated on or before `date`, in order. */
  function SessionsUpTo(sessions: seq<RaceSession>, date: string): (r: seq<RaceSession>)
    ensures forall s :: s in r <==> s in sessions && StrLe(s.date, date)
  {
    if |sessions| == 0 then []
    else (if StrLe(sessions[0].date, date) then [sessions[0]] else []) + SessionsUpTo(sessions[1..], date)
  }

  /** `sortedHistory`: those sessions, most recent first. */
  function History(sessions: seq<RaceSession>, date: string): seq<RaceSession> {
    SortBy(SessionsUpTo(sessions, date), DateDescLe)
  }

  /** The points of the athlete's first row in the first session of `history` that has one. */
  function LastResultPoints(history: seq<RaceSession>, athleteId: string): Option<int> {
    if |history| == 0 then None
    else match FindResult(history[0].results, athleteId)
      case Some(r) => Some(r.points)
      case None => LastResultPoints(history[1..], athleteId)
  }

  function Max0(x: int): nat {
    if x > 0 then x else 0
  }

  /** `calculatePenalty`: 20 below the last place, capped at 20 below the athlete's last result. */
  function Penalty(lastPlacePoints: int, athleteId: string, date: string, sessions: seq<RaceSession>): int {
    var penalty := Max0(lastPlacePoints - 20);
    match LastResultPoints(History(sessions, date), athleteId)
    case None => penalty
    case Some(q) => if penalty > Max0(q - 20) then Max0(q - 20) else penalty
  }

  lemma {:induction false} LastResultPointsFirst(h: seq<RaceSession>, athleteId: string)
    ensures LastResultPoints(h, athleteId).None? <==> forall k :: 0 <= k < |h| ==> !HasResult(h[k].results, athleteId)
    ensures LastResultPoints(h, athleteId).Some? ==>
      exists k :: 0 <= k < |h| && HasResult(h[k].results, athleteId)
        && LastResultPoints(h, athleteId).value == FindResult(h[k].results, athleteId).value.points
        && forall m :: 0 <= m < k ==> !HasResult(h[m].results, athleteId)
  {
    LastResultPointsNone(h, athleteId);
    LastResultPointsSome(h, athleteId);
  }

  lemma {:induction false} LastResultPointsNone(h: seq<RaceSession>, athleteId: string)
    ensures LastResultPoints(h, athleteId).None? <==> forall k :: 0 <= k < |h| ==> !HasResult(h[k].results, athleteId)
  {
    if |h| > 0 {
      FindResultSome(h[0].results, athleteId);
      LastResultPointsNone(h[1..], athleteId);
      if FindResult(h[0].results, athleteId).None? {
        forall k | 1 <= k < |h| ensures h[k] == h[1..][k - 1] { }
      }
    }
  }

  lemma {:induction false} LastResultPointsSome(h: seq<RaceSession>, athleteId: string)
    ensures LastResultPoints(h, athleteId).Some? ==>
      exists k :: 0 <= k < |h| && HasResult(h[k].results, athleteId)
        && LastResultPoints(h, athleteId).value == FindResult(h[k].results, athleteId).value.points
        && forall m :: 0 <= m < k ==> !HasResult(h[m].results, athleteId)
  {
    if LastResultPoints(h, athleteId).Some? {
      var k := LastResultPointsAt(h, athleteId);
    }
  }

  /** The session the points come from: the first one where the athlete has a row. */
  lemma {:induction false} LastResultPointsAt(h: seq<RaceSession>, athleteId: string) returns (k: nat)
    requires LastResultPoints(h, athleteId).Some?
    ensures k < |h| && HasResult(h[k].results, athleteId)
    ensures LastResultPoints(h, athleteId).value == FindResult(h[k].results, athleteId).value.points
    ensures forall m :: 0 <= m < k ==> !HasResult(h[m].results, athleteId)
  {
    FindResultSome(h[0].results, athleteId);
    if FindResult(h[0].results, athleteId).None? {
      var t := h[1..];
      assert LastResultPoints(h, athleteId) == LastResultPoints(t, athleteId);
      var j := LastResultPointsAt(t, athleteId);
      k := j + 1;
      assert h[k] == t[j];
      forall m | 1 <= m < k ensures h[m] == t[m - 1] { }
    } else {
      k := 0;
    }
  }

  /** A penalty is never negative and never above 20 below the last place. */
  lemma {:induction false} PenaltyBounds(lastPlacePoints: int, athleteId: string, date: string, sessions: seq<RaceSession>)
    ensures 0 <= Penalty(lastPlacePoints, athleteId, date, sessions) <= Max0(lastPlacePoints - 20)
  {
  }

  /** The history holds exactly the sessions dated on or before the race, most recent first. */
  lemma {:induction false} HistoryCorrect(sessions: seq<RaceSession>, date: string)
    ensures var h := History(sessions, date);
      && (forall x :: x in h <==> x in sessions && StrLe(x.date, date))
      && (forall i, j :: 0 <= i < j < |h| ==> StrLe(h[j].date, h[i].date))
  {
    var upTo := SessionsUpTo(sessions, date);
    var h := History(sessions, date);
    SortByPermutes(upTo, DateDescLe);
    DateDescLeOrder();
    SortBySorted(upTo, DateDescLe);
    forall x ensures x in h <==> x in upTo {
      assert x in h <==> x in multiset(h);
      assert x in upTo <==> x in multiset(upTo);
    }
  }

  /** In a most-recent-first history of the sessions up to `date`, the first session
      with a result for the athlete is a most recent one. */
  lemma {:induction false} MostRecentResult(h: seq<RaceSession>, sessions: seq<RaceSession>, date: string, athleteId: string)
    requires forall x :: x in h <==> x in sessions && StrLe(x.date, date)
    requires forall i, j :: 0 <= i < j < |h| ==> StrLe(h[j].date, h[i].date)
    ensures LastResultPoints(h, athleteId).None? <==>
      forall i :: 0 <= i < |sessions| && StrLe(sessions[i].date, date) ==> !HasResult(sessions[i].results, athleteId)
    ensures LastResultPoints(h, athleteId).Some? ==>
      exists s :: s in sessions && StrLe(s.date, date) && HasResult(s.results, athleteId)
        && (forall j :: 0 <= j < |sessions| && StrLe(sessions[j].date, date) && HasResult(sessions[j].results, athleteId)
              ==> StrLe(sessions[j].date, s.date))
        && LastResultPoints(h, athleteId).value == FindResult(s.results, athleteId).value.points
  {
    LastResultPointsFirst(h, athleteId);
    if LastResultPoints(h, athleteId).Some? {
      var k :| 0 <= k < |h| && HasResult(h[k].results, athleteId)
        && LastResultPoints(h, athleteId).value == FindResult(h[k].results, athleteId).value.points
        && forall m :: 0 <= m < k ==> !HasResult(h[m].results, athleteId);
      var s := h[k];
      forall j | 0 <= j < |sessions| && StrLe(sessions[j].date, date) && HasResult(sessions[j].results, athleteId)
        ensures StrLe(sessions[j].date, s.date)
      {
        assert sessions[j] in h;
        var m :| 0 <= m < |h| && h[m] == sessions[j];
        if m == k {
          StrLeTotal(s.date, s.date);
        }
      }
      assert s in h;
      var i :| 0 <= i < |sessions| && sessions[i] == s;
    } else {
      forall i | 0 <= i < |sessions| && StrLe(sessions[i].date, date)
        ensures !HasResult(sessions[i].results, athleteId)
      {
        assert sessions[i] in h;
      }
    }
  }

  /** An athlete with a result on or before the race date is capped by their most recent
      such session; one without is charged 20 below the last place. */
  lemma {:induction false} PenaltyMostRecent(lastPlacePoints: int, athleteId: string, date: string, sessions: seq<RaceSession>)
    ensures (forall i :: 0 <= i < |sessions| && StrLe(sessions[i].date, date) ==> !HasResult(sessions[i].results, athleteId))
      ==> Penalty(lastPlacePoints, athleteId, date, sessions) == Max0(lastPlacePoints - 20)
    ensures (exists i :: 0 <= i < |sessions| && StrLe(sessions[i].date, date) && HasResult(sessions[i].results, athleteId))
      ==>
        exists s :: s in sessions && StrLe(s.date, date) && HasResult(s.results, athleteId)
          && (forall j :: 0 <= j < |sessions| && StrLe(sessions[j].date, date) && HasResult(sessions[j].results, athleteId)
                ==> StrLe(sessions[j].date, s.date))
          && Penalty(lastPlacePoints, athleteId, date, sessions) ==
               (var cap := Max0(FindResult(s.results, athleteId).value.points - 20);
                if Max0(lastPlacePoints - 20) > cap then cap else Max0(lastPlacePoints - 20))
  {
    var h := History(sessions, date);
    HistoryCorrect(sessions, date);
    MostRecentResult(h, sessions, date, athleteId);
    var last := LastResultPoints(h, athleteId);
    assert Penalty(lastPlacePoints, athleteId, date, sessions) ==
      if last.None? then Max0(lastPlacePoints - 20)
      else if Max0(lastPlacePoints - 20) > Max0(last.value - 20) then Max0(last.value - 20)
      else Max0(lastPlacePoints - 20);
  }

  // ---------------------------------------------------------------------------
  // The results of a session

  /** `participatingIds` */
  function EntryIds(entries: seq<Entry>): set<string> {
    set e | e in entries :: e.athleteId
  }

  /** `missingAthletes`: active athletes without an entry, in roster order. */
  function Missing(athletes: seq<Athlete>, entries: seq<Entry>): (r: seq<Athlete>)
    ensures forall a :: a in r <==> a in athletes && a.isActive && a.id !in EntryIds(entries)
  {
    if |athletes| == 0 then []
    else
      var head := if athletes[0].isActive && athletes[0].id !in EntryIds(entries) then [athletes[0]] else [];
      head + Missing(athletes[1..], entries)
  }

  /** `lastPlacePoints` */
  function LastPlacePoints(results: seq<RaceResult>): int {
    if |results| > 0 then results[|results| - 1].points else 0
  }

  const MissedNote := "Missed Mandatory Race"

  /** The penalty row pushed for `athlete` when `rank - 1` rows precede it. */
  function PenaltyRow(athlete: Athlete, lastPlacePoints: int, rank: int, sessions: seq<RaceSession>, date: string): RaceResult {
    RaceResult(athlete.id, 0, Penalty(lastPlacePoints, athlete.id, date, sessions), rank, [PenaltyTag], MissedNote)
  }

  /** The penalty rows for `missing`, pushed after `n` rows. */
  function PenaltyRows(missing: seq<Athlete>, lastPlacePoints: int, n: nat, sessions: seq<RaceSession>, date: string): (r: seq<RaceResult>)
    ensures |r| == |missing|
    ensures forall k :: 0 <= k < |missing| ==> r[k] == PenaltyRow(missing[k], lastPlacePoints, n + k + 1, sessions, date)
  {
    if |missing| == 0 then []
    else
      var m := |missing| - 1;
      PenaltyRows(missing[..m], lastPlacePoints, n, sessions, date)
        + [PenaltyRow(missing[m], lastPlacePoints, n + m + 1, sessions, date)]
  }

  /** The scored rows, sorted by time, ranked and with the course record tag. */
  function ScoredResults(meta: SessionMeta, entries: seq<Entry>, event: EventStandard, athletes: seq<Athlete>,
                         sessions: seq<RaceSession>, law: PowerLaw): seq<RaceResult> {
    var sorted := SortBy(ScoreAll(entries, event, athletes, sessions, meta.date, law), TimeLe);
    WithCourseRecord(Ranked(sorted, entries, 0), CourseRecordTime(sessions, meta.routeId), meta.routeId)
  }

  /** The `results` of the recorded session. */
  function SessionResults(meta: SessionMeta, entries: seq<Entry>, event: EventStandard, athletes: seq<Athlete>,
                          sessions: seq<RaceSession>, law: PowerLaw): seq<RaceResult> {
    var scored := ScoredResults(meta, entries, event, athletes, sessions, law);
    if meta.isMandatory
    then scored + PenaltyRows(Missing(athletes, entries), LastPlacePoints(scored), |scored|, sessions, meta.date)
    else scored
  }

  /** `{ ...meta, results, id }` */
  function RecordedSession(id: string, meta: SessionMeta, results: seq<RaceResult>): RaceSession {
    RaceSession(id, meta.date, meta.name, meta.venue, meta.routeId, meta.eventId, meta.isMandatory, results, meta.notes)
  }

  /** Sorting the scored rows orders them by time and permutes them, so each one is
      the row of some entry. */
  lemma {:induction false} SortedScores(entries: seq<Entry>, event: EventStandard, athletes: seq<Athlete>,
      sessions: seq<RaceSession>, date: string, law: PowerLaw)
    ensures var sorted := SortBy(ScoreAll(entries, event, athletes, sessions, date, law), TimeLe);
      && |sorted| == |entries|
      && multiset(sorted) == multiset(ScoreAll(entries, event, athletes, sessions, date, law))
      && (forall i, j :: 0 <= i < j < |sorted| ==> sorted[i].time <= sorted[j].time)
      && (forall i :: 0 <= i < |sorted| ==>
            exists j :: 0 <= j < |entries| && sorted[i] == ScoreEntry(entries[j], event, athletes, sessions, date, law))
  {
    var scored := ScoreAll(entries, event, athletes, sessions, date, law);
    var sorted := SortBy(scored, TimeLe);
    TimeLeOrder();
    SortBySorted(scored, TimeLe);
    SortByPermutes(scored, TimeLe);
    forall i | 0 <= i < |sorted|
      ensures exists j :: 0 <= j < |entries| && sorted[i] == ScoreEntry(entries[j], event, athletes, sessions, date, law)
    {
      var j := SortedEntryAt(entries, event, athletes, sessions, date, law, i);
    }
  }

  /** Ranking and the course-record tag change only ranks, and the tags of the first row. */
  lemma {:induction false} RankedWithRecord(rs: seq<RaceResult>, entries: seq<Entry>, record: Option<Time>, routeId: string)
    ensures var t := WithCourseRecord(Ranked(rs, entries, 0), record, routeId);
      && |t| == |rs|
      && (forall i :: 0 <= i < |rs| ==>
            t[i] == rs[i].(rank := RankFor(entries, rs[i].athleteId, i), tags := t[i].tags)
            && (t[i].tags == rs[i].tags || (i == 0 && t[i].tags == rs[i].tags + [CRTag])))
      && (|rs| > 0 ==> (t[0].tags == rs[0].tags + [CRTag] <==> Below(rs[0].time, record) && routeId != ""))
  {
  }

  /** The recorded results are the scored rows followed, in a mandatory session, by the
      penalty rows. */
  lemma {:induction false} SessionResultsSplit(meta: SessionMeta, entries: seq<Entry>, event: EventStandard,
      athletes: seq<Athlete>, sessions: seq<RaceSession>, law: PowerLaw)
    ensures var rs := SessionResults(meta, entries, event, athletes, sessions, law);
      var tagged := ScoredResults(meta, entries, event, athletes, sessions, law);
      && |tagged| == |entries|
      && rs[..|entries|] == tagged
      && rs == tagged + (if meta.isMandatory
          then PenaltyRows(Missing(athletes, entries), LastPlacePoints(tagged), |tagged|, sessions, meta.date) else [])
  {
  }

  /** The scored rows come first, sorted by time, each ranked by its manual place when
      truthy and by its position otherwise. */
  lemma {:induction false} ScoredRowsSortedAndRanked(meta: SessionMeta, entries: seq<Entry>, event: EventStandard,
      athletes: seq<Athlete>, sessions: seq<RaceSession>, law: PowerLaw)
    ensures var rs := SessionResults(meta, entries, event, athletes, sessions, law);
      && |rs| >= |entries|
      && (forall i, j :: 0 <= i < j < |entries| ==> rs[i].time <= rs[j].time)
      && (forall i :: 0 <= i < |entries| ==>
            var e := FindEntry(entries, rs[i].athleteId);
            rs[i].rank == if HasPlace(e) then e.value.place.value else i + 1)
  {
    var sorted := SortBy(ScoreAll(entries, event, athletes, sessions, meta.date, law), TimeLe);
    var rs := SessionResults(meta, entries, event, athletes, sessions, law);
    SortedScores(entries, event, athletes, sessions, meta.date, law);
    RankedWithRecord(sorted, entries, CourseRecordTime(sessions, meta.routeId), meta.routeId);
    SessionResultsSplit(meta, entries, event, athletes, sessions, law);
    forall i | 0 <= i < |entries|
      ensures rs[i] == rs[..|entries|][i]
    {
    }
  }

  /** The scored row at `i` is the sorted row there, with its rank filled in and a "CR"
      added to the first row exactly when it beats the course record. */
  lemma {:induction false} ScoredRowAt(meta: SessionMeta, entries: seq<Entry>, event: EventStandard,
      athletes: seq<Athlete>, sessions: seq<RaceSession>, law: PowerLaw, i: nat)
    requires i < |entries|
    ensures var rs := SessionResults(meta, entries, event, athletes, sessions, law);
      var sorted := SortBy(ScoreAll(entries, event, athletes, sessions, meta.date, law), TimeLe);
      && |sorted| == |entries| && i < |rs|
      && rs[i].athleteId == sorted[i].athleteId && rs[i].time == sorted[i].time && rs[i].points == sorted[i].points
      && (rs[i].tags == sorted[i].tags || (i == 0 && rs[i].tags == sorted[i].tags + [CRTag]))
      && (i == 0 ==> (rs[0].tags == sorted[0].tags + [CRTag] <==>
                       Below(sorted[0].time, CourseRecordTime(sessions, meta.routeId)) && meta.routeId != ""))
  {
    var sorted := SortBy(ScoreAll(entries, event, athletes, sessions, meta.date, law), TimeLe);
    var rs := SessionResults(meta, entries, event, athletes, sessions, law);
    RankedWithRecord(sorted, entries, CourseRecordTime(sessions, meta.routeId), meta.routeId);
    SessionResultsSplit(meta, entries, event, athletes, sessions, law);
    assert rs[i] == rs[..|entries|][i];
  }

  /** The athlete and time of a result row, and of an entry. */
  function ResultPair(r: RaceResult): (string, Time) {
    (r.athleteId, r.time)
  }

  function EntryPair(e: Entry): (string, Time) {
    (e.athleteId, e.time)
  }

  /** The scored rows at the head of the session carry the entries' athletes and
      times, each pair exactly as often as among the entries. */
  lemma {:induction false} ScoredRowsPermuteEntries(meta: SessionMeta, entries: seq<Entry>, event: EventStandard,
      athletes: seq<Athlete>, sessions: seq<RaceSession>, law: PowerLaw)
    ensures var rs := SessionResults(meta, entries, event, athletes, sessions, law);
      && |entries| <= |rs|
      && multiset(Map(rs[..|entries|], ResultPair)) == multiset(Map(entries, EntryPair))
  {
    var scored := ScoreAll(entries, event, athletes, sessions, meta.date, law);
    var sorted := SortBy(scored, TimeLe);
    var rs := SessionResults(meta, entries, event, athletes, sessions, law);
    SessionHeadPairs(meta, entries, event, athletes, sessions, law);
    SortByProjectPermutes(scored, TimeLe, ResultPair);
    ScoreAllPairs(entries, event, athletes, sessions, meta.date, law);
  }

  /** The head of the session and the sorted rows agree on athlete and time, row by row. */
  lemma {:induction false} SessionHeadPairs(meta: SessionMeta, entries: seq<Entry>, event: EventStandard,
      athletes: seq<Athlete>, sessions: seq<RaceSession>, law: PowerLaw)
    ensures var rs := SessionResults(meta, entries, event, athletes, sessions, law);
      var sorted := SortBy(ScoreAll(entries, event, athletes, sessions, meta.date, law), TimeLe);
      && |entries| <= |rs|
      && Map(rs[..|entries|], ResultPair) == Map(sorted, ResultPair)
  {
    var sorted := SortBy(ScoreAll(entries, event, athletes, sessions, meta.date, law), TimeLe);
    var rs := SessionResults(meta, entries, event, athletes, sessions, law);
    var n := |entries|;
    if n > 0 {
      ScoredRowAt(meta, entries, event, athletes, sessions, law, n - 1);
    }
    var head := rs[..n];
    forall i | 0 <= i < n
      ensures ResultPair(head[i]) == ResultPair(sorted[i])
    {
      ScoredRowAt(meta, entries, event, athletes, sessions, law, i);
      assert head[i] == rs[i];
    }
    MapPairs(head, sorted);
  }

  lemma {:induction false} MapPairs(a: seq<RaceResult>, b: seq<RaceResult>)
    requires |a| == |b|
    requires forall i :: 0 <= i < |a| ==> ResultPair(a[i]) == ResultPair(b[i])
    ensures Map(a, ResultPair) == Map(b, ResultPair)
  {
  }

  /** Scoring keeps each entry's athlete and time. */
  lemma {:induction false} ScoreAllPairs(entries: seq<Entry>, event: EventStandard, athletes: seq<Athlete>,
      sessions: seq<RaceSession>, date: string, law: PowerLaw)
    ensures Map(ScoreAll(entries, event, athletes, sessions, date, law), ResultPair) == Map(entries, EntryPair)
  {
    var scored := ScoreAll(entries, event, athletes, sessions, date, law);
    assert forall i :: 0 <= i < |entries| ==> Map(scored, ResultPair)[i] == Map(entries, EntryPair)[i];
  }

  /** The sorted row at `i` is the scored row of some entry `j`. */
  lemma {:induction false} SortedEntryAt(entries: seq<Entry>, event: EventStandard, athletes: seq<Athlete>,
      sessions: seq<RaceSession>, date: string, law: PowerLaw, i: nat) returns (j: nat)
    requires i < |entries|
    ensures j < |entries|
    ensures SortBy(ScoreAll(entries, event, athletes, sessions, date, law), TimeLe)[i]
      == ScoreEntry(entries[j], event, athletes, sessions, date, law)
  {
    var scored := ScoreAll(entries, event, athletes, sessions, date, law);
    var sorted := SortBy(scored, TimeLe);
    SortByPermutes(scored, TimeLe);
    assert sorted[i] in multiset(scored);
    j :| 0 <= j < |scored| && scored[j] == sorted[i];
  }

  /** Each scored row is the row of some entry: its athlete, time and points, a "PB"
      exactly when that entry earns one, and an "SB" with every "PB". */
  lemma {:induction false} ScoredRowsFromEntries(meta: SessionMeta, entries: seq<Entry>, event: EventStandard,
      athletes: seq<Athlete>, sessions: seq<RaceSession>, law: PowerLaw, i: nat)
    requires i < |entries|
    ensures var r := SessionResults(meta, entries, event, athletes, sessions, law)[i];
      exists j :: 0 <= j < |entries|
        && r.athleteId == entries[j].athleteId && r.time == entries[j].time
        && r.points == CalculatePoints(entries[j].time, event.goldTime, event.kValue, law)
        && (PBTag in r.tags <==> EarnsPB(entries[j], event.id, athletes))
        && (PBTag in r.tags ==> SBTag in r.tags)
  {
    var sorted := SortBy(ScoreAll(entries, event, athletes, sessions, meta.date, law), TimeLe);
    ScoredRowAt(meta, entries, event, athletes, sessions, law, i);
    var j := SortedEntryAt(entries, event, athletes, sessions, meta.date, law, i);
    EntryTagsCorrect(entries[j], event.id, athletes, sessions, meta.date);
  }

  /** The scored rows never carry the "Penalty" or a misplaced "CR" tag. */
  lemma {:induction false} ScoredTags(meta: SessionMeta, entries: seq<Entry>, event: EventStandard,
      athletes: seq<Athlete>, sessions: seq<RaceSession>, law: PowerLaw, i: nat)
    requires i < |entries|
    ensures var rs := SessionResults(meta, entries, event, athletes, sessions, law);
      var sorted := SortBy(ScoreAll(entries, event, athletes, sessions, meta.date, law), TimeLe);
      && PenaltyTag !in rs[i].tags
      && (i > 0 ==> CRTag !in rs[i].tags)
      && (i == 0 ==> (CRTag in rs[0].tags <==> Below(sorted[0].time, CourseRecordTime(sessions, meta.routeId)) && meta.routeId != ""))
      && rs[i].time == sorted[i].time
  {
    var sorted := SortBy(ScoreAll(entries, event, athletes, sessions, meta.date, law), TimeLe);
    ScoredRowAt(meta, entries, event, athletes, sessions, law, i);
    var j := SortedEntryAt(entries, event, athletes, sessions, meta.date, law, i);
    EntryTagsCorrect(entries[j], event.id, athletes, sessions, meta.date);
  }

  /** At most one "CR": only on the first row, only with a route set, and exactly when the
      winner beats every earlier time above zero on that route. */
  lemma {:induction false} CourseRecordTag(meta: SessionMeta, entries: seq<Entry>, event: EventStandard,
      athletes: seq<Athlete>, sessions: seq<RaceSession>, law: PowerLaw)
    ensures var rs := SessionResults(meta, entries, event, athletes, sessions, law);
      && (forall i :: 0 <= i < |rs| && CRTag in rs[i].tags ==> i == 0)
      && (|entries| > 0 ==>
            (CRTag in rs[0].tags <==> meta.routeId != "" && FasterThanRoute(rs[0].time, sessions, meta.routeId)))
  {
    CourseRecordOnlyFirst(meta, entries, event, athletes, sessions, law);
    if |entries| > 0 {
      var rs := SessionResults(meta, entries, event, athletes, sessions, law);
      ScoredTags(meta, entries, event, athletes, sessions, law, 0);
      if meta.routeId != "" {
        BelowCourseRecord(rs[0].time, sessions, meta.routeId);
      }
    }
  }

  lemma {:induction false} CourseRecordOnlyFirst(meta: SessionMeta, entries: seq<Entry>, event: EventStandard,
      athletes: seq<Athlete>, sessions: seq<RaceSession>, law: PowerLaw)
    ensures var rs := SessionResults(meta, entries, event, athletes, sessions, law);
      forall i :: 0 <= i < |rs| && CRTag in rs[i].tags ==> i == 0
  {
    var rs := SessionResults(meta, entries, event, athletes, sessions, law);
    forall i | 0 <= i < |rs| && CRTag in rs[i].tags ensures i == 0 {
      CourseRecordAt(meta, entries, event, athletes, sessions, law, i);
    }
  }

  lemma {:induction false} CourseRecordAt(meta: SessionMeta, entries: seq<Entry>, event: EventStandard,
      athletes: seq<Athlete>, sessions: seq<RaceSession>, law: PowerLaw, i: nat)
    requires i < |SessionResults(meta, entries, event, athletes, sessions, law)|
    ensures CRTag in SessionResults(meta, entries, event, athletes, sessions, law)[i].tags ==> i == 0
  {
    if i < |entries| {
      ScoredTags(meta, entries, event, athletes, sessions, law, i);
    } else {
      PenaltyRowsTags(meta, entries, event, athletes, sessions, law, i);
    }
  }

  lemma {:induction false} PenaltyRowsTags(meta: SessionMeta, entries: seq<Entry>, event: EventStandard,
      athletes: seq<Athlete>, sessions: seq<RaceSession>, law: PowerLaw, i: nat)
    requires |entries| <= i < |SessionResults(meta, entries, event, athletes, sessions, law)|
    ensures SessionResults(meta, entries, event, athletes, sessions, law)[i].tags == [PenaltyTag]
  {
    SessionResultsSplit(meta, entries, event, athletes, sessions, law);
  }

  /** A mandatory session gets one penalty row per missing active athlete, with time 0,
      the "Penalty" tag, the missed-race note and ranks continuing after the scored rows;
      any other session gets none. */
  lemma {:induction false} PenaltyRowsCorrect(meta: SessionMeta, entries: seq<Entry>, event: EventStandard,
      athletes: seq<Athlete>, sessions: seq<RaceSession>, law: PowerLaw)
    ensures var rs := SessionResults(meta, entries, event, athletes, sessions, law);
      var missing := Missing(athletes, entries);
      && |rs| == |entries| + (if meta.isMandatory then |missing| else 0)
      && (forall i :: 0 <= i < |entries| ==> PenaltyTag !in rs[i].tags)
      && (meta.isMandatory ==> forall k :: 0 <= k < |missing| ==>
            rs[|entries| + k] == RaceResult(missing[k].id, 0,
              Penalty(LastPlacePoints(rs[..|entries|]), missing[k].id, meta.date, sessions),
              |entries| + k + 1, [PenaltyTag], "Missed Mandatory Race"))
  {
    SessionResultsSplit(meta, entries, event, athletes, sessions, law);
    forall i | 0 <= i < |entries|
      ensures PenaltyTag !in SessionResults(meta, entries, event, athletes, sessions, law)[i].tags
    {
      ScoredTags(meta, entries, event, athletes, sessions, law, i);
    }
  }

  // ---------------------------------------------------------------------------
  // Personal bests

  /** `{ eventId, time, date: meta.date, venue: meta.venue || meta.name }` */
  function NewPB(eventId: string, t: Time, meta: SessionMeta): PB {
    PB(eventId, t, meta.date, if meta.venue != "" then meta.venue else meta.name)
  }

  /** Folds one finished time into a PB table: the first PB of the event is replaced when
      beaten, and a new one is appended when there is none. */
  function MergePB(pbs: seq<PB>, p: PB): (r: seq<PB>)
    ensures |r| >= |pbs|
  {
    if |pbs| == 0 then [p]
    else if pbs[0].eventId == p.eventId then (if p.time < pbs[0].time then [p] + pbs[1..] else pbs)
    else [pbs[0]] + MergePB(pbs[1..], p)
  }

  lemma {:induction false} MergePBCorrect(pbs: seq<PB>, p: PB, e: string)
    ensures e == p.eventId ==>
      FindPB(MergePB(pbs, p), e) == (if IsPB(FindPB(pbs, e), p.time) then Some(p) else FindPB(pbs, e))
    ensures e != p.eventId ==> FindPB(MergePB(pbs, p), e) == FindPB(pbs, e)
    ensures !IsPB(FindPB(pbs, p.eventId), p.time) ==> MergePB(pbs, p) == pbs
  {
    MergePBFind(pbs, p, e);
    MergePBUnchanged(pbs, p);
  }

  lemma {:induction false} MergePBFind(pbs: seq<PB>, p: PB, e: string)
    ensures FindPB(MergePB(pbs, p), e) ==
      if e != p.eventId then FindPB(pbs, e)
      else if IsPB(FindPB(pbs, e), p.time) then Some(p) else FindPB(pbs, e)
  {
    if |pbs| > 0 && pbs[0].eventId != p.eventId {
      MergePBFind(pbs[1..], p, e);
      assert MergePB(pbs, p) == [pbs[0]] + MergePB(pbs[1..], p);
      assert MergePB(pbs, p)[1..] == MergePB(pbs[1..], p);
    } else if |pbs| > 0 && p.time < pbs[0].time {
      assert ([p] + pbs[1..])[1..] == pbs[1..];
    }
  }

  lemma {:induction false} MergePBUnchanged(pbs: seq<PB>, p: PB)
    ensures !IsPB(FindPB(pbs, p.eventId), p.time) ==> MergePB(pbs, p) == pbs
  {
    if |pbs| > 0 && pbs[0].eventId != p.eventId {
      MergePBUnchanged(pbs[1..], p);
      if !IsPB(FindPB(pbs, p.eventId), p.time) {
        assert FindPB(pbs, p.eventId) == FindPB(pbs[1..], p.eventId);
        assert [pbs[0]] + pbs[1..] == pbs;
      }
    }
  }

  /** `updatedAthletes.map(...)` for one result row. */
  function ApplyResult(athletes: seq<Athlete>, r: RaceResult, eventId: string, meta: SessionMeta): (u: seq<Athlete>)
    ensures |u| == |athletes|
    ensures forall i :: 0 <= i < |athletes| ==>
      u[i] == (if athletes[i].id == r.athleteId
               then athletes[i].(personalBests := MergePB(athletes[i].personalBests, NewPB(eventId, r.time, meta)))
               else athletes[i])
  {
    if |athletes| == 0 then []
    else
      var a := athletes[0];
      [if a.id == r.athleteId then a.(personalBests := MergePB(a.personalBests, NewPB(eventId, r.time, meta))) else a]
        + ApplyResult(athletes[1..], r, eventId, meta)
  }

  /** `updatedAthletes` after the loop over the first `|results|` rows. */
  function FoldPBs(athletes: seq<Athlete>, results: seq<RaceResult>, eventId: string, meta: SessionMeta): (u: seq<Athlete>)
    ensures |u| == |athletes|
  {
    if |results| == 0 then athletes
    else
      var prev := FoldPBs(athletes, results[..|results| - 1], eventId, meta);
      var r := results[|results| - 1];
      if r.time > 0 then ApplyResult(prev, r, eventId, meta) else prev
  }

  /** The PB of the event after folding the athlete's rows into `pb`. */
  function PBAfter(pb: Option<PB>, results: seq<RaceResult>, athleteId: string, eventId: string, meta: SessionMeta): Option<PB> {
    if |results| == 0 then pb
    else
      var prev := PBAfter(pb, results[..|results| - 1], athleteId, eventId, meta);
      var r := results[|results| - 1];
      if r.time > 0 && r.athleteId == athleteId && IsPB(prev, r.time) then Some(NewPB(eventId, r.time, meta)) else prev
  }

  lemma {:induction false} AthleteTimesSnoc(results: seq<RaceResult>, r: RaceResult, athleteId: string)
    ensures AthleteTimes(results + [r], athleteId) ==
      AthleteTimes(results, athleteId) + (if r.athleteId == athleteId && r.time > 0 then [r.time] else [])
  {
    if |results| > 0 {
      assert (results + [r])[1..] == results[1..] + [r];
      AthleteTimesSnoc(results[1..], r, athleteId);
    }
  }

  /** `after` is what the event's PB should be once `times` are folded into `pb`: the
      faster of the old PB and the fastest time, stamped anew when a time improved it,
      and the old PB itself when no time beat it (a tie keeps the old one). */
  predicate IsMinimumPB(pb: Option<PB>, times: seq<Time>, after: Option<PB>, eventId: string, meta: SessionMeta) {
    && (|times| == 0 ==> after == pb)
    && (|times| > 0 ==>
          && after.Some?
          && (pb.Some? ==> after.value.time <= pb.value.time)
          && (forall k :: 0 <= k < |times| ==> after.value.time <= times[k])
          && (after == pb || after == Some(NewPB(eventId, MinOf(times).value, meta)))
          && (pb.Some? && pb.value.time <= MinOf(times).value ==> after == pb))
  }

  lemma {:induction false} PBStepMinimum(pb: Option<PB>, before: seq<Time>, prev: Option<PB>, t: Time, eventId: string, meta: SessionMeta)
    requires IsMinimumPB(pb, before, prev, eventId, meta)
    ensures IsMinimumPB(pb, before + [t], if IsPB(prev, t) then Some(NewPB(eventId, t, meta)) else prev, eventId, meta)
  {
    MinOfConcat(before, [t]);
    assert forall k :: 0 <= k < |before| ==> (before + [t])[k] == before[k];
  }

  /** The athlete's PB after the session is the faster of the old PB and their fastest
      finished time, stamped with this session when the session improved it. */
  lemma {:induction false} PBAfterIsMinimum(pb: Option<PB>, results: seq<RaceResult>, athleteId: string, eventId: string, meta: SessionMeta)
    ensures IsMinimumPB(pb, AthleteTimes(results, athleteId), PBAfter(pb, results, athleteId, eventId, meta), eventId, meta)
  {
    if |results| > 0 {
      var n := |results| - 1;
      var r := results[n];
      var before := AthleteTimes(results[..n], athleteId);
      var prev := PBAfter(pb, results[..n], athleteId, eventId, meta);
      PBAfterIsMinimum(pb, results[..n], athleteId, eventId, meta);
      assert results == results[..n] + [r];
      AthleteTimesSnoc(results[..n], r, athleteId);
      if r.athleteId == athleteId && r.time > 0 {
        assert AthleteTimes(results, athleteId) == before + [r.time];
        assert PBAfter(pb, results, athleteId, eventId, meta) ==
          if IsPB(prev, r.time) then Some(NewPB(eventId, r.time, meta)) else prev;
        PBStepMinimum(pb, before, prev, r.time, eventId, meta);
      } else {
        assert AthleteTimes(results, athleteId) == before;
        assert PBAfter(pb, results, athleteId, eventId, meta) == prev;
      }
    }
  }

  /** Recording changes only the PB table of the event for athletes who finished: other
      fields, other events and non-finishers keep what they had, and the event's PB is
      the one `PBAfter` describes. */
  lemma {:induction false} FoldPBsAthlete(athletes: seq<Athlete>, results: seq<RaceResult>, eventId: string, meta: SessionMeta, i: nat)
    requires i < |athletes|
    ensures var a, u := athletes[i], FoldPBs(athletes, results, eventId, meta)[i];
      && u.(personalBests := a.personalBests) == a
      && (forall e :: e != eventId ==> FindPB(u.personalBests, e) == FindPB(a.personalBests, e))
      && FindPB(u.personalBests, eventId) == PBAfter(FindPB(a.personalBests, eventId), results, a.id, eventId, meta)
      && (|AthleteTimes(results, a.id)| == 0 ==> u == a)
  {
    FoldPBsAthletePBs(athletes, results, eventId, meta, i);
    FoldPBsUntouched(athletes, results, eventId, meta, i);
  }

  lemma {:induction false} FoldPBsAthletePBs(athletes: seq<Athlete>, results: seq<RaceResult>, eventId: string, meta: SessionMeta, i: nat)
    requires i < |athletes|
    ensures var a, u := athletes[i], FoldPBs(athletes, results, eventId, meta)[i];
      && u.(personalBests := a.personalBests) == a
      && (forall e :: e != eventId ==> FindPB(u.personalBests, e) == FindPB(a.personalBests, e))
      && FindPB(u.personalBests, eventId) == PBAfter(FindPB(a.personalBests, eventId), results, a.id, eventId, meta)
  {
    if |results| > 0 {
      var n := |results| - 1;
      var r := results[n];
      FoldPBsAthletePBs(athletes, results[..n], eventId, meta, i);
      var prev := FoldPBs(athletes, results[..n], eventId, meta);
      var u := FoldPBs(athletes, results, eventId, meta);
      var a := athletes[i];
      var pb := FindPB(a.personalBests, eventId);
      assert PBAfter(pb, results, a.id, eventId, meta) ==
        var before := PBAfter(pb, results[..n], a.id, eventId, meta);
        if r.time > 0 && r.athleteId == a.id && IsPB(before, r.time) then Some(NewPB(eventId, r.time, meta)) else before;
      if r.time > 0 && prev[i].id == r.athleteId {
        var p := NewPB(eventId, r.time, meta);
        assert u[i] == prev[i].(personalBests := MergePB(prev[i].personalBests, p));
        forall e | true
          ensures FindPB(u[i].personalBests, e) ==
            if e != eventId then FindPB(prev[i].personalBests, e)
            else if IsPB(FindPB(prev[i].personalBests, e), p.time) then Some(p) else FindPB(prev[i].personalBests, e)
        {
          MergePBFind(prev[i].personalBests, p, e);
        }
      } else {
        assert u[i] == prev[i];
      }
    }
  }

  lemma {:induction false} FoldPBsUntouched(athletes: seq<Athlete>, results: seq<RaceResult>, eventId: string, meta: SessionMeta, i: nat)
    requires i < |athletes|
    ensures |AthleteTimes(results, athletes[i].id)| == 0 ==> FoldPBs(athletes, results, eventId, meta)[i] == athletes[i]
  {
    if |results| > 0 && |AthleteTimes(results, athletes[i].id)| == 0 {
      var n := |results| - 1;
      var r := results[n];
      assert results == results[..n] + [r];
      AthleteTimesSnoc(results[..n], r, athletes[i].id);
      FoldPBsUntouched(athletes, results[..n], eventId, meta, i);
      var prev := FoldPBs(athletes, results[..n], eventId, meta);
      assert prev[i] == athletes[i];
      assert !(r.time > 0 && prev[i].id == r.athleteId);
    }
  }
}

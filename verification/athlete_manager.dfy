/** The athlete roster (components/AthleteManager.tsx): the current rank of an
    athlete, the searched and ordered roster, the peak average of a retired athlete
    and the personal-best drafts of the add-athlete form. */
module AthleteManager {
  import opened Wrappers
  import opened Text
  import opened Seqs
  import opened Types
  import opened Utils
  import opened Standings
  import opened Leaderboard

  // ---------------------------------------------------------------------------
  // Current rank

  /** `{ id, avgPts }` of one active athlete. */
  datatype Stat = Stat(id: string, avgPts: int)

  function StatOf(a: Athlete, sessions: seq<RaceSession>): Stat {
    Stat(a.id, AverageOf(sessions, a.id))
  }

  function StatsOf(athletes: seq<Athlete>, sessions: seq<RaceSession>): (r: seq<Stat>)
    ensures |r| == |athletes|
    ensures forall i :: 0 <= i < |athletes| ==> r[i] == StatOf(athletes[i], sessions)
  {
    if |athletes| == 0 then [] else [StatOf(athletes[0], sessions)] + StatsOf(athletes[1..], sessions)
  }

  /** The comparator `b.avgPts - a.avgPts`. */
  predicate StatLe(a: Stat, b: Stat) {
    b.avgPts <= a.avgPts
  }

  /** The active athletes' stats, best average first (ties in roster order). */
  function RankedStats(athletes: seq<Athlete>, sessions: seq<RaceSession>): (r: seq<Stat>)
    ensures |r| == |ActiveAthletes(athletes)|
  {
    SortBy(StatsOf(ActiveAthletes(athletes), sessions), StatLe)
  }

  /** `stats.findIndex(s => s.id === id)`: the first index holding `id`, or -1. */
  function IndexOfId(stats: seq<Stat>, id: string): (r: int)
    ensures -1 <= r < |stats|
    ensures r >= 0 ==> stats[r].id == id && forall k :: 0 <= k < r ==> stats[k].id != id
    ensures r == -1 <==> forall k :: 0 <= k < |stats| ==> stats[k].id != id
  {
    if |stats| == 0 then -1
    else if stats[0].id == id then 0
    else
      var k := IndexOfId(stats[1..], id);
      if k == -1 then -1 else k + 1
  }

  /** `calculateRank`: 0 for an unknown or retired athlete, otherwise the 1-based
      position of the athlete among the active athletes by average over `sessionList`. */
  function CalculateRank(athletes: seq<Athlete>, athleteId: string, sessionList: seq<RaceSession>): (r: int)
    ensures 0 <= r <= |ActiveAthletes(athletes)|
  {
    var subject := FindAthlete(athletes, athleteId);
    if subject.None? || !subject.value.isActive then 0
    else IndexOfId(RankedStats(athletes, sessionList), athleteId) + 1
  }

  /** An active athlete's stat is among the ranked stats. */
  lemma {:induction false} InRankedStats(athletes: seq<Athlete>, sessions: seq<RaceSession>, a: Athlete)
    requires a in athletes && a.isActive
    ensures StatOf(a, sessions) in RankedStats(athletes, sessions)
  {
    var active := ActiveAthletes(athletes);
    assert a in active;
    var k :| 0 <= k < |active| && active[k] == a;
    assert StatsOf(active, sessions)[k] == StatOf(a, sessions);
    InSortBy(StatsOf(active, sessions), StatLe, StatOf(a, sessions));
  }

  /** The rank is 0 exactly for unknown and retired athletes. */
  lemma {:induction false} CalculateRankZero(athletes: seq<Athlete>, athleteId: string, sessionList: seq<RaceSession>)
    ensures var subject := FindAthlete(athletes, athleteId);
      CalculateRank(athletes, athleteId, sessionList) == 0 <==> subject.None? || !subject.value.isActive
  {
    var subject := FindAthlete(athletes, athleteId);
    if subject.Some? && subject.value.isActive {
      InRankedStats(athletes, sessionList, subject.value);
    }
  }

  /** The projection of a leaderboard row onto the rank computation's stat. */
  function RowStat(row: Row): Stat {
    Stat(row.athlete.id, row.averagePoints)
  }

  /** The roster's rank of an active athlete is the position of the first row of the
      leaderboard table (components/Leaderboard.tsx) holding that athlete's id: the
      two pages sort the same averages with the same stable comparator. */
  lemma {:induction false} RankMatchesLeaderboard(athletes: seq<Athlete>, athleteId: string, sessions: seq<RaceSession>)
    requires FindAthlete(athletes, athleteId).Some? && FindAthlete(athletes, athleteId).value.isActive
    ensures var data := LeaderboardData(athletes, sessions);
      var r := CalculateRank(athletes, athleteId, sessions);
      && 1 <= r <= |data|
      && data[r - 1].athlete.id == athleteId
      && forall k :: 0 <= k < r - 1 ==> data[k].athlete.id != athleteId
  {
    var data := LeaderboardData(athletes, sessions);
    LeaderboardStats(athletes, sessions);
    CalculateRankZero(athletes, athleteId, sessions);
    var stats := RankedStats(athletes, sessions);
    var k := IndexOfId(stats, athleteId);
    assert stats[k] == RowStat(data[k]);
    forall m | 0 <= m < k ensures data[m].athlete.id != athleteId {
      assert stats[m] == RowStat(data[m]);
    }
  }

  /** The ranked stats are the leaderboard rows, projected. */
  lemma {:induction false} LeaderboardStats(athletes: seq<Athlete>, sessions: seq<RaceSession>)
    ensures RankedStats(athletes, sessions) == Map(LeaderboardData(athletes, sessions), RowStat)
  {
    var active := ActiveAthletes(athletes);
    var rows := RowsOf(active, sessions);
    forall i | 0 <= i < |active| ensures Map(rows, RowStat)[i] == StatsOf(active, sessions)[i] {
      assert rows[i] == RowOf(active[i], sessions);
    }
    assert Map(rows, RowStat) == StatsOf(active, sessions);
    SortByMap(rows, RowStat, RowLe, StatLe);
  }

  // ---------------------------------------------------------------------------
  // Peak average of a retired athlete

  /** The comparator `new Date(a.date) - new Date(b.date)`: oldest first. */
  predicate DateAscLe(a: RaceSession, b: RaceSession) {
    StrLe(a.date, b.date)
  }

  lemma {:induction false} DateAscLeOrder()
    ensures TotalPreorder(DateAscLe)
  {
    StrLeOrder();
  }

  function Chronological(sessions: seq<RaceSession>): (r: seq<RaceSession>)
    ensures |r| == |sessions|
  {
    SortBy(sessions, DateAscLe)
  }

  /** The points of the athlete's first row in each session that has one, in order. */
  function FirstPoints(sessions: seq<RaceSession>, athleteId: string): (p: seq<int>)
    ensures |p| <= |sessions|
  {
    if |sessions| == 0 then []
    else
      var n := |sessions| - 1;
      FirstPoints(sessions[..n], athleteId) + SessionPoints(sessions[n], athleteId)
  }

  /** The points of the athlete's first row in `session`, if it has one. */
  function SessionPoints(session: RaceSession, athleteId: string): (p: seq<int>)
    ensures |p| <= 1
    ensures |p| == 1 <==> FindResult(session.results, athleteId).Some?
  {
    match FindResult(session.results, athleteId)
    case Some(r) => [r.points]
    case None => []
  }

  function SumInts(p: seq<int>): int {
    if |p| == 0 then 0 else SumInts(p[..|p| - 1]) + p[|p| - 1]
  }

  /** The highest rounded running average of `p`, and 0 when none is higher. */
  function PeakOf(p: seq<int>): int {
    if |p| == 0 then 0
    else
      var before := PeakOf(p[..|p| - 1]);
      var current := RoundedAverage(SumInts(p), |p|);
      if current > before then current else before
  }

  /** The peak is at least every running average, never negative, and either 0 or
      one of the running averages. */
  lemma {:induction false} PeakOfCorrect(p: seq<int>)
    ensures PeakOf(p) >= 0
    ensures forall j :: 1 <= j <= |p| ==> RoundedAverage(SumInts(p[..j]), j) <= PeakOf(p)
    ensures PeakOf(p) == 0 || exists j :: 1 <= j <= |p| && PeakOf(p) == RoundedAverage(SumInts(p[..j]), j)
  {
    if |p| > 0 {
      var n := |p| - 1;
      PeakOfCorrect(p[..n]);
      forall j | 1 <= j <= n ensures p[..n][..j] == p[..j] { }
      assert p[..|p|] == p;
      if PeakOf(p) != 0 && PeakOf(p) == PeakOf(p[..n]) {
        var j :| 1 <= j <= n && PeakOf(p[..n]) == RoundedAverage(SumInts(p[..n][..j]), j);
        assert PeakOf(p) == RoundedAverage(SumInts(p[..j]), j);
      }
    }
  }

  lemma {:induction false} FirstPointsNext(s: seq<RaceSession>, i: nat, athleteId: string)
    requires i < |s|
    ensures FirstPoints(s[..i + 1], athleteId) == FirstPoints(s[..i], athleteId) + SessionPoints(s[i], athleteId)
  {
    assert s[..i + 1][..i] == s[..i];
  }

  /** One more result: the sum grows by it and the peak takes the new running average. */
  lemma {:induction false} PeakStep(p: seq<int>, x: int)
    ensures SumInts(p + [x]) == SumInts(p) + x
    ensures var current := RoundedAverage(SumInts(p) + x, |p| + 1);
      PeakOf(p + [x]) == if current > PeakOf(p) then current else PeakOf(p)
  {
    assert (p + [x])[..|p|] == p;
  }

  /** One session of that replay: a session where the athlete has a row adds its points
      to the running total and lifts the peak to the new running average if higher. */
  method PeakSessionStep(session: RaceSession, athleteId: string, ghost pts: seq<int>,
                         totalPoints: int, count: nat, highestAvg: int)
    returns (ghost pts': seq<int>, totalPoints': int, count': nat, highestAvg': int)
    requires totalPoints == SumInts(pts) && count == |pts| && highestAvg == PeakOf(pts)
    ensures pts' == pts + SessionPoints(session, athleteId)
    ensures totalPoints' == SumInts(pts') && count' == |pts'| && highestAvg' == PeakOf(pts')
  {
    pts', totalPoints', count', highestAvg' := pts, totalPoints, count, highestAvg;
    var res := FindResult(session.results, athleteId);
    if res.Some? {
      PeakStep(pts, res.value.points);
      pts' := pts + [res.value.points];
      totalPoints' := totalPoints + res.value.points;
      count' := count + 1;
      var currentAvg := RoundedAverage(totalPoints', count');
      if currentAvg > highestAvg {
        highestAvg' := currentAvg;
      }
    }
  }

  /** The replay of one retired athlete's history in `filteredAndSortedAthletes`. */
  method PeakAverage(sessions: seq<RaceSession>, athleteId: string) returns (highestAvg: int)
    ensures highestAvg == PeakOf(FirstPoints(Chronological(sessions), athleteId))
  {
    var chron := Chronological(sessions);
    highestAvg := 0;
    var totalPoints := 0;
    var count := 0;
    ghost var pts: seq<int> := [];
    for i := 0 to |chron|
      invariant pts == FirstPoints(chron[..i], athleteId)
      invariant totalPoints == SumInts(pts) && count == |pts| && highestAvg == PeakOf(pts)
    {
      FirstPointsNext(chron, i, athleteId);
      pts, totalPoints, count, highestAvg := PeakSessionStep(chron[i], athleteId, pts, totalPoints, count, highestAvg);
    }
    assert chron[..|chron|] == chron;
  }

  // ---------------------------------------------------------------------------
  // The roster: search, then actives by rank and retirees by peak average

  /** `currentRankMap.get(id)`: the map is filled in order, so the last index holding
      `id` wins; the stored rank is that index + 1. */
  function RankLookup(stats: seq<Stat>, id: string): (r: Option<int>)
    ensures r.Some? ==> 1 <= r.value <= |stats| && stats[r.value - 1].id == id
    ensures r.Some? ==> forall k :: r.value <= k < |stats| ==> stats[k].id != id
    ensures r.None? <==> forall k :: 0 <= k < |stats| ==> stats[k].id != id
  {
    if |stats| == 0 then None
    else if stats[|stats| - 1].id == id then Some(|stats|)
    else RankLookup(stats[..|stats| - 1], id)
  }

  /** The rank used for sorting; 999999 pushes an unranked athlete to the bottom. */
  function RosterRank(stats: seq<Stat>, id: string): int {
    match RankLookup(stats, id)
    case Some(r) => r
    case None => 999999
  }

  /** The search matches name, faculty or batch, case-insensitively. */
  predicate Matches(a: Athlete, q: string) {
    || Contains(Lower(a.name), q)
    || (a.faculty != "" && Contains(Lower(a.faculty), q))
    || (a.batch != "" && Contains(Lower(a.batch), q))
  }

  function MatchesOf(athletes: seq<Athlete>, q: string): (r: seq<Athlete>)
    ensures forall a :: a in r <==> a in athletes && Matches(a, q)
  {
    if |athletes| == 0 then []
    else (if Matches(athletes[0], q) then [athletes[0]] else []) + MatchesOf(athletes[1..], q)
  }

  /** A blank query keeps everyone; otherwise the lower-cased, untrimmed query filters. */
  function SearchResults(athletes: seq<Athlete>, query: string): (r: seq<Athlete>)
    ensures forall a :: a in r <==> a in athletes && (IsBlank(query) || Matches(a, Lower(query)))
  {
    if IsBlank(query) then athletes else MatchesOf(athletes, Lower(query))
  }

  /** An athlete decorated with the two sort keys. */
  datatype RosterKey = RosterKey(athlete: Athlete, rank: int, peak: int)

  function KeyOf(a: Athlete, stats: seq<Stat>, sessions: seq<RaceSession>): RosterKey {
    RosterKey(a, RosterRank(stats, a.id), if a.isActive then 0 else PeakOf(FirstPoints(Chronological(sessions), a.id)))
  }

  function KeysOf(athletes: seq<Athlete>, stats: seq<Stat>, sessions: seq<RaceSession>): (r: seq<RosterKey>)
    ensures |r| == |athletes|
    ensures forall i :: 0 <= i < |athletes| ==> r[i] == KeyOf(athletes[i], stats, sessions)
  {
    if |athletes| == 0 then [] else [KeyOf(athletes[0], stats, sessions)] + KeysOf(athletes[1..], stats, sessions)
  }

  function KeyAthlete(k: RosterKey): Athlete {
    k.athlete
  }

  /** The roster comparator: actives first; actives by rank, then name; retirees by
      peak average, highest first, then name. */
  predicate RosterLe(a: RosterKey, b: RosterKey) {
    if a.athlete.isActive != b.athlete.isActive then a.athlete.isActive
    else if a.athlete.isActive then
      a.rank < b.rank || (a.rank == b.rank && StrLe(a.athlete.name, b.athlete.name))
    else
      a.peak > b.peak || (a.peak == b.peak && StrLe(a.athlete.name, b.athlete.name))
  }

  lemma {:induction false} RosterLeOrder()
    ensures TotalPreorder(RosterLe)
  {
    StrLeOrder();
  }

  /** `filteredAndSortedAthletes`. */
  function Roster(athletes: seq<Athlete>, sessions: seq<RaceSession>, query: string): seq<Athlete> {
    var keys := KeysOf(SearchResults(athletes, query), RankedStats(athletes, sessions), sessions);
    Map(SortBy(keys, RosterLe), KeyAthlete)
  }

  method FilteredAndSortedAthletes(athletes: seq<Athlete>, sessions: seq<RaceSession>, query: string)
    returns (result: seq<Athlete>)
    ensures result == Roster(athletes, sessions, query)
  {
    var stats := RankedStats(athletes, sessions);
    var filtered := SearchResults(athletes, query);
    var keys := KeysFor(filtered, stats, sessions);
    result := Map(SortBy(keys, RosterLe), KeyAthlete);
  }

  method KeysFor(athletes: seq<Athlete>, stats: seq<Stat>, sessions: seq<RaceSession>) returns (keys: seq<RosterKey>)
    ensures keys == KeysOf(athletes, stats, sessions)
  {
    keys := [];
    for i := 0 to |athletes|
      invariant |keys| == i
      invariant forall k :: 0 <= k < i ==> keys[k] == KeyOf(athletes[k], stats, sessions)
    {
      var key := KeyFor(athletes[i], stats, sessions);
      keys := keys + [key];
    }
  }

  /** The sort keys of one athlete; only a retiree's history is replayed. */
  method KeyFor(a: Athlete, stats: seq<Stat>, sessions: seq<RaceSession>) returns (key: RosterKey)
    ensures key == KeyOf(a, stats, sessions)
  {
    var peak := 0;
    if !a.isActive {
      peak := PeakAverage(sessions, a.id);
    }
    key := RosterKey(a, RosterRank(stats, a.id), peak);
  }

  /** The roster holds exactly the matching athletes, as often as the input does;
      actives come before retirees; actives are ordered by rank, then name, and
      retirees by peak average, highest first, then name. */
  lemma {:induction false} RosterCorrect(athletes: seq<Athlete>, sessions: seq<RaceSession>, query: string)
    ensures var r := Roster(athletes, sessions, query);
      && multiset(r) == multiset(SearchResults(athletes, query))
      && (forall a :: a in r <==> a in athletes && (IsBlank(query) || Matches(a, Lower(query))))
      && (forall i, j :: 0 <= i < j < |r| ==> r[i].isActive || !r[j].isActive)
  {
    var filtered := SearchResults(athletes, query);
    var r := Roster(athletes, sessions, query);
    RosterPermutes(athletes, sessions, query);
    forall a ensures a in r <==> a in filtered {
      assert a in r <==> a in multiset(r);
      assert a in filtered <==> a in multiset(filtered);
    }
    RosterActivesFirst(athletes, sessions, query);
  }

  lemma {:induction false} RosterPermutes(athletes: seq<Athlete>, sessions: seq<RaceSession>, query: string)
    ensures multiset(Roster(athletes, sessions, query)) == multiset(SearchResults(athletes, query))
  {
    var keys := KeysOf(SearchResults(athletes, query), RankedStats(athletes, sessions), sessions);
    assert Map(keys, KeyAthlete) == SearchResults(athletes, query);
    SortByProjectPermutes(keys, RosterLe, KeyAthlete);
  }

  lemma {:induction false} RosterActivesFirst(athletes: seq<Athlete>, sessions: seq<RaceSession>, query: string)
    ensures var r := Roster(athletes, sessions, query);
      forall i, j :: 0 <= i < j < |r| ==> r[i].isActive || !r[j].isActive
  {
    var keys := KeysOf(SearchResults(athletes, query), RankedStats(athletes, sessions), sessions);
    var sorted := SortBy(keys, RosterLe);
    var r := Roster(athletes, sessions, query);
    assert r == Map(sorted, KeyAthlete);
    RosterLeOrder();
    SortBySorted(keys, RosterLe);
    forall i, j | 0 <= i < j < |r|
      ensures r[i].isActive || !r[j].isActive
    {
      assert RosterLe(sorted[i], sorted[j]);
      assert r[i] == sorted[i].athlete && r[j] == sorted[j].athlete;
    }
  }

  /** Actives are ordered by rank, then name. */
  lemma {:induction false} RosterActiveOrder(athletes: seq<Athlete>, sessions: seq<RaceSession>, query: string, i: int, j: int)
    requires 0 <= i < j < |Roster(athletes, sessions, query)|
    requires Roster(athletes, sessions, query)[i].isActive && Roster(athletes, sessions, query)[j].isActive
    ensures var r := Roster(athletes, sessions, query);
      var stats := RankedStats(athletes, sessions);
      || RosterRank(stats, r[i].id) < RosterRank(stats, r[j].id)
      || (RosterRank(stats, r[i].id) == RosterRank(stats, r[j].id) && StrLe(r[i].name, r[j].name))
  {
    var stats := RankedStats(athletes, sessions);
    var keys := KeysOf(SearchResults(athletes, query), stats, sessions);
    var sorted := SortBy(keys, RosterLe);
    SortedKeys(keys, stats, sessions, i, j);
  }

  /** Retirees are ordered by peak average, highest first, then name. */
  lemma {:induction false} RosterRetiredOrder(athletes: seq<Athlete>, sessions: seq<RaceSession>, query: string, i: int, j: int)
    requires 0 <= i < j < |Roster(athletes, sessions, query)|
    requires !Roster(athletes, sessions, query)[i].isActive && !Roster(athletes, sessions, query)[j].isActive
    ensures var r := Roster(athletes, sessions, query);
      var pi := PeakOf(FirstPoints(Chronological(sessions), r[i].id));
      var pj := PeakOf(FirstPoints(Chronological(sessions), r[j].id));
      pi > pj || (pi == pj && StrLe(r[i].name, r[j].name))
  {
    var stats := RankedStats(athletes, sessions);
    var keys := KeysOf(SearchResults(athletes, query), stats, sessions);
    SortedKeys(keys, stats, sessions, i, j);
  }

  /** Two positions of the sorted keys are in comparator order and carry their own keys. */
  lemma {:induction false} SortedKeys(keys: seq<RosterKey>, stats: seq<Stat>, sessions: seq<RaceSession>, i: int, j: int)
    requires forall k :: k in keys ==> k == KeyOf(k.athlete, stats, sessions)
    requires 0 <= i < j < |keys|
    ensures var sorted := SortBy(keys, RosterLe);
      && RosterLe(sorted[i], sorted[j])
      && sorted[i] == KeyOf(sorted[i].athlete, stats, sessions)
      && sorted[j] == KeyOf(sorted[j].athlete, stats, sessions)
  {
    var sorted := SortBy(keys, RosterLe);
    RosterLeOrder();
    SortBySorted(keys, RosterLe);
    SortByPermutes(keys, RosterLe);
    assert sorted[i] in multiset(keys);
    assert sorted[j] in multiset(keys);
  }

  /** Every active athlete has a rank, so the 999999 fallback never applies to one. */
  lemma {:induction false} ActiveAthletesRanked(athletes: seq<Athlete>, sessions: seq<RaceSession>, a: Athlete)
    requires a in athletes && a.isActive
    ensures 1 <= RosterRank(RankedStats(athletes, sessions), a.id) <= |ActiveAthletes(athletes)|
  {
    InRankedStats(athletes, sessions, a);
  }

  // ---------------------------------------------------------------------------
  // Personal-best drafts of the add-athlete form

  /** The form's draft list and its four inputs. */
  datatype PBDraft = PBDraft(pbs: seq<PB>, eventId: string, timeInput: string, dateInput: string, venueInput: string)

  /** `pbs.filter(pb => pb.eventId !== eventId)` */
  function WithoutEvent(pbs: seq<PB>, eventId: string): (r: seq<PB>)
    ensures forall p :: p in r <==> p in pbs && p.eventId != eventId
    ensures |r| <= |pbs|
  {
    if |pbs| == 0 then []
    else (if pbs[0].eventId != eventId then [pbs[0]] else []) + WithoutEvent(pbs[1..], eventId)
  }

  /** The drafts kept stay in order, each as often as before. */
  lemma {:induction false} WithoutEventKeeps(pbs: seq<PB>, eventId: string)
    ensures Subsequence(WithoutEvent(pbs, eventId), pbs)
    ensures forall p :: multiset(WithoutEvent(pbs, eventId))[p] == if p.eventId != eventId then multiset(pbs)[p] else 0
  {
    WithoutEventOrder(pbs, eventId);
    WithoutEventCount(pbs, eventId);
  }

  lemma {:induction false} WithoutEventOrder(pbs: seq<PB>, eventId: string)
    ensures Subsequence(WithoutEvent(pbs, eventId), pbs)
  {
    if |pbs| > 0 {
      WithoutEventOrder(pbs[1..], eventId);
      assert pbs == [pbs[0]] + pbs[1..];
      SubsequenceCons(pbs[0], WithoutEvent(pbs[1..], eventId), pbs[1..], pbs[0].eventId != eventId);
    }
  }

  lemma {:induction false} WithoutEventCount(pbs: seq<PB>, eventId: string)
    ensures forall p :: multiset(WithoutEvent(pbs, eventId))[p] == if p.eventId != eventId then multiset(pbs)[p] else 0
  {
    if |pbs| > 0 {
      WithoutEventCount(pbs[1..], eventId);
      assert pbs == [pbs[0]] + pbs[1..];
    }
  }

  /** `handleAddPB`: with an event chosen and a non-zero parsable time, replace the
      event's draft by the new one and clear the inputs; otherwise change nothing. */
  function HandleAddPB(d: PBDraft): PBDraft {
    var time := ParseTime(d.timeInput);
    if d.eventId != "" && time.Some? && time.value != 0 then
      PBDraft(WithoutEvent(d.pbs, d.eventId) + [PB(d.eventId, time.value, d.dateInput, d.venueInput)], "", "", "", "")
    else d
  }

  /** `handleRemovePB` */
  function HandleRemovePB(pbs: seq<PB>, eventId: string): (r: seq<PB>)
    ensures FindPB(r, eventId).None?
    ensures forall p: PB :: p.eventId != eventId ==> (p in r <==> p in pbs)
  {
    WithoutEvent(pbs, eventId)
  }

  /** No two drafts for the same event. */
  predicate OnePerEvent(pbs: seq<PB>) {
    forall i, j :: 0 <= i < j < |pbs| ==> pbs[i].eventId != pbs[j].eventId
  }

  lemma {:induction false} WithoutEventOnePerEvent(pbs: seq<PB>, eventId: string)
    requires OnePerEvent(pbs)
    ensures OnePerEvent(WithoutEvent(pbs, eventId))
  {
    if |pbs| > 0 {
      WithoutEventOnePerEvent(pbs[1..], eventId);
      var rest := WithoutEvent(pbs[1..], eventId);
      forall k | 0 <= k < |rest| ensures rest[k].eventId != pbs[0].eventId {
        assert rest[k] in rest;
        var m :| 0 <= m < |pbs[1..]| && pbs[1..][m] == rest[k];
        assert pbs[m + 1] == rest[k];
      }
    }
  }

  /** An accepted draft becomes the event's only draft, appended last, and every other
      event's drafts stay; a rejected one leaves the form as it was; at most one draft per event is
      kept. */
  lemma {:induction false} HandleAddPBCorrect(d: PBDraft)
    ensures var time := ParseTime(d.timeInput);
      var r := HandleAddPB(d);
      if d.eventId != "" && time.Some? && time.value != 0 then
        && FindPB(r.pbs, d.eventId) == Some(PB(d.eventId, time.value, d.dateInput, d.venueInput))
        && |r.pbs| > 0 && r.pbs[|r.pbs| - 1] == PB(d.eventId, time.value, d.dateInput, d.venueInput)
        && (forall p: PB :: p.eventId != d.eventId ==> (p in r.pbs <==> p in d.pbs))
        && r.eventId == "" && r.timeInput == "" && r.dateInput == "" && r.venueInput == ""
      else r == d
    ensures OnePerEvent(d.pbs) ==> OnePerEvent(HandleAddPB(d).pbs)
  {
    var time := ParseTime(d.timeInput);
    if d.eventId != "" && time.Some? && time.value != 0 {
      var kept := WithoutEvent(d.pbs, d.eventId);
      var added := PB(d.eventId, time.value, d.dateInput, d.venueInput);
      var pbs := kept + [added];
      assert pbs[|kept|] == added;
      forall k | 0 <= k < |kept| ensures pbs[k].eventId != d.eventId {
        assert kept[k] in kept;
      }
      assert FindPB(pbs, d.eventId) == Some(added) by {
        FindPBAfter(kept, added);
      }
      if OnePerEvent(d.pbs) {
        WithoutEventOnePerEvent(d.pbs, d.eventId);
      }
    }
  }

  lemma {:induction false} FindPBAfter(kept: seq<PB>, added: PB)
    requires forall k :: 0 <= k < |kept| ==> kept[k].eventId != added.eventId
    ensures FindPB(kept + [added], added.eventId) == Some(added)
  {
    if |kept| > 0 {
      assert (kept + [added])[1..] == kept[1..] + [added];
      FindPBAfter(kept[1..], added);
    }
  }
}

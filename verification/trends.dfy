/** The trend chart (components/TrendsAnalysis.tsx): one row of points per session in
    date order, the selection of athletes drawn, and the top-five pick. */
module Trends {
  import opened Wrappers
  import opened Text
  import opened Seqs
  import opened Types
  import AthleteManager

  // ---------------------------------------------------------------------------
  // Chart rows

  /** The chart point of one session: its date, its name and each athlete's points. */
  datatype ChartRow = ChartRow(fullDate: string, raceName: string, points: map<string, int>)

  /** `pointMap` after the `forEach` over the results: each assignment overwrites. */
  function PointsAfter(results: seq<RaceResult>): map<string, int> {
    if |results| == 0 then map[]
    else
      var n := |results| - 1;
      PointsAfter(results[..n])[results[n].athleteId := results[n].points]
  }

  /** `p` is the points of the athlete's last result. */
  predicate LastPoints(results: seq<RaceResult>, athleteId: string, p: int) {
    exists i :: (0 <= i < |results| && results[i].athleteId == athleteId && results[i].points == p
      && forall j :: i < j < |results| ==> results[j].athleteId != athleteId)
  }

  /** The map has a value for exactly the athletes with a result. */
  lemma {:induction false} PointsAfterKeys(results: seq<RaceResult>)
    ensures forall id :: id in PointsAfter(results) <==> HasResult(results, id)
  {
    if |results| > 0 {
      var n := |results| - 1;
      var pre := results[..n];
      PointsAfterKeys(pre);
      forall id | HasResult(results, id) ensures id in PointsAfter(results) {
        var i :| 0 <= i < |results| && results[i].athleteId == id;
        if i < n {
          assert pre[i] == results[i];
        }
      }
      assert PointsAfter(results) == PointsAfter(pre)[results[n].athleteId := results[n].points];
      forall id | id in PointsAfter(results) ensures HasResult(results, id) {
        if id != results[n].athleteId {
          assert id in PointsAfter(pre);
          var i :| 0 <= i < |pre| && pre[i].athleteId == id;
          assert results[i] == pre[i];
        }
      }
    }
  }

  /** Each athlete's value is the points of their last result in the session. */
  lemma {:induction false} PointsAfterLast(results: seq<RaceResult>)
    ensures forall id :: id in PointsAfter(results) ==> LastPoints(results, id, PointsAfter(results)[id])
  {
    if |results| > 0 {
      var n := |results| - 1;
      var pre := results[..n];
      PointsAfterLast(pre);
      forall id | id in PointsAfter(results) ensures LastPoints(results, id, PointsAfter(results)[id]) {
        if id == results[n].athleteId {
          assert LastPoints(results, id, results[n].points);
        } else {
          var p := PointsAfter(pre)[id];
          var i :| 0 <= i < |pre| && pre[i].athleteId == id && pre[i].points == p
            && forall j :: i < j < |pre| ==> pre[j].athleteId != id;
          assert results[i] == pre[i];
          forall j | i < j < |results| ensures results[j].athleteId != id {
            if j < n {
              assert results[j] == pre[j];
            }
          }
        }
      }
    }
  }

  /** The `forEach` filling `pointMap`. */
  method PointMap(results: seq<RaceResult>) returns (pointMap: map<string, int>)
    ensures pointMap == PointsAfter(results)
  {
    pointMap := map[];
    for i := 0 to |results|
      invariant pointMap == PointsAfter(results[..i])
    {
      assert results[..i + 1][..i] == results[..i];
      pointMap := pointMap[results[i].athleteId := results[i].points];
    }
    assert results[..|results|] == results;
  }

  function ChartRowOf(s: RaceSession): ChartRow {
    ChartRow(s.date, s.name, PointsAfter(s.results))
  }

  /** `chartData`: the sessions oldest first, one chart row each. */
  function ChartDataOf(sessions: seq<RaceSession>): seq<ChartRow> {
    Map(AthleteManager.Chronological(sessions), ChartRowOf)
  }

  method ChartData(sessions: seq<RaceSession>) returns (rows: seq<ChartRow>)
    ensures rows == ChartDataOf(sessions)
  {
    var sorted := AthleteManager.Chronological(sessions);
    rows := [];
    for i := 0 to |sorted|
      invariant |rows| == i
      invariant forall k :: 0 <= k < i ==> rows[k] == ChartRowOf(sorted[k])
    {
      var pointMap := PointMap(sorted[i].results);
      rows := rows + [ChartRow(sorted[i].date, sorted[i].name, pointMap)];
    }
  }

  /** One row per session, the sessions' own rows, in ascending date order. */
  lemma {:induction false} ChartDataCorrect(sessions: seq<RaceSession>)
    ensures |ChartDataOf(sessions)| == |sessions|
    ensures multiset(ChartDataOf(sessions)) == multiset(Map(sessions, ChartRowOf))
    ensures forall i, j :: 0 <= i < j < |sessions| ==>
      StrLe(ChartDataOf(sessions)[i].fullDate, ChartDataOf(sessions)[j].fullDate)
  {
    var sorted := AthleteManager.Chronological(sessions);
    AthleteManager.DateAscLeOrder();
    SortBySorted(sessions, AthleteManager.DateAscLe);
    SortByProjectPermutes(sessions, AthleteManager.DateAscLe, ChartRowOf);
    forall i, j | 0 <= i < j < |sessions|
      ensures StrLe(ChartDataOf(sessions)[i].fullDate, ChartDataOf(sessions)[j].fullDate)
    {
      assert AthleteManager.DateAscLe(sorted[i], sorted[j]);
    }
  }

  // ---------------------------------------------------------------------------
  // Selection

  /** `prev.filter(pid => pid !== id)` */
  function Without(ids: seq<string>, id: string): (r: seq<string>)
    ensures forall x :: x in r <==> x in ids && x != id
  {
    if |ids| == 0 then [] else (if ids[0] != id then [ids[0]] else []) + Without(ids[1..], id)
  }

  /** `toggleAthlete`: a selected id is removed, another is appended. */
  function Toggle(ids: seq<string>, id: string): (r: seq<string>)
    ensures id in r <==> id !in ids
    ensures forall x :: x != id ==> (x in r <==> x in ids)
    ensures id !in ids ==> r == ids + [id]
  {
    if id in ids then Without(ids, id) else ids + [id]
  }

  lemma {:induction false} WithoutAbsent(ids: seq<string>, id: string)
    requires id !in ids
    ensures Without(ids, id) == ids
  {
    if |ids| > 0 {
      WithoutAbsent(ids[1..], id);
      assert [ids[0]] + ids[1..] == ids;
    }
  }

  lemma {:induction false} WithoutAppended(ids: seq<string>, id: string)
    requires id !in ids
    ensures Without(ids + [id], id) == ids
  {
    if |ids| == 0 {
      assert ([id])[1..] == [];
    } else {
      assert (ids + [id])[1..] == ids[1..] + [id];
      WithoutAppended(ids[1..], id);
      assert [ids[0]] + ids[1..] == ids;
    }
  }

  /** Toggling an unselected athlete twice restores the selection. */
  lemma {:induction false} ToggleTwice(ids: seq<string>, id: string)
    requires id !in ids
    ensures Toggle(Toggle(ids, id), id) == ids
  {
    WithoutAppended(ids, id);
  }

  /** Toggling a selected athlete twice moves it to the end. */
  lemma {:induction false} ToggleTwiceSelected(ids: seq<string>, id: string)
    requires id in ids
    ensures Toggle(Toggle(ids, id), id) == Without(ids, id) + [id]
  {
  }

  /** Toggling keeps the selection free of repeats. */
  lemma {:induction false} ToggleNoDup(ids: seq<string>, id: string)
    requires NoDup(ids)
    ensures NoDup(Toggle(ids, id))
  {
    if id in ids {
      WithoutNoDup(ids, id);
    } else {
      var r := ids + [id];
      forall i, j | 0 <= i < j < |r| ensures r[i] != r[j] {
        assert r[i] == ids[i];
        if j < |ids| {
          assert r[j] == ids[j];
        }
      }
    }
  }

  lemma {:induction false} WithoutNoDup(ids: seq<string>, id: string)
    requires NoDup(ids)
    ensures NoDup(Without(ids, id))
  {
    if |ids| > 0 {
      var rest := ids[1..];
      assert NoDup(rest) by {
        forall i, j | 0 <= i < j < |rest| ensures rest[i] != rest[j] {
          assert rest[i] == ids[i + 1] && rest[j] == ids[j + 1];
        }
      }
      WithoutNoDup(rest, id);
      var w := Without(rest, id);
      if ids[0] != id {
        assert ids[0] !in rest by {
          forall k | 0 <= k < |rest| ensures rest[k] != ids[0] {
            assert rest[k] == ids[k + 1];
          }
        }
        var r := [ids[0]] + w;
        forall i, j | 0 <= i < j < |r| ensures r[i] != r[j] {
          if i == 0 {
            assert r[j] == w[j - 1] && r[j] in w;
          } else {
            assert r[i] == w[i - 1] && r[j] == w[j - 1];
          }
        }
      }
    }
  }

  // ---------------------------------------------------------------------------
  // Top five by race count

  /** The number of sessions with a result of the athlete. */
  function SessionCount(sessions: seq<RaceSession>, athleteId: string): (n: nat)
    ensures n <= |sessions|
  {
    if |sessions| == 0 then 0
    else (if HasResult(sessions[0].results, athleteId) then 1 else 0) + SessionCount(sessions[1..], athleteId)
  }

  /** An athlete decorated with their race count. */
  datatype RaceCount = RaceCount(athlete: Athlete, count: nat)

  function CountsOf(athletes: seq<Athlete>, sessions: seq<RaceSession>): (r: seq<RaceCount>)
    ensures |r| == |athletes|
    ensures forall i :: 0 <= i < |athletes| ==> r[i] == RaceCount(athletes[i], SessionCount(sessions, athletes[i].id))
  {
    if |athletes| == 0 then []
    else [RaceCount(athletes[0], SessionCount(sessions, athletes[0].id))] + CountsOf(athletes[1..], sessions)
  }

  /** The comparator `countB - countA`: most races first. */
  predicate MoreRacesLe(a: RaceCount, b: RaceCount) {
    a.count >= b.count
  }

  lemma {:induction false} MoreRacesLeOrder()
    ensures TotalPreorder(MoreRacesLe)
  {
  }

  function CountId(c: RaceCount): string {
    c.athlete.id
  }

  function Min(a: int, b: int): int {
    if a <= b then a else b
  }

  /** The athletes ordered by race count, most first. */
  function ByRaces(athletes: seq<Athlete>, sessions: seq<RaceSession>): seq<RaceCount> {
    SortBy(CountsOf(athletes, sessions), MoreRacesLe)
  }

  /** `selectTopAthletes`: the ids of the first five athletes by race count. */
  function TopAthletes(athletes: seq<Athlete>, sessions: seq<RaceSession>): seq<string> {
    var sorted := ByRaces(athletes, sessions);
    Map(sorted[..Min(5, |sorted|)], CountId)
  }

  /** The ordering keeps the athletes, each with their own race count, most first. */
  lemma {:induction false} ByRacesCorrect(athletes: seq<Athlete>, sessions: seq<RaceSession>)
    ensures |ByRaces(athletes, sessions)| == |athletes|
    ensures SortedBy(ByRaces(athletes, sessions), MoreRacesLe)
    ensures forall k :: 0 <= k < |athletes| ==> (ByRaces(athletes, sessions)[k].athlete in athletes
      && ByRaces(athletes, sessions)[k].count == SessionCount(sessions, ByRaces(athletes, sessions)[k].athlete.id))
    ensures forall a :: a in athletes ==> RaceCount(a, SessionCount(sessions, a.id)) in ByRaces(athletes, sessions)
  {
    var keys := CountsOf(athletes, sessions);
    var sorted := ByRaces(athletes, sessions);
    MoreRacesLeOrder();
    SortBySorted(keys, MoreRacesLe);
    SortByPermutes(keys, MoreRacesLe);
    forall k | 0 <= k < |athletes|
      ensures sorted[k].athlete in athletes && sorted[k].count == SessionCount(sessions, sorted[k].athlete.id)
    {
      assert sorted[k] in multiset(keys);
      var m :| 0 <= m < |keys| && keys[m] == sorted[k];
    }
    forall a | a in athletes ensures RaceCount(a, SessionCount(sessions, a.id)) in sorted {
      var m :| 0 <= m < |athletes| && athletes[m] == a;
      assert keys[m] in multiset(sorted);
    }
  }

  /** Five athletes, or all when there are fewer, each an athlete of the roster, in
      non-increasing order of race count. */
  lemma {:induction false} TopAthletesSorted(athletes: seq<Athlete>, sessions: seq<RaceSession>)
    ensures |TopAthletes(athletes, sessions)| == Min(5, |athletes|)
    ensures forall i, j :: 0 <= i < j < |TopAthletes(athletes, sessions)| ==>
      SessionCount(sessions, TopAthletes(athletes, sessions)[i]) >= SessionCount(sessions, TopAthletes(athletes, sessions)[j])
    ensures forall id :: id in TopAthletes(athletes, sessions) ==> exists a :: a in athletes && a.id == id
  {
    var sorted := ByRaces(athletes, sessions);
    var r := TopAthletes(athletes, sessions);
    ByRacesCorrect(athletes, sessions);
    forall i, j | 0 <= i < j < |r| ensures SessionCount(sessions, r[i]) >= SessionCount(sessions, r[j]) {
      assert r[i] == sorted[i].athlete.id && r[j] == sorted[j].athlete.id;
      assert MoreRacesLe(sorted[i], sorted[j]);
    }
    forall id | id in r ensures exists a :: a in athletes && a.id == id {
      var k :| 0 <= k < |r| && r[k] == id;
      assert sorted[k].athlete in athletes;
    }
  }

  /** No athlete left out has run more races than one selected. */
  lemma {:induction false} TopAthletesTop(athletes: seq<Athlete>, sessions: seq<RaceSession>, a: Athlete)
    requires a in athletes && a.id !in TopAthletes(athletes, sessions)
    ensures forall id :: id in TopAthletes(athletes, sessions) ==> SessionCount(sessions, id) >= SessionCount(sessions, a.id)
  {
    var sorted := ByRaces(athletes, sessions);
    var r := TopAthletes(athletes, sessions);
    ByRacesCorrect(athletes, sessions);
    var j :| 0 <= j < |sorted| && sorted[j] == RaceCount(a, SessionCount(sessions, a.id));
    assert forall k :: 0 <= k < |r| ==> r[k] == sorted[k].athlete.id;
    assert j >= |r|;
    forall id | id in r ensures SessionCount(sessions, id) >= SessionCount(sessions, a.id) {
      var k :| 0 <= k < |r| && r[k] == id;
      assert r[k] == sorted[k].athlete.id;
      assert MoreRacesLe(sorted[k], sorted[j]);
    }
  }
}

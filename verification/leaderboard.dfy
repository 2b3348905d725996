/** The leaderboard table (components/Leaderboard.tsx): one row per active athlete,
    sorted by rounded average points, highest first. */
module Leaderboard {
  import opened Seqs
  import opened Types
  import opened Standings

  datatype Row = Row(athlete: Athlete, totalPoints: int, averagePoints: int, racesRun: nat)

  /** The row of one athlete: all their rows count towards the total and the average,
      only finished ones towards the races run. */
  function RowOf(a: Athlete, sessions: seq<RaceSession>): Row {
    var rs := ResultsOf(sessions, a.id);
    Row(a, SumPoints(rs), RoundedAverage(SumPoints(rs), |rs|), CountFinished(rs))
  }

  function RowsOf(athletes: seq<Athlete>, sessions: seq<RaceSession>): (r: seq<Row>)
    ensures |r| == |athletes|
    ensures forall i :: 0 <= i < |athletes| ==> r[i] == RowOf(athletes[i], sessions)
  {
    if |athletes| == 0 then [] else [RowOf(athletes[0], sessions)] + RowsOf(athletes[1..], sessions)
  }

  /** The comparator `b.averagePoints - a.averagePoints`. */
  predicate RowLe(a: Row, b: Row) {
    b.averagePoints <= a.averagePoints
  }

  lemma {:induction false} RowLeOrder()
    ensures TotalPreorder(RowLe)
  {
  }

  /** `data` after `data.sort(...)`; the displayed rank of a row is its index + 1. */
  function LeaderboardData(athletes: seq<Athlete>, sessions: seq<RaceSession>): seq<Row> {
    SortBy(RowsOf(ActiveAthletes(athletes), sessions), RowLe)
  }

  /** Exactly the active athletes get a row, each row holds that athlete's figures, and
      averages never increase down the table. */
  lemma {:induction false} LeaderboardCorrect(athletes: seq<Athlete>, sessions: seq<RaceSession>)
    ensures var data := LeaderboardData(athletes, sessions);
      && |data| == |ActiveAthletes(athletes)|
      && multiset(data) == multiset(RowsOf(ActiveAthletes(athletes), sessions))
      && (forall i :: 0 <= i < |data| ==>
            data[i] == RowOf(data[i].athlete, sessions) && data[i].athlete in athletes && data[i].athlete.isActive)
      && (forall a :: a in athletes && a.isActive ==> exists i :: 0 <= i < |data| && data[i].athlete == a)
      && (forall i, j :: 0 <= i < j < |data| ==> data[j].averagePoints <= data[i].averagePoints)
  {
    var active := ActiveAthletes(athletes);
    var rows := RowsOf(active, sessions);
    var data := LeaderboardData(athletes, sessions);
    SortByPermutes(rows, RowLe);
    RowLeOrder();
    SortBySorted(rows, RowLe);
    forall i | 0 <= i < |data|
      ensures data[i] == RowOf(data[i].athlete, sessions) && data[i].athlete in athletes && data[i].athlete.isActive
    {
      assert data[i] in multiset(rows);
      var k :| 0 <= k < |rows| && rows[k] == data[i];
      assert active[k] in active;
    }
    forall a | a in athletes && a.isActive ensures exists i :: 0 <= i < |data| && data[i].athlete == a {
      assert a in active;
      var k :| 0 <= k < |active| && active[k] == a;
      assert rows[k] in multiset(data);
      var i :| 0 <= i < |data| && data[i] == rows[k];
    }
  }

  /** Rows with equal averages keep roster order (the sort is stable). */
  lemma {:induction false} LeaderboardStable(athletes: seq<Athlete>, sessions: seq<RaceSession>, y: Row)
    ensures EquivTo(LeaderboardData(athletes, sessions), RowLe, y) ==
      EquivTo(RowsOf(ActiveAthletes(athletes), sessions), RowLe, y)
  {
    RowLeOrder();
    SortByStable(RowsOf(ActiveAthletes(athletes), sessions), RowLe, y);
  }
}

/** Per-athlete aggregates that the leaderboard, the roster ranks and the profile share:
    `sessions.flatMap(s => s.results).filter(r => r.athleteId === id)` and the rounded
    average over all of those rows, penalties included. */
module Standings {
  import opened Types
  import opened Seqs

  /** The athlete's rows in one session, in order. */
  function RowsFor(results: seq<RaceResult>, athleteId: string): (r: seq<RaceResult>)
    ensures |r| <= |results|
  {
    if |results| == 0 then []
    else (if results[0].athleteId == athleteId then [results[0]] else []) + RowsFor(results[1..], athleteId)
  }

  /** The athlete's rows are exactly the rows with the athlete's id. */
  lemma {:induction false} RowsForMembers(results: seq<RaceResult>, athleteId: string)
    ensures forall x :: x in RowsFor(results, athleteId) <==> x in results && x.athleteId == athleteId
  {
    if |results| > 0 {
      RowsForMembers(results[1..], athleteId);
      assert results == [results[0]] + results[1..];
    }
  }

  /** The athlete's rows over all sessions, session by session. */
  function ResultsOf(sessions: seq<RaceSession>, athleteId: string): seq<RaceResult> {
    if |sessions| == 0 then [] else RowsFor(sessions[0].results, athleteId) + ResultsOf(sessions[1..], athleteId)
  }

  /** Every row collected is the athlete's. */
  lemma {:induction false} ResultsOfMembers(sessions: seq<RaceSession>, athleteId: string)
    ensures forall x :: x in ResultsOf(sessions, athleteId) ==> x.athleteId == athleteId
  {
    if |sessions| > 0 {
      RowsForMembers(sessions[0].results, athleteId);
      ResultsOfMembers(sessions[1..], athleteId);
    }
  }

  lemma {:induction false} ResultsOfConcat(a: seq<RaceSession>, b: seq<RaceSession>, athleteId: string)
    ensures ResultsOf(a + b, athleteId) == ResultsOf(a, athleteId) + ResultsOf(b, athleteId)
  {
    if |a| == 0 {
      assert a + b == b;
    } else {
      assert (a + b)[1..] == a[1..] + b;
      ResultsOfConcat(a[1..], b, athleteId);
    }
  }

  /** The athlete has a row in some session exactly when `ResultsOf` is non-empty. */
  lemma {:induction false} ResultsOfEmpty(sessions: seq<RaceSession>, athleteId: string)
    ensures |ResultsOf(sessions, athleteId)| == 0 <==>
      forall i :: 0 <= i < |sessions| ==> !HasResult(sessions[i].results, athleteId)
  {
    if |sessions| > 0 {
      ResultsOfEmpty(sessions[1..], athleteId);
      forall i | 1 <= i < |sessions| ensures sessions[i] == sessions[1..][i - 1] { }
      RowsForEmpty(sessions[0].results, athleteId);
    }
  }

  /** A session holds rows of the athlete exactly when it has a result for them. */
  lemma {:induction false} RowsForEmpty(results: seq<RaceResult>, athleteId: string)
    ensures |RowsFor(results, athleteId)| == 0 <==> !HasResult(results, athleteId)
  {
    if |results| > 0 {
      RowsForEmpty(results[1..], athleteId);
      if results[0].athleteId != athleteId {
        forall i | 1 <= i < |results| ensures results[i] == results[1..][i - 1] { }
      }
    }
  }

  /** `reduce((sum, r) => sum + r.points, 0)` */
  function SumPoints(rs: seq<RaceResult>): int {
    if |rs| == 0 then 0 else SumPoints(rs[..|rs| - 1]) + rs[|rs| - 1].points
  }

  lemma {:induction false} SumPointsConcat(a: seq<RaceResult>, b: seq<RaceResult>)
    ensures SumPoints(a + b) == SumPoints(a) + SumPoints(b)
  {
    if |b| == 0 {
      assert a + b == a;
    } else {
      assert (a + b)[..|a + b| - 1] == a + b[..|b| - 1];
      SumPointsConcat(a, b[..|b| - 1]);
    }
  }

  /** `filter(r => r.time > 0).length` */
  function CountFinished(rs: seq<RaceResult>): (n: nat)
    ensures n <= |rs|
  {
    if |rs| == 0 then 0 else CountFinished(rs[..|rs| - 1]) + (if rs[|rs| - 1].time > 0 then 1 else 0)
  }

  lemma {:induction false} CountFinishedConcat(a: seq<RaceResult>, b: seq<RaceResult>)
    ensures CountFinished(a + b) == CountFinished(a) + CountFinished(b)
  {
    if |b| == 0 {
      assert a + b == a;
    } else {
      assert (a + b)[..|a + b| - 1] == a + b[..|b| - 1];
      CountFinishedConcat(a, b[..|b| - 1]);
    }
  }

  /** `n > 0 ? Math.round(total / n) : 0`, `Math.round` rounding halves up. */
  function RoundedAverage(total: int, n: nat): int {
    if n > 0 then (2 * total + n) / (2 * n) else 0
  }

  /** The rounded average is the integer nearest to `total / n`, halves going up. */
  lemma {:induction false} RoundedAverageNearest(total: int, n: nat)
    requires n > 0
    ensures var avg := RoundedAverage(total, n);
      2 * total - n < 2 * n * avg <= 2 * total + n
  {
    var q := (2 * total + n) / (2 * n);
    var m := (2 * total + n) % (2 * n);
    assert 2 * total + n == 2 * n * q + m;
  }

  /** The average over the athlete's rows in the sessions. */
  function AverageOf(sessions: seq<RaceSession>, athleteId: string): int {
    var rs := ResultsOf(sessions, athleteId);
    RoundedAverage(SumPoints(rs), |rs|)
  }

  /** `athletes.filter(a => a.isActive)`: the active athletes in roster order, each as
      often as in the roster. */
  function ActiveAthletes(athletes: seq<Athlete>): (r: seq<Athlete>)
    ensures forall a :: a in r <==> a in athletes && a.isActive
    ensures |r| <= |athletes|
  {
    if |athletes| == 0 then []
    else (if athletes[0].isActive then [athletes[0]] else []) + ActiveAthletes(athletes[1..])
  }

  /** The active athletes stay in roster order, each as often as in the roster. */
  lemma {:induction false} ActiveAthletesKeeps(athletes: seq<Athlete>)
    ensures Subsequence(ActiveAthletes(athletes), athletes)
    ensures forall a :: multiset(ActiveAthletes(athletes))[a] == if a.isActive then multiset(athletes)[a] else 0
  {
    if |athletes| > 0 {
      ActiveAthletesKeeps(athletes[1..]);
      assert athletes == [athletes[0]] + athletes[1..];
      SubsequenceCons(athletes[0], ActiveAthletes(athletes[1..]), athletes[1..], athletes[0].isActive);
    }
  }
}

/** The athlete profile (components/AthleteManager.tsx): career highs found by
    replaying the season in date order, the badges, and the profile figures. */
module AthleteProfile {
  import opened Wrappers
  import opened Text
  import opened Seqs
  import opened Types
  import opened Utils
  import opened Standings
  import opened Scoring
  import opened Store
  import opened AthleteManager

  // ---------------------------------------------------------------------------
  // Running totals: `historyStats`, a Map from athlete id kept in insertion order

  datatype Tally = Tally(id: string, totalPoints: int, count: nat)

  /** `historyStats.get(id)` */
  function Lookup(tally: seq<Tally>, id: string): (r: Option<Tally>)
    ensures r.Some? ==> r.value.id == id
  {
    if |tally| == 0 then None
    else if tally[0].id == id then Some(tally[0])
    else Lookup(tally[1..], id)
  }

  /** A found entry is in the map, and nothing is found exactly when no entry has the id. */
  lemma {:induction false} LookupIn(tally: seq<Tally>, id: string)
    ensures Lookup(tally, id).Some? ==> Lookup(tally, id).value in tally
    ensures Lookup(tally, id).None? <==> forall k :: 0 <= k < |tally| ==> tally[k].id != id
  {
    if |tally| > 0 && tally[0].id != id {
      LookupIn(tally[1..], id);
      forall k | 1 <= k < |tally| ensures tally[k] == tally[1..][k - 1] { }
    }
  }

  /** `historyStats.get(id) || { totalPoints: 0, count: 0 }` */
  function TallyOf(tally: seq<Tally>, id: string): Tally {
    match Lookup(tally, id)
    case Some(t) => t
    case None => Tally(id, 0, 0)
  }

  /** `historyStats.set(r.athleteId, ...)`: an existing entry is updated in place,
      a new one is appended. */
  function Bump(tally: seq<Tally>, r: RaceResult): seq<Tally> {
    if |tally| == 0 then [Tally(r.athleteId, r.points, 1)]
    else if tally[0].id == r.athleteId then
      [Tally(r.athleteId, tally[0].totalPoints + r.points, tally[0].count + 1)] + tally[1..]
    else [tally[0]] + Bump(tally[1..], r)
  }

  /** `session.results.forEach(...)` */
  function BumpAll(tally: seq<Tally>, results: seq<RaceResult>): seq<Tally>
    decreases |results|
  {
    if |results| == 0 then tally else BumpAll(Bump(tally, results[0]), results[1..])
  }

  /** A row adds its points and one entry to its own athlete's tally … */
  lemma {:induction false} BumpSame(tally: seq<Tally>, r: RaceResult)
    ensures Lookup(Bump(tally, r), r.athleteId) ==
      Some(Tally(r.athleteId, TallyOf(tally, r.athleteId).totalPoints + r.points, TallyOf(tally, r.athleteId).count + 1))
  {
    var id := r.athleteId;
    var b := Bump(tally, r);
    if |tally| == 0 {
      assert b == [Tally(id, r.points, 1)];
    } else if tally[0].id == id {
      assert b[0] == Tally(id, tally[0].totalPoints + r.points, tally[0].count + 1);
    } else {
      BumpSame(tally[1..], r);
      assert b[0] == tally[0] && b[1..] == Bump(tally[1..], r);
    }
  }

  /** … and leaves every other athlete's entry alone. */
  lemma {:induction false} BumpOther(tally: seq<Tally>, r: RaceResult, id: string)
    requires id != r.athleteId
    ensures Lookup(Bump(tally, r), id) == Lookup(tally, id)
  {
    if |tally| > 0 && tally[0].id != r.athleteId {
      BumpOther(tally[1..], r, id);
      var b := Bump(tally, r);
      assert b[1..] == Bump(tally[1..], r);
    } else if |tally| > 0 {
      var b := Bump(tally, r);
      assert b[1..] == tally[1..];
    }
  }

  /** After a session, an athlete's tally has grown by exactly that athlete's rows. */
  lemma {:induction false} BumpAllLookup(tally: seq<Tally>, results: seq<RaceResult>, id: string)
    ensures var rows := RowsFor(results, id);
      Lookup(BumpAll(tally, results), id) ==
        if |rows| == 0 then Lookup(tally, id)
        else Some(Tally(id, TallyOf(tally, id).totalPoints + SumPoints(rows), TallyOf(tally, id).count + |rows|))
  {
    BumpAllGrown(tally, results, id);
  }

  /** The entry `o` grown by the athlete's `rows`: unchanged for none, otherwise their
      points and number added to it (to a zero entry when there was none). */
  function Grown(o: Option<Tally>, id: string, rows: seq<RaceResult>): Option<Tally> {
    if |rows| == 0 then o
    else
      var t := match o case Some(t) => t case None => Tally(id, 0, 0);
      Some(Tally(id, t.totalPoints + SumPoints(rows), t.count + |rows|))
  }

  lemma {:induction false} BumpAllGrown(tally: seq<Tally>, results: seq<RaceResult>, id: string)
    ensures Lookup(BumpAll(tally, results), id) == Grown(Lookup(tally, id), id, RowsFor(results, id))
    decreases |results|
  {
    if |results| > 0 {
      var r := results[0];
      var next := Bump(tally, r);
      BumpAllGrown(next, results[1..], id);
      var rest := RowsFor(results[1..], id);
      if r.athleteId == id {
        BumpSame(tally, r);
        assert SumPoints([r]) == r.points;
        assert Lookup(next, id) == Grown(Lookup(tally, id), id, [r]);
        assert RowsFor(results, id) == [r] + rest;
        GrownConcat(Lookup(tally, id), id, [r], rest);
      } else {
        BumpOther(tally, r, id);
        assert RowsFor(results, id) == rest;
      }
    }
  }

  /** Growing by two runs of rows in turn is growing by both at once. */
  lemma {:induction false} GrownConcat(o: Option<Tally>, id: string, a: seq<RaceResult>, b: seq<RaceResult>)
    requires o.Some? ==> o.value.id == id
    ensures Grown(Grown(o, id, a), id, b) == Grown(o, id, a + b)
  {
    SumPointsConcat(a, b);
    if |a| == 0 {
      assert a + b == b;
    }
  }

  /** The session-by-session update of the running totals. */
  method BumpSession(tally: seq<Tally>, results: seq<RaceResult>) returns (t: seq<Tally>)
    ensures t == BumpAll(tally, results)
  {
    t := tally;
    for j := 0 to |results|
      invariant BumpAll(t, results[j..]) == BumpAll(tally, results)
    {
      assert results[j..][1..] == results[j + 1..];
      t := Bump(t, results[j]);
    }
  }

  /** `Array.from(historyStats.entries()).map(([id, s]) => ({ id, avg }))` */
  function TallyStats(tally: seq<Tally>): (r: seq<Stat>)
    ensures |r| == |tally|
    ensures forall i :: 0 <= i < |tally| ==> r[i] == Stat(tally[i].id, RoundedAverage(tally[i].totalPoints, tally[i].count))
  {
    if |tally| == 0 then []
    else [Stat(tally[0].id, RoundedAverage(tally[0].totalPoints, tally[0].count))] + TallyStats(tally[1..])
  }

  /** An athlete with a tally is on the running leaderboard. */
  lemma {:induction false} BoardHasAthlete(tally: seq<Tally>, id: string)
    requires Lookup(tally, id).Some?
    ensures IndexOfId(SortBy(TallyStats(tally), StatLe), id) >= 0
  {
    var t := Lookup(tally, id).value;
    LookupIn(tally, id);
    var m :| 0 <= m < |tally| && tally[m] == t;
    var stat := TallyStats(tally)[m];
    InSortBy(TallyStats(tally), StatLe, stat);
    var board := SortBy(TallyStats(tally), StatLe);
    var k :| 0 <= k < |board| && board[k] == stat;
    assert board[k].id == id;
  }

  // ---------------------------------------------------------------------------
  // Career highs

  /** The replay state: running totals, the best rank so far (None for `Infinity`)
      and the highest average so far. */
  datatype Career = Career(tally: seq<Tally>, best: Option<int>, highestAvg: int)

  function CareerStep(c: Career, s: RaceSession, athleteId: string): Career {
    var tally := BumpAll(c.tally, s.results);
    match Lookup(tally, athleteId)
    case None => Career(tally, c.best, c.highestAvg)
    case Some(t) =>
      var currentAvg := RoundedAverage(t.totalPoints, t.count);
      var high := if currentAvg > c.highestAvg then currentAvg else c.highestAvg;
      var rankIndex := IndexOfId(SortBy(TallyStats(tally), StatLe), athleteId);
      var best :=
        if rankIndex != -1 && (c.best.None? || rankIndex + 1 < c.best.value) then Some(rankIndex + 1)
        else c.best;
      Career(tally, best, high)
  }

  /** One step of the replay: the tally takes the session's rows; the highs move
      only when the athlete has a tally, to the better of old and current. */
  lemma {:induction false} CareerStepFacts(c: Career, s: RaceSession, athleteId: string)
    ensures var next := CareerStep(c, s, athleteId);
      && next.tally == BumpAll(c.tally, s.results)
      && (Lookup(next.tally, athleteId).None? ==> next.best == c.best && next.highestAvg == c.highestAvg)
      && (Lookup(next.tally, athleteId).Some? ==>
            var t := Lookup(next.tally, athleteId).value;
            var avg := RoundedAverage(t.totalPoints, t.count);
            var rank := IndexOfId(SortBy(TallyStats(next.tally), StatLe), athleteId) + 1;
            && rank >= 1
            && next.highestAvg == (if avg > c.highestAvg then avg else c.highestAvg)
            && next.best == Some(if c.best.None? || rank < c.best.value then rank else c.best.value))
  {
    var tally := BumpAll(c.tally, s.results);
    if Lookup(tally, athleteId).Some? {
      BoardHasAthlete(tally, athleteId);
    }
  }

  function Replay(sessions: seq<RaceSession>, athleteId: string): Career {
    if |sessions| == 0 then Career([], None, 0)
    else CareerStep(Replay(sessions[..|sessions| - 1], athleteId), sessions[|sessions| - 1], athleteId)
  }

  datatype CareerHighs = CareerHighs(bestRank: int, highestAvg: int)

  /** `getCareerStats`: the replay over the sessions in date order, `Infinity`
      reported as 0. */
  function CareerStats(sessions: seq<RaceSession>, athleteId: string): CareerHighs {
    var c := Replay(Chronological(sessions), athleteId);
    CareerHighs(if c.best.None? then 0 else c.best.value, c.highestAvg)
  }

  /** One pass of the `for (const session of chronSessions)` body. */
  method ReplaySession(c: Career, session: RaceSession, athleteId: string) returns (next: Career)
    ensures next == CareerStep(c, session, athleteId)
  {
    var historyStats := BumpSession(c.tally, session.results);
    var best, highestAvg := c.best, c.highestAvg;
    var targetStats := Lookup(historyStats, athleteId);
    if targetStats.Some? {
      var currentAvg := RoundedAverage(targetStats.value.totalPoints, targetStats.value.count);
      if currentAvg > highestAvg {
        highestAvg := currentAvg;
      }
      var leaderboard := SortBy(TallyStats(historyStats), StatLe);
      var rankIndex := IndexOfId(leaderboard, athleteId);
      if rankIndex != -1 {
        var currentRank := rankIndex + 1;
        if best.None? || currentRank < best.value {
          best := Some(currentRank);
        }
      }
    }
    next := Career(historyStats, best, highestAvg);
  }

  method GetCareerStats(sessions: seq<RaceSession>, athleteId: string) returns (bestRank: int, highestAvg: int)
    ensures CareerHighs(bestRank, highestAvg) == CareerStats(sessions, athleteId)
  {
    var chron := Chronological(sessions);
    var c := Career([], None, 0);
    for i := 0 to |chron|
      invariant Replay(chron[..i], athleteId) == c
    {
      assert chron[..i + 1][..i] == chron[..i];
      c := ReplaySession(c, chron[i], athleteId);
    }
    assert chron[..|chron|] == chron;
    bestRank := if c.best.None? then 0 else c.best.value;
    highestAvg := c.highestAvg;
  }

  /** The rows of the sessions of a prefix, split off the last session. */
  lemma {:induction false} ResultsOfSnoc(sessions: seq<RaceSession>, athleteId: string)
    requires |sessions| > 0
    ensures var n := |sessions| - 1;
      ResultsOf(sessions, athleteId) == ResultsOf(sessions[..n], athleteId) + RowsFor(sessions[n].results, athleteId)
  {
    var n := |sessions| - 1;
    assert sessions == sessions[..n] + [sessions[n]];
    ResultsOfConcat(sessions[..n], [sessions[n]], athleteId);
    assert ResultsOf([sessions[n]], athleteId) == RowsFor(sessions[n].results, athleteId) + ResultsOf([], athleteId);
  }

  /** The running totals alone after a sequence of sessions. */
  function Tallies(sessions: seq<RaceSession>): seq<Tally> {
    if |sessions| == 0 then [] else BumpAll(Tallies(sessions[..|sessions| - 1]), sessions[|sessions| - 1].results)
  }

  lemma {:induction false} ReplayTallies(sessions: seq<RaceSession>, athleteId: string)
    ensures Replay(sessions, athleteId).tally == Tallies(sessions)
  {
    if |sessions| > 0 {
      var n := |sessions| - 1;
      ReplayTallies(sessions[..n], athleteId);
      CareerStepFacts(Replay(sessions[..n], athleteId), sessions[n], athleteId);
    }
  }

  /** After a sequence of sessions the athlete's running totals are the sum and number
      of all their rows so far, and there is an entry exactly when there is a row. */
  lemma {:induction false} TalliesLookup(sessions: seq<RaceSession>, athleteId: string)
    ensures var rs := ResultsOf(sessions, athleteId);
      Lookup(Tallies(sessions), athleteId) ==
        if |rs| == 0 then None else Some(Tally(athleteId, SumPoints(rs), |rs|))
  {
    if |sessions| > 0 {
      var n := |sessions| - 1;
      TalliesLookup(sessions[..n], athleteId);
      ResultsOfSnoc(sessions, athleteId);
      TallyStep(Tallies(sessions[..n]), sessions[n].results, athleteId, ResultsOf(sessions[..n], athleteId));
    }
  }

  /** One session of totals: an entry that held the sum and number of `before` holds
      those of `before` followed by the session's rows. */
  lemma {:induction false} TallyStep(pre: seq<Tally>, results: seq<RaceResult>, id: string, before: seq<RaceResult>)
    requires Lookup(pre, id) == if |before| == 0 then None else Some(Tally(id, SumPoints(before), |before|))
    ensures var all := before + RowsFor(results, id);
      Lookup(BumpAll(pre, results), id) == if |all| == 0 then None else Some(Tally(id, SumPoints(all), |all|))
  {
    var rows := RowsFor(results, id);
    var after := Lookup(BumpAll(pre, results), id);
    BumpAllLookup(pre, results, id);
    if |rows| == 0 {
      assert before + rows == before;
      assert after == Lookup(pre, id);
    } else {
      TallyStepRows(pre, rows, id, before);
      assert after == Some(Tally(id, SumPoints(before + rows), |before + rows|));
    }
  }

  lemma {:induction false} TallyStepRows(pre: seq<Tally>, rows: seq<RaceResult>, id: string, before: seq<RaceResult>)
    requires Lookup(pre, id) == if |before| == 0 then None else Some(Tally(id, SumPoints(before), |before|))
    requires |rows| > 0
    ensures var t := TallyOf(pre, id);
      t.totalPoints + SumPoints(rows) == SumPoints(before + rows) && t.count + |rows| == |before + rows|
  {
    SumPointsConcat(before, rows);
    if |before| == 0 {
      assert before + rows == rows;
    }
  }

  /** The same for the full replay. */
  lemma {:induction false} ReplayTally(sessions: seq<RaceSession>, athleteId: string)
    ensures var rs := ResultsOf(sessions, athleteId);
      Lookup(Replay(sessions, athleteId).tally, athleteId) ==
        if |rs| == 0 then None else Some(Tally(athleteId, SumPoints(rs), |rs|))
  {
    ReplayTallies(sessions, athleteId);
    TalliesLookup(sessions, athleteId);
  }

  /** The running average at a step is the leaderboard average over the sessions so far. */
  lemma {:induction false} RunningAverage(sessions: seq<RaceSession>, athleteId: string)
    requires Lookup(Replay(sessions, athleteId).tally, athleteId).Some?
    ensures var t := Lookup(Replay(sessions, athleteId).tally, athleteId).value;
      RoundedAverage(t.totalPoints, t.count) == AverageOf(sessions, athleteId)
  {
    ReplayTally(sessions, athleteId);
  }

  /** The highest average is at least the average after every prefix in which the
      athlete has rows, never negative, and either 0 or one of those averages. */
  lemma {:induction false} ReplayHighest(sessions: seq<RaceSession>, athleteId: string)
    ensures var h := Replay(sessions, athleteId).highestAvg;
      && h >= 0
      && (forall k :: 1 <= k <= |sessions| && |ResultsOf(sessions[..k], athleteId)| > 0 ==>
            AverageOf(sessions[..k], athleteId) <= h)
      && (h == 0 || exists k :: 1 <= k <= |sessions| && h == AverageOf(sessions[..k], athleteId))
  {
    if |sessions| > 0 {
      var n := |sessions| - 1;
      var pre := sessions[..n];
      ReplayHighest(pre, athleteId);
      HighStep(sessions, athleteId);
      var h := Replay(sessions, athleteId).highestAvg;
      var hp := Replay(pre, athleteId).highestAvg;
      forall k | 1 <= k <= |sessions| && |ResultsOf(sessions[..k], athleteId)| > 0
        ensures AverageOf(sessions[..k], athleteId) <= h
      {
        if k <= n {
          PrefixOfPrefix(sessions, n, k);
        } else {
          assert sessions[..k] == sessions;
        }
      }
      if h != 0 && h == hp {
        var k :| 1 <= k <= n && hp == AverageOf(pre[..k], athleteId);
        PrefixOfPrefix(sessions, n, k);
      } else if h != 0 {
        assert sessions[..|sessions|] == sessions;
      }
    }
  }

  /** One step of the highest average: it never drops, takes the new average into
      account when the athlete has rows, and is either the old value or that average. */
  lemma {:induction false} HighStep(sessions: seq<RaceSession>, athleteId: string)
    requires |sessions| > 0
    ensures var h := Replay(sessions, athleteId).highestAvg;
      var hp := Replay(sessions[..|sessions| - 1], athleteId).highestAvg;
      && h >= hp
      && (|ResultsOf(sessions, athleteId)| > 0 ==> AverageOf(sessions, athleteId) <= h)
      && (h == hp || (|ResultsOf(sessions, athleteId)| > 0 && h == AverageOf(sessions, athleteId)))
  {
    var n := |sessions| - 1;
    ReplayTally(sessions, athleteId);
    CareerStepFacts(Replay(sessions[..n], athleteId), sessions[n], athleteId);
    if |ResultsOf(sessions, athleteId)| > 0 {
      RunningAverage(sessions, athleteId);
    }
  }

  /** The athlete's place on the running leaderboard after the sessions, if it has
      any rows by then. */
  function RankAfter(sessions: seq<RaceSession>, athleteId: string): Option<int> {
    var tally := Replay(sessions, athleteId).tally;
    if Lookup(tally, athleteId).None? then None
    else Some(IndexOfId(SortBy(TallyStats(tally), StatLe), athleteId) + 1)
  }

  /** The best rank is no worse than the running place after any prefix, and is one of
      those places. */
  lemma {:induction false} ReplayBest(sessions: seq<RaceSession>, athleteId: string)
    ensures var b := Replay(sessions, athleteId).best;
      && (forall k :: 1 <= k <= |sessions| && RankAfter(sessions[..k], athleteId).Some? ==>
            b.Some? && b.value <= RankAfter(sessions[..k], athleteId).value)
      && (b.Some? ==> exists k :: 1 <= k <= |sessions| && RankAfter(sessions[..k], athleteId) == b)
  {
    ReplayBestBound(sessions, athleteId);
    ReplayBestAttained(sessions, athleteId);
  }

  lemma {:induction false} ReplayBestBound(sessions: seq<RaceSession>, athleteId: string)
    ensures var b := Replay(sessions, athleteId).best;
      forall k :: 1 <= k <= |sessions| && RankAfter(sessions[..k], athleteId).Some? ==>
        b.Some? && b.value <= RankAfter(sessions[..k], athleteId).value
  {
    if |sessions| > 0 {
      var n := |sessions| - 1;
      ReplayBestBound(sessions[..n], athleteId);
      BestStep(sessions, athleteId);
      var b := Replay(sessions, athleteId).best;
      forall k | 1 <= k <= |sessions| && RankAfter(sessions[..k], athleteId).Some?
        ensures b.Some? && b.value <= RankAfter(sessions[..k], athleteId).value
      {
        if k <= n {
          PrefixOfPrefix(sessions, n, k);
        } else {
          assert sessions[..k] == sessions;
        }
      }
    }
  }

  lemma {:induction false} ReplayBestAttained(sessions: seq<RaceSession>, athleteId: string)
    ensures var b := Replay(sessions, athleteId).best;
      b.Some? ==> exists k :: 1 <= k <= |sessions| && RankAfter(sessions[..k], athleteId) == b
  {
    if |sessions| > 0 {
      var n := |sessions| - 1;
      var pre := sessions[..n];
      ReplayBestAttained(pre, athleteId);
      BestStep(sessions, athleteId);
      var b := Replay(sessions, athleteId).best;
      var bp := Replay(pre, athleteId).best;
      if b.Some? && b == bp {
        var k :| 1 <= k <= n && RankAfter(pre[..k], athleteId) == bp;
        PrefixOfPrefix(sessions, n, k);
        assert RankAfter(sessions[..k], athleteId) == b;
      } else if b.Some? {
        assert sessions[..|sessions|] == sessions;
        assert RankAfter(sessions[..|sessions|], athleteId) == b;
      }
    }
  }

  /** One step of the best rank: it appears with the athlete's first rows, never gets
      worse, is no worse than the current place, and is either the old value or that
      place. */
  lemma {:induction false} BestStep(sessions: seq<RaceSession>, athleteId: string)
    requires |sessions| > 0
    ensures var b := Replay(sessions, athleteId).best;
      var bp := Replay(sessions[..|sessions| - 1], athleteId).best;
      var ra := RankAfter(sessions, athleteId);
      && (ra.Some? <==> |ResultsOf(sessions, athleteId)| > 0)
      && (ra.None? ==> b == bp)
      && (ra.Some? ==>
            && ra.value >= 1 && b.Some? && b.value <= ra.value
            && (bp.Some? ==> b.value <= bp.value)
            && (b == ra || b == bp))
  {
    var n := |sessions| - 1;
    var prev := Replay(sessions[..n], athleteId);
    assert Replay(sessions, athleteId) == CareerStep(prev, sessions[n], athleteId);
    assert RankAfter(sessions, athleteId) == PlaceAfterStep(prev, sessions[n], athleteId);
    ReplayTally(sessions, athleteId);
    BestStepFacts(prev, sessions[n], athleteId);
  }

  /** The place after one more session, from the replay state alone. */
  function PlaceAfterStep(c: Career, s: RaceSession, athleteId: string): Option<int> {
    var tally := CareerStep(c, s, athleteId).tally;
    if Lookup(tally, athleteId).None? then None
    else Some(IndexOfId(SortBy(TallyStats(tally), StatLe), athleteId) + 1)
  }

  lemma {:induction false} BestStepFacts(prev: Career, s: RaceSession, athleteId: string)
    ensures var b, ra := CareerStep(prev, s, athleteId).best, PlaceAfterStep(prev, s, athleteId);
      && (ra.None? ==> b == prev.best)
      && (ra.Some? ==>
            && ra.value >= 1 && b.Some? && b.value <= ra.value
            && (prev.best.Some? ==> b.value <= prev.best.value)
            && (b == ra || b == prev.best))
  {
    CareerStepFacts(prev, s, athleteId);
    var next := CareerStep(prev, s, athleteId);
    if Lookup(next.tally, athleteId).Some? {
      var rank := IndexOfId(SortBy(TallyStats(next.tally), StatLe), athleteId) + 1;
      assert PlaceAfterStep(prev, s, athleteId) == Some(rank);
      assert next.best == Some(if prev.best.None? || rank < prev.best.value then rank else prev.best.value);
    }
  }

  /** Both career highs are 0 for an athlete with no row in any session, and the best
      rank is 0 only then. */
  lemma {:induction false} CareerStatsCorrect(sessions: seq<RaceSession>, athleteId: string)
    ensures var c := CareerStats(sessions, athleteId);
      && c.bestRank >= 0 && c.highestAvg >= 0
      && (c.bestRank == 0 <==> forall i :: 0 <= i < |sessions| ==> !HasResult(sessions[i].results, athleteId))
      && (c.bestRank == 0 ==> c.highestAvg == 0)
  {
    var chron := Chronological(sessions);
    ReplayBasics(chron, athleteId);
    ResultsOfEmpty(chron, athleteId);
    ChronologicalMembers(sessions);
    assert (forall i :: 0 <= i < |chron| ==> !HasResult(chron[i].results, athleteId))
       <==> (forall i :: 0 <= i < |sessions| ==> !HasResult(sessions[i].results, athleteId)) by {
      forall i | 0 <= i < |chron| ensures chron[i] in sessions { }
      forall i | 0 <= i < |sessions| ensures sessions[i] in chron { }
    }
  }

  /** Sorting by date keeps the same sessions. */
  lemma {:induction false} ChronologicalMembers(sessions: seq<RaceSession>)
    ensures forall s :: s in Chronological(sessions) <==> s in sessions
  {
    SortByPermutes(sessions, DateAscLe);
    forall s ensures s in Chronological(sessions) <==> s in sessions {
      assert s in Chronological(sessions) <==> s in multiset(Chronological(sessions));
      assert s in sessions <==> s in multiset(sessions);
    }
  }

  /** The best rank appears with the athlete's first row and is at least 1; the highest
      average is never negative and stays 0 while the athlete has no row. */
  lemma {:induction false} ReplayBasics(sessions: seq<RaceSession>, athleteId: string)
    ensures var c := Replay(sessions, athleteId);
      && (c.best.None? <==> |ResultsOf(sessions, athleteId)| == 0)
      && (c.best.Some? ==> c.best.value >= 1)
      && c.highestAvg >= 0
      && (c.best.None? ==> c.highestAvg == 0)
  {
    if |sessions| > 0 {
      var n := |sessions| - 1;
      ReplayBasics(sessions[..n], athleteId);
      ResultsOfSnoc(sessions, athleteId);
      ReplayTally(sessions, athleteId);
      CareerStepFacts(Replay(sessions[..n], athleteId), sessions[n], athleteId);
    }
  }

  // ---------------------------------------------------------------------------
  // Badges

  /** One row of the profile's race list: a result with its session's fields. */
  datatype AthleteRow = AthleteRow(result: RaceResult, date: string, eventId: string, sessionName: string, sessionId: string)

  /** "The GOAT", "900 Club" … "500 Club", "Speedster", "Endurance Beast", "Streak Wins",
      "Emerging Star", "Podium Regular" and "Climber" (moved up from `from` to `to`). */
  datatype Badge = Goat | Club(level: int) | Speedster | EnduranceBeast | StreakWins | EmergingStar | PodiumRegular
    | Climber(from: int, to: int)

  /** `Math.max(...rows.map(r => r.points || 0), 0)` */
  function MaxPoints(rows: seq<AthleteRow>): (m: int)
    ensures m >= 0
    ensures forall i :: 0 <= i < |rows| ==> rows[i].result.points <= m
    ensures m == 0 || exists i :: 0 <= i < |rows| && rows[i].result.points == m
  {
    if |rows| == 0 then 0
    else
      var n := |rows| - 1;
      var before := MaxPoints(rows[..n]);
      assert forall i :: 0 <= i < n ==> rows[..n][i] == rows[i];
      if rows[n].result.points > before then rows[n].result.points else before
  }

  /** The one tier badge for the best race. */
  function TierBadge(maxPoints: int): Option<Badge> {
    if maxPoints >= 950 then Some(Goat)
    else if maxPoints >= 900 then Some(Club(900))
    else if maxPoints >= 800 then Some(Club(800))
    else if maxPoints >= 700 then Some(Club(700))
    else if maxPoints >= 600 then Some(Club(600))
    else if maxPoints >= 500 then Some(Club(500))
    else None
  }

  /** Short events: a 1500 or 3000 in the name, or a gold time under 600 s. */
  predicate IsShort(evt: EventStandard) {
    Contains(evt.name, "1500") || Contains(evt.name, "3000") || evt.goldTime < 60000
  }

  /** Long events: 7km or 10km in the name, or a gold time over 1200 s. */
  predicate IsLong(evt: EventStandard) {
    Contains(evt.name, "7km") || Contains(evt.name, "10km") || evt.goldTime > 120000
  }

  predicate SpeedRow(standards: seq<EventStandard>, r: AthleteRow) {
    var evt := FindStandard(standards, r.eventId);
    evt.Some? && IsShort(evt.value) && r.result.points > 850
  }

  predicate EnduranceRow(standards: seq<EventStandard>, r: AthleteRow) {
    var evt := FindStandard(standards, r.eventId);
    evt.Some? && IsLong(evt.value) && r.result.points > 850
  }

  /** The loop `for (const r of rows)`: rows without a time are skipped, a finished
      row that is not a win ends the streak. */
  function WinStreak(rows: seq<AthleteRow>): nat {
    if |rows| == 0 then 0
    else if rows[0].result.time > 0 then (if rows[0].result.rank == 1 then 1 + WinStreak(rows[1..]) else 0)
    else WinStreak(rows[1..])
  }

  /** The rows with a time, in order. */
  function FinishedRows(rows: seq<AthleteRow>): seq<AthleteRow> {
    if |rows| == 0 then []
    else (if rows[0].result.time > 0 then [rows[0]] else []) + FinishedRows(rows[1..])
  }

  /** The streak is the number of wins leading the finished rows. */
  lemma {:induction false} WinStreakCorrect(rows: seq<AthleteRow>)
    ensures var f := FinishedRows(rows);
      var n := WinStreak(rows);
      && n <= |f|
      && (forall k :: 0 <= k < n ==> f[k].result.rank == 1)
      && (n == |f| || f[n].result.rank != 1)
  {
    if |rows| > 0 {
      WinStreakCorrect(rows[1..]);
      var f := FinishedRows(rows);
      var f1 := FinishedRows(rows[1..]);
      if rows[0].result.time > 0 {
        assert f == [rows[0]] + f1;
        if rows[0].result.rank == 1 {
          forall k | 1 <= k < WinStreak(rows) ensures f[k] == f1[k - 1] { }
        }
      } else {
        assert f == f1;
      }
    }
  }

  predicate RowFinished(r: AthleteRow) {
    r.result.time > 0
  }

  function RowPoints(r: AthleteRow): int {
    r.result.points
  }

  /** The badge's podium test `r.time > 0 && r.rank <= 3`. */
  predicate RowPodiumBadge(r: AthleteRow) {
    r.result.time > 0 && r.result.rank <= 3
  }

  /** The Climber badge: with more than one session, an active athlete who had rows
      before the latest session and now ranks higher than without it. */
  function ClimberBadge(athletes: seq<Athlete>, sessions: seq<RaceSession>, athleteId: string): Option<Badge> {
    if |sessions| > 1 then
      var latestSession := SortBy(sessions, DateDescLe)[0];
      var currentRank := CalculateRank(athletes, athleteId, sessions);
      var prevSessions := WithoutSession(sessions, latestSession.id);
      if |prevSessions| > 0 then
        var hasPreviousHistory := exists i :: 0 <= i < |prevSessions| && HasResult(prevSessions[i].results, athleteId);
        if hasPreviousHistory && currentRank > 0 then
          var prevRank := CalculateRank(athletes, athleteId, prevSessions);
          if prevRank > 0 && currentRank < prevRank then Some(Climber(prevRank, currentRank)) else None
        else None
      else None
    else None
  }

  function OptBadge(b: Option<Badge>): seq<Badge> {
    match b
    case Some(x) => [x]
    case None => []
  }

  function If(c: bool, b: Badge): seq<Badge> {
    if c then [b] else []
  }

  /** `athleteResults.some(...)` for the Speedster badge. */
  predicate HasSpeed(standards: seq<EventStandard>, rows: seq<AthleteRow>) {
    exists i :: 0 <= i < |rows| && SpeedRow(standards, rows[i])
  }

  /** `athleteResults.some(...)` for the Endurance Beast badge. */
  predicate HasEndurance(standards: seq<EventStandard>, rows: seq<AthleteRow>) {
    exists i :: 0 <= i < |rows| && EnduranceRow(standards, rows[i])
  }

  /** The Emerging Star test: one to five finished rows and an average over all rows
      above 700, the average compared by cross-multiplication (`AverageAbove`). */
  predicate IsEmerging(rows: seq<AthleteRow>) {
    var runs := CountBy(rows, RowFinished);
    runs > 0 && runs <= 5 && SumBy(rows, RowPoints) > 700 * |rows|
  }

  /** The badges pushed, in order, given the outcome of each test. */
  function BadgeList(tier: Option<Badge>, speed: bool, endurance: bool, streak: bool, emerging: bool,
                     podium: bool, climber: Option<Badge>): seq<Badge>
  {
    OptBadge(tier) + If(speed, Speedster) + If(endurance, EnduranceBeast) + If(streak, StreakWins)
    + If(emerging, EmergingStar) + If(podium, PodiumRegular) + OptBadge(climber)
  }

  /** `getBadges` */
  function Badges(athleteId: string, rows: seq<AthleteRow>, athletes: seq<Athlete>,
                  standards: seq<EventStandard>, sessions: seq<RaceSession>): seq<Badge>
  {
    BadgeList(TierBadge(MaxPoints(rows)), HasSpeed(standards, rows), HasEndurance(standards, rows),
      WinStreak(rows) >= 2, IsEmerging(rows), CountBy(rows, RowPodiumBadge) >= 3,
      ClimberBadge(athletes, sessions, athleteId))
  }

  /** The `for (const r of athleteResults)` loop counting the leading wins. */
  method CountWinStreak(athleteResults: seq<AthleteRow>) returns (winStreak: nat)
    ensures winStreak == WinStreak(athleteResults)
  {
    winStreak := 0;
    var i := 0;
    while i < |athleteResults|
      invariant 0 <= i <= |athleteResults|
      invariant winStreak + WinStreak(athleteResults[i..]) == WinStreak(athleteResults)
    {
      assert athleteResults[i..][1..] == athleteResults[i + 1..];
      var r := athleteResults[i];
      if r.result.time > 0 {
        if r.result.rank == 1 {
          winStreak := winStreak + 1;
        } else {
          assert winStreak == WinStreak(athleteResults);
          break;
        }
      }
      i := i + 1;
    }
  }

  method GetBadges(athleteId: string, athleteResults: seq<AthleteRow>, athletes: seq<Athlete>,
                   standards: seq<EventStandard>, sessions: seq<RaceSession>)
    returns (badges: seq<Badge>)
    ensures badges == Badges(athleteId, athleteResults, athletes, standards, sessions)
  {
    var winStreak := CountWinStreak(athleteResults);
    var tier := TierBadge(MaxPoints(athleteResults));
    var hasSpeed := exists k :: 0 <= k < |athleteResults| && SpeedRow(standards, athleteResults[k]);
    var hasEndurance := exists k :: 0 <= k < |athleteResults| && EnduranceRow(standards, athleteResults[k]);
    var emerging := EmergingStarTest(athleteResults);
    var podiumCount := CountBy(athleteResults, RowPodiumBadge);
    var climber := ClimberBadge(athletes, sessions, athleteId);
    assert hasSpeed == HasSpeed(standards, athleteResults);
    assert hasEndurance == HasEndurance(standards, athleteResults);
    badges := BadgeList(tier, hasSpeed, hasEndurance, winStreak >= 2, emerging, podiumCount >= 3, climber);
  }

  /** The Emerging Star test of `getBadges`: one to five finished rows, and the real
      average of the points over all rows above 700. */
  method EmergingStarTest(athleteResults: seq<AthleteRow>) returns (emerging: bool)
    ensures emerging == IsEmerging(athleteResults)
  {
    var runs := CountBy(athleteResults, RowFinished);
    var totalPts := SumBy(athleteResults, RowPoints);
    var totalEntries := |athleteResults|;
    var avgPoints := if totalEntries > 0 then (totalPts as real) / (totalEntries as real) else 0.0;
    emerging := runs > 0 && runs <= 5 && avgPoints > 700.0;
    if totalEntries > 0 {
      AverageAbove(totalPts, totalEntries);
    }
  }

  /** The tier badge is "The GOAT" exactly when some race scored 950 or more, there is
      none exactly when no race reached 500, and a club badge names the highest
      hundred reached below 950. */
  lemma {:induction false} TierBadgeCorrect(rows: seq<AthleteRow>)
    ensures var tier := TierBadge(MaxPoints(rows));
      && (tier == Some(Goat) <==> exists i :: 0 <= i < |rows| && rows[i].result.points >= 950)
      && (tier.None? <==> forall i :: 0 <= i < |rows| ==> rows[i].result.points < 500)
      && (tier.Some? && tier.value.Club? ==>
            var l := tier.value.level;
            && l % 100 == 0 && 500 <= l <= 900
            && (exists i :: 0 <= i < |rows| && rows[i].result.points >= l)
            && (forall i :: 0 <= i < |rows| ==> rows[i].result.points < (if l == 900 then 950 else l + 100)))
  {
    var m := MaxPoints(rows);
    TierLevels(m);
    if m > 0 {
      var i :| 0 <= i < |rows| && rows[i].result.points == m;
    }
  }

  /** The tier of a score: the highest threshold it reaches. */
  lemma {:induction false} TierLevels(m: int)
    ensures TierBadge(m) == Some(Goat) <==> m >= 950
    ensures TierBadge(m).None? <==> m < 500
    ensures TierBadge(m).Some? && TierBadge(m).value.Club? ==>
      var l := TierBadge(m).value.level;
      l % 100 == 0 && 500 <= l <= 900 && l <= m < (if l == 900 then 950 else l + 100)
  {
  }

  /** Speedster, Endurance Beast and Podium Regular: each badge comes exactly from its own
      test over the athlete's rows. */
  lemma {:induction false} BadgesCorrect(athleteId: string, rows: seq<AthleteRow>, athletes: seq<Athlete>,
                      standards: seq<EventStandard>, sessions: seq<RaceSession>)
    ensures var b := Badges(athleteId, rows, athletes, standards, sessions);
      && (Speedster in b <==> exists i :: 0 <= i < |rows| && SpeedRow(standards, rows[i]))
      && (EnduranceBeast in b <==> exists i :: 0 <= i < |rows| && EnduranceRow(standards, rows[i]))
      && (PodiumRegular in b <==> CountBy(rows, RowPodiumBadge) >= 3)
  {
    BadgeMember(Speedster, athleteId, rows, athletes, standards, sessions);
    BadgeMember(EnduranceBeast, athleteId, rows, athletes, standards, sessions);
    BadgeMember(PodiumRegular, athleteId, rows, athletes, standards, sessions);
  }

  /** Streak and Emerging Star: two wins leading the finished rows; one to five finished
      rows with more than 700 points per row on average. */
  lemma {:induction false} BadgesFormCorrect(athleteId: string, rows: seq<AthleteRow>, athletes: seq<Athlete>,
                          standards: seq<EventStandard>, sessions: seq<RaceSession>)
    ensures var b := Badges(athleteId, rows, athletes, standards, sessions);
      var f := FinishedRows(rows);
      && (StreakWins in b <==> |f| >= 2 && f[0].result.rank == 1 && f[1].result.rank == 1)
      && (EmergingStar in b <==>
            var runs := CountBy(rows, RowFinished);
            0 < runs <= 5 && SumBy(rows, RowPoints) > 700 * |rows|)
  {
    BadgeMember(StreakWins, athleteId, rows, athletes, standards, sessions);
    BadgeMember(EmergingStar, athleteId, rows, athletes, standards, sessions);
    StreakOfTwo(rows);
  }

  /** Membership of one of the flag badges in `getBadges`. */
  lemma {:induction false} BadgeMember(x: Badge, athleteId: string, rows: seq<AthleteRow>, athletes: seq<Athlete>,
                    standards: seq<EventStandard>, sessions: seq<RaceSession>)
    requires !x.Goat? && !x.Club? && !x.Climber?
    ensures x in Badges(athleteId, rows, athletes, standards, sessions) <==>
      (x == Speedster && HasSpeed(standards, rows)) || (x == EnduranceBeast && HasEndurance(standards, rows))
      || (x == StreakWins && WinStreak(rows) >= 2) || (x == EmergingStar && IsEmerging(rows))
      || (x == PodiumRegular && CountBy(rows, RowPodiumBadge) >= 3)
  {
    TierKind(MaxPoints(rows));
    ClimberKind(athletes, sessions, athleteId);
    BadgeListMembers(x, TierBadge(MaxPoints(rows)), HasSpeed(standards, rows), HasEndurance(standards, rows),
      WinStreak(rows) >= 2, IsEmerging(rows), CountBy(rows, RowPodiumBadge) >= 3,
      ClimberBadge(athletes, sessions, athleteId));
  }

  /** The tier badge, when there is one, is the GOAT or a club badge. */
  lemma {:induction false} TierKind(maxPoints: int)
    ensures var t := TierBadge(maxPoints); t.None? || t.value.Goat? || t.value.Club?
  {
  }

  /** The last badge, when there is one, is a Climber badge. */
  lemma {:induction false} ClimberKind(athletes: seq<Athlete>, sessions: seq<RaceSession>, athleteId: string)
    ensures var c := ClimberBadge(athletes, sessions, athleteId); c.None? || c.value.Climber?
  {
  }

  /** A streak of two or more means the first two finished rows are wins. */
  lemma {:induction false} StreakOfTwo(rows: seq<AthleteRow>)
    ensures var f := FinishedRows(rows);
      WinStreak(rows) >= 2 <==> |f| >= 2 && f[0].result.rank == 1 && f[1].result.rank == 1
  {
    WinStreakCorrect(rows);
  }

  /** Each test adds its own badge and no other. */
  lemma {:induction false} BadgeListMembers(x: Badge, tier: Option<Badge>, speed: bool, endurance: bool, streak: bool,
                         emerging: bool, podium: bool, climber: Option<Badge>)
    requires tier.None? || tier.value.Goat? || tier.value.Club?
    requires climber.None? || climber.value.Climber?
    requires !x.Goat? && !x.Club? && !x.Climber?
    ensures x in BadgeList(tier, speed, endurance, streak, emerging, podium, climber) <==>
      (x == Speedster && speed) || (x == EnduranceBeast && endurance) || (x == StreakWins && streak)
      || (x == EmergingStar && emerging) || (x == PodiumRegular && podium)
  {
    var head := OptBadge(tier);
    var tail := OptBadge(climber);
    assert x !in head;
    assert x !in tail;
    var s1, s2, s3, s4, s5 := If(speed, Speedster), If(endurance, EnduranceBeast), If(streak, StreakWins),
      If(emerging, EmergingStar), If(podium, PodiumRegular);
    var l := BadgeList(tier, speed, endurance, streak, emerging, podium, climber);
    assert l == head + s1 + s2 + s3 + s4 + s5 + tail;
    assert x in l <==> x in head + s1 + s2 + s3 + s4 + s5;
    assert x in l <==> x in head + s1 + s2 + s3 + s4 || x in s5;
    assert x in l <==> x in head + s1 + s2 + s3 || x in s4 || x in s5;
    assert x in l <==> x in head + s1 + s2 || x in s3 || x in s4 || x in s5;
    assert x in l <==> x in head + s1 || x in s2 || x in s3 || x in s4 || x in s5;
    assert x in l <==> x in s1 || x in s2 || x in s3 || x in s4 || x in s5;
  }

  /** A real average above 700 means a total above 700 per row. */
  lemma {:induction false} AverageAbove(total: int, n: int)
    requires n > 0
    ensures (total as real) / (n as real) > 700.0 <==> total > 700 * n
  {
    var avg := (total as real) / (n as real);
    assert avg * (n as real) == total as real;
    assert (avg - 700.0) * (n as real) == (total - 700 * n) as real;
    SignOfProduct(avg - 700.0, n as real);
  }

  /** With a positive factor, a product is positive exactly when the other factor is. */
  lemma {:induction false} SignOfProduct(x: real, y: real)
    requires y > 0.0
    ensures x * y > 0.0 <==> x > 0.0
  {
    if x > 0.0 {
      assert x * y > 0.0;
    } else {
      assert x * y <= 0.0;
    }
  }

  /** A Climber badge goes only to a known active athlete, when there is more than one
      session and the athlete has a row outside the latest one; it moves up from the
      rank computed without the latest session to a better rank of at least 1 computed
      over all of them. */
  lemma {:induction false} ClimberCorrect(athletes: seq<Athlete>, sessions: seq<RaceSession>, athleteId: string)
    requires ClimberBadge(athletes, sessions, athleteId).Some?
    ensures var c := ClimberBadge(athletes, sessions, athleteId).value;
      var subject := FindAthlete(athletes, athleteId);
      var latestId := SortBy(sessions, DateDescLe)[0].id;
      && c.Climber?
      && 1 <= c.to < c.from <= |ActiveAthletes(athletes)|
      && c.to == CalculateRank(athletes, athleteId, sessions)
      && c.from == CalculateRank(athletes, athleteId, WithoutSession(sessions, latestId))
      && |sessions| > 1
      && subject.Some? && subject.value.isActive
      && exists s :: s in sessions && s.id != latestId && HasResult(s.results, athleteId)
  {
    CalculateRankZero(athletes, athleteId, sessions);
    var prev := WithoutSession(sessions, SortBy(sessions, DateDescLe)[0].id);
    var i :| 0 <= i < |prev| && HasResult(prev[i].results, athleteId);
    assert prev[i] in prev;
  }

  /** Conversely, more than one session, a row outside the latest one and a rank over
      all sessions that is at least 1 and better than the rank without the latest
      session earn the Climber badge between those two ranks. */
  lemma {:induction false} ClimberGiven(athletes: seq<Athlete>, sessions: seq<RaceSession>, athleteId: string, s: RaceSession)
    requires |sessions| > 1
    requires s in sessions && s.id != SortBy(sessions, DateDescLe)[0].id && HasResult(s.results, athleteId)
    requires var prevRank := CalculateRank(athletes, athleteId, WithoutSession(sessions, SortBy(sessions, DateDescLe)[0].id));
      0 < CalculateRank(athletes, athleteId, sessions) < prevRank
    ensures ClimberBadge(athletes, sessions, athleteId)
      == Some(Climber(CalculateRank(athletes, athleteId, WithoutSession(sessions, SortBy(sessions, DateDescLe)[0].id)),
                      CalculateRank(athletes, athleteId, sessions)))
  {
    var prev := WithoutSession(sessions, SortBy(sessions, DateDescLe)[0].id);
    assert s in prev;
    var i :| 0 <= i < |prev| && prev[i] == s;
  }

  // ---------------------------------------------------------------------------
  // Profile figures

  /** A result with its session's date, event, name and id. */
  function RowOf(s: RaceSession, r: RaceResult): AthleteRow {
    AthleteRow(r, s.date, s.eventId, s.name, s.id)
  }

  /** `s.results.map(r => ({ ...r, date: s.date, ... }))` */
  function SessionRows(s: RaceSession, results: seq<RaceResult>): (rows: seq<AthleteRow>)
    ensures |rows| == |results|
  {
    if |results| == 0 then [] else [RowOf(s, results[0])] + SessionRows(s, results[1..])
  }

  /** `sessions.flatMap(...)`: every row of every session, in order. */
  function RawRows(sessions: seq<RaceSession>): seq<AthleteRow> {
    if |sessions| == 0 then [] else SessionRows(sessions[0], sessions[0].results) + RawRows(sessions[1..])
  }

  /** `filter(r => r.athleteId === athleteId)` */
  function RowsOfAthlete(rows: seq<AthleteRow>, athleteId: string): seq<AthleteRow> {
    if |rows| == 0 then []
    else (if rows[0].result.athleteId == athleteId then [rows[0]] else []) + RowsOfAthlete(rows[1..], athleteId)
  }

  function RowResult(r: AthleteRow): RaceResult {
    r.result
  }

  /** The comparator `new Date(b.date) - new Date(a.date)`: most recent first. */
  predicate RowDateDescLe(a: AthleteRow, b: AthleteRow) {
    StrLe(b.date, a.date)
  }

  /** The athlete's rows, most recent first; ties keep the session order. */
  function RecentRaces(sessions: seq<RaceSession>, athleteId: string): seq<AthleteRow> {
    SortBy(RowsOfAthlete(RawRows(sessions), athleteId), RowDateDescLe)
  }

  /** The wins test `r.time > 0 && r.rank === 1`. */
  predicate RowWin(r: AthleteRow) {
    r.result.time > 0 && r.result.rank == 1
  }

  /** The podium test of the profile, `r.time > 0 && r.rank > 0 && r.rank <= 3`. */
  predicate RowPodium(r: AthleteRow) {
    r.result.time > 0 && r.result.rank > 0 && r.result.rank <= 3
  }

  /** A finished row counts the distance of its event, when the event is known. */
  function RowDistance(standards: seq<EventStandard>, r: AthleteRow): real {
    if r.result.time <= 0 then 0.0
    else match FindStandard(standards, r.eventId)
      case Some(evt) => EventDistance(evt.name)
      case None => 0.0
  }

  /** The `reduce` of the distances, in metres. */
  function TotalDistance(standards: seq<EventStandard>, rows: seq<AthleteRow>): real {
    if |rows| == 0 then 0.0 else RowDistance(standards, rows[0]) + TotalDistance(standards, rows[1..])
  }

  datatype AthleteStats = AthleteStats(
    rank: int, racesRun: nat, wins: nat, podiums: nat, totalPoints: int, avgPoints: int,
    totalDistance: real, recentRaces: seq<AthleteRow>, badges: seq<Badge>)

  /** `getAthleteStats`; the distance stays in metres. */
  function AthleteStatsOf(athletes: seq<Athlete>, standards: seq<EventStandard>, sessions: seq<RaceSession>,
                          athleteId: string): AthleteStats
  {
    var currentRank := CalculateRank(athletes, athleteId, sessions);
    var athleteResults := RecentRaces(sessions, athleteId);
    var totalPoints := SumBy(athleteResults, RowPoints);
    var totalEntries := |athleteResults|;
    AthleteStats(
      currentRank,
      CountBy(athleteResults, RowFinished),
      CountBy(athleteResults, RowWin),
      CountBy(athleteResults, RowPodium),
      totalPoints,
      RoundedAverage(totalPoints, totalEntries),
      TotalDistance(standards, athleteResults),
      athleteResults,
      Badges(athleteId, athleteResults, athletes, standards, sessions))
  }

  /** The athlete's rows, stripped of their session fields, are the athlete's results. */
  lemma {:induction false} AthleteRowsResults(sessions: seq<RaceSession>, athleteId: string)
    ensures Map(RowsOfAthlete(RawRows(sessions), athleteId), RowResult) == ResultsOf(sessions, athleteId)
  {
    if |sessions| > 0 {
      var head := SessionRows(sessions[0], sessions[0].results);
      AthleteRowsResults(sessions[1..], athleteId);
      RowsOfAthleteConcat(head, RawRows(sessions[1..]), athleteId);
      MapConcat(RowsOfAthlete(head, athleteId), RowsOfAthlete(RawRows(sessions[1..]), athleteId), RowResult);
      SessionRowsResults(sessions[0], sessions[0].results, athleteId);
    }
  }

  lemma {:induction false} RowsOfAthleteConcat(a: seq<AthleteRow>, b: seq<AthleteRow>, athleteId: string)
    ensures RowsOfAthlete(a + b, athleteId) == RowsOfAthlete(a, athleteId) + RowsOfAthlete(b, athleteId)
  {
    if |a| == 0 {
      assert a + b == b;
    } else {
      var head := if a[0].result.athleteId == athleteId then [a[0]] else [];
      assert (a + b)[0] == a[0];
      assert (a + b)[1..] == a[1..] + b;
      assert RowsOfAthlete(a + b, athleteId) == head + RowsOfAthlete(a[1..] + b, athleteId);
      RowsOfAthleteConcat(a[1..], b, athleteId);
      assert RowsOfAthlete(a, athleteId) == head + RowsOfAthlete(a[1..], athleteId);
    }
  }

  lemma {:induction false} SessionRowsResults(s: RaceSession, results: seq<RaceResult>, athleteId: string)
    ensures Map(RowsOfAthlete(SessionRows(s, results), athleteId), RowResult) == RowsFor(results, athleteId)
  {
    if |results| > 0 {
      var rows := SessionRows(s, results);
      assert rows[1..] == SessionRows(s, results[1..]);
      SessionRowsResults(s, results[1..], athleteId);
      var first := if results[0].athleteId == athleteId then [rows[0]] else [];
      MapConcat(first, RowsOfAthlete(rows[1..], athleteId), RowResult);
    }
  }

  /** Every row of the flattened list is a result of one of the sessions, with that
      session's fields. */
  lemma {:induction false} RawRowsOrigin(sessions: seq<RaceSession>)
    ensures forall r :: r in RawRows(sessions) ==>
      exists i :: 0 <= i < |sessions| && r.result in sessions[i].results && r == RowOf(sessions[i], r.result)
  {
    if |sessions| > 0 {
      RawRowsOrigin(sessions[1..]);
      SessionRowsOrigin(sessions[0], sessions[0].results);
      forall r | r in RawRows(sessions)
        ensures exists i :: 0 <= i < |sessions| && r.result in sessions[i].results && r == RowOf(sessions[i], r.result)
      {
        if r !in SessionRows(sessions[0], sessions[0].results) {
          var i :| 0 <= i < |sessions[1..]| && r.result in sessions[1..][i].results && r == RowOf(sessions[1..][i], r.result);
          assert sessions[1..][i] == sessions[i + 1];
        }
      }
    }
  }

  lemma {:induction false} SessionRowsOrigin(s: RaceSession, results: seq<RaceResult>)
    ensures forall r :: r in SessionRows(s, results) ==> r.result in results && r == RowOf(s, r.result)
  {
    if |results| > 0 {
      SessionRowsOrigin(s, results[1..]);
      assert results == [results[0]] + results[1..];
    }
  }

  lemma {:induction false} RowsOfAthleteMembers(rows: seq<AthleteRow>, athleteId: string)
    ensures forall r :: r in RowsOfAthlete(rows, athleteId) <==> r in rows && r.result.athleteId == athleteId
  {
    if |rows| > 0 {
      RowsOfAthleteMembers(rows[1..], athleteId);
      assert rows == [rows[0]] + rows[1..];
    }
  }

  /** The profile's point sum is the sum over the results, in any order. */
  lemma {:induction false} RowPointsSum(rows: seq<AthleteRow>)
    ensures SumBy(rows, RowPoints) == SumPoints(Map(rows, RowResult))
    ensures CountBy(rows, RowFinished) == CountFinished(Map(rows, RowResult))
  {
    if |rows| > 0 {
      var n := |rows| - 1;
      RowPointsSum(rows[..n]);
      assert rows == rows[..n] + [rows[n]];
      SumByConcat(rows[..n], [rows[n]], RowPoints);
      CountByConcat(rows[..n], [rows[n]], RowFinished);
      assert Map(rows, RowResult)[..n] == Map(rows[..n], RowResult);
    }
  }

  lemma {:induction false} RowDateDescLeOrder()
    ensures TotalPreorder(RowDateDescLe)
  {
    StrLeOrder();
  }

  /** The recent races are the athlete's results with their sessions' fields, most
      recent first. */
  lemma {:induction false} RecentRacesCorrect(sessions: seq<RaceSession>, athleteId: string)
    ensures var recent := RecentRaces(sessions, athleteId);
      && multiset(Map(recent, RowResult)) == multiset(ResultsOf(sessions, athleteId))
      && SortedBy(recent, RowDateDescLe)
      && forall r :: r in recent ==>
           r.result.athleteId == athleteId
           && exists i :: 0 <= i < |sessions| && r.result in sessions[i].results && r == RowOf(sessions[i], r.result)
  {
    var rows := RowsOfAthlete(RawRows(sessions), athleteId);
    AthleteRowsResults(sessions, athleteId);
    SortByProjectPermutes(rows, RowDateDescLe, RowResult);
    RowDateDescLeOrder();
    SortBySorted(rows, RowDateDescLe);
    RawRowsOrigin(sessions);
    RowsOfAthleteMembers(RawRows(sessions), athleteId);
    forall r | r in SortBy(rows, RowDateDescLe) ensures r in rows {
      InSortBy(rows, RowDateDescLe, r);
    }
  }

  /** The profile's figures agree with the leaderboard: the same points total and
      rounded average and the same count of finished races; wins are podiums and
      podiums are finished races. */
  lemma {:induction false} AthleteStatsCorrect(athletes: seq<Athlete>, standards: seq<EventStandard>, sessions: seq<RaceSession>,
                            athleteId: string)
    ensures var st := AthleteStatsOf(athletes, standards, sessions, athleteId);
      var rs := ResultsOf(sessions, athleteId);
      && st.totalPoints == SumPoints(rs)
      && st.avgPoints == AverageOf(sessions, athleteId)
      && st.racesRun == CountFinished(rs)
      && st.wins <= st.podiums <= st.racesRun <= |rs|
      && |st.recentRaces| == |rs|
  {
    var rows := RowsOfAthlete(RawRows(sessions), athleteId);
    var recent := SortBy(rows, RowDateDescLe);
    AthleteRowsResults(sessions, athleteId);
    SumBySortBy(rows, RowDateDescLe, RowPoints, RowFinished);
    RowPointsSum(rows);
    CountByImplies(recent, RowWin, RowPodium);
    CountByImplies(recent, RowPodium, RowFinished);
  }
}

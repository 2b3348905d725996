/** The data hook's store (hooks/useAthleticsData.ts): four collections that the actions
    replace in place, the points law it scores with, and the session recorder. */
module Store {
  import opened Wrappers
  import opened Text
  import opened Seqs
  import opened Types
  import opened Utils
  import opened Scoring

  /** `prev.map(a => a.id === id ? { ...a, isActive: !a.isActive } : a)` */
  function Toggled(athletes: seq<Athlete>, id: string): (r: seq<Athlete>)
    ensures |r| == |athletes|
    ensures forall i :: 0 <= i < |athletes| ==>
      r[i] == (if athletes[i].id == id then athletes[i].(isActive := !athletes[i].isActive) else athletes[i])
  {
    if |athletes| == 0 then []
    else
      var a := athletes[0];
      [if a.id == id then a.(isActive := !a.isActive) else a] + Toggled(athletes[1..], id)
  }

  /** Toggling flips only the athletes with that id, and toggling twice restores the roster. */
  lemma {:induction false} ToggleInvolution(athletes: seq<Athlete>, id: string)
    ensures forall i :: 0 <= i < |athletes| ==>
      Toggled(athletes, id)[i].isActive == (athletes[i].isActive != (athletes[i].id == id))
    ensures Toggled(Toggled(athletes, id), id) == athletes
  {
  }

  /** `prev.map(s => s.id === updated.id ? updated : s)` */
  function Replaced(standards: seq<EventStandard>, updated: EventStandard): (r: seq<EventStandard>)
    ensures |r| == |standards|
  {
    if |standards| == 0 then []
    else [if standards[0].id == updated.id then updated else standards[0]] + Replaced(standards[1..], updated)
  }

  /** Every standard with the id becomes `updated`, the rest are kept, and updating
      again changes nothing. */
  lemma {:induction false} ReplacedCorrect(standards: seq<EventStandard>, updated: EventStandard)
    ensures forall i :: 0 <= i < |standards| ==>
      Replaced(standards, updated)[i] == (if standards[i].id == updated.id then updated else standards[i])
    ensures Replaced(Replaced(standards, updated), updated) == Replaced(standards, updated)
    ensures FindStandard(standards, updated.id).Some? ==> FindStandard(Replaced(standards, updated), updated.id) == Some(updated)
  {
    if |standards| > 0 {
      ReplacedCorrect(standards[1..], updated);
      assert Replaced(standards, updated)[1..] == Replaced(standards[1..], updated);
    }
  }

  /** `athletes.filter(a => a.id !== id)` */
  function WithoutAthlete(athletes: seq<Athlete>, id: string): (r: seq<Athlete>)
    ensures forall a :: a in r <==> a in athletes && a.id != id
  {
    if |athletes| == 0 then []
    else (if athletes[0].id != id then [athletes[0]] else []) + WithoutAthlete(athletes[1..], id)
  }

  /** The athletes kept stay in roster order, each as often as before. */
  lemma {:induction false} WithoutAthleteKeeps(athletes: seq<Athlete>, id: string)
    ensures Subsequence(WithoutAthlete(athletes, id), athletes)
    ensures forall a :: multiset(WithoutAthlete(athletes, id))[a] == if a.id != id then multiset(athletes)[a] else 0
  {
    if |athletes| > 0 {
      WithoutAthleteKeeps(athletes[1..], id);
      assert athletes == [athletes[0]] + athletes[1..];
      SubsequenceCons(athletes[0], WithoutAthlete(athletes[1..], id), athletes[1..], athletes[0].id != id);
    }
  }

  /** `routes.filter(r => r.id !== id)` */
  function WithoutRoute(routes: seq<Route>, id: string): (r: seq<Route>)
    ensures forall x :: x in r <==> x in routes && x.id != id
  {
    if |routes| == 0 then []
    else (if routes[0].id != id then [routes[0]] else []) + WithoutRoute(routes[1..], id)
  }

  /** The routes kept stay in order, so the first of them is the first other route. */
  lemma {:induction false} WithoutRouteKeeps(routes: seq<Route>, id: string)
    ensures Subsequence(WithoutRoute(routes, id), routes)
    ensures forall x :: multiset(WithoutRoute(routes, id))[x] == if x.id != id then multiset(routes)[x] else 0
  {
    if |routes| > 0 {
      WithoutRouteKeeps(routes[1..], id);
      assert routes == [routes[0]] + routes[1..];
      SubsequenceCons(routes[0], WithoutRoute(routes[1..], id), routes[1..], routes[0].id != id);
    }
  }

  /** `sessions.filter(s => s.id !== id)` */
  function WithoutSession(sessions: seq<RaceSession>, id: string): (r: seq<RaceSession>)
    ensures forall x :: x in r <==> x in sessions && x.id != id
  {
    if |sessions| == 0 then []
    else (if sessions[0].id != id then [sessions[0]] else []) + WithoutSession(sessions[1..], id)
  }

  /** The sessions kept stay in order, each as often as before. */
  lemma {:induction false} WithoutSessionKeeps(sessions: seq<RaceSession>, id: string)
    ensures Subsequence(WithoutSession(sessions, id), sessions)
    ensures forall x :: multiset(WithoutSession(sessions, id))[x] == if x.id != id then multiset(sessions)[x] else 0
  {
    if |sessions| > 0 {
      WithoutSessionKeeps(sessions[1..], id);
      assert sessions == [sessions[0]] + sessions[1..];
      SubsequenceCons(sessions[0], WithoutSession(sessions[1..], id), sessions[1..], sessions[0].id != id);
    }
  }

  /** Deleting an id that no row carries changes nothing. */
  lemma {:induction false} DeleteAbsent(athletes: seq<Athlete>, routes: seq<Route>, sessions: seq<RaceSession>, id: string)
    requires forall i :: 0 <= i < |athletes| ==> athletes[i].id != id
    requires forall i :: 0 <= i < |routes| ==> routes[i].id != id
    requires forall i :: 0 <= i < |sessions| ==> sessions[i].id != id
    ensures WithoutAthlete(athletes, id) == athletes
    ensures WithoutRoute(routes, id) == routes
    ensures WithoutSession(sessions, id) == sessions
  {
    DeleteAbsentAthlete(athletes, id);
    DeleteAbsentRoute(routes, id);
    DeleteAbsentSession(sessions, id);
  }

  lemma {:induction false} DeleteAbsentAthlete(athletes: seq<Athlete>, id: string)
    requires forall i :: 0 <= i < |athletes| ==> athletes[i].id != id
    ensures WithoutAthlete(athletes, id) == athletes
  {
    if |athletes| > 0 {
      DeleteAbsentAthlete(athletes[1..], id);
      assert [athletes[0]] + athletes[1..] == athletes;
    }
  }

  lemma {:induction false} DeleteAbsentRoute(routes: seq<Route>, id: string)
    requires forall i :: 0 <= i < |routes| ==> routes[i].id != id
    ensures WithoutRoute(routes, id) == routes
  {
    if |routes| > 0 {
      DeleteAbsentRoute(routes[1..], id);
      assert [routes[0]] + routes[1..] == routes;
    }
  }

  lemma {:induction false} DeleteAbsentSession(sessions: seq<RaceSession>, id: string)
    requires forall i :: 0 <= i < |sessions| ==> sessions[i].id != id
    ensures WithoutSession(sessions, id) == sessions
  {
    if |sessions| > 0 {
      DeleteAbsentSession(sessions[1..], id);
      assert [sessions[0]] + sessions[1..] == sessions;
    }
  }

  class AthleticsStore {
    var athletes: seq<Athlete>
    var standards: seq<EventStandard>
    var sessions: seq<RaceSession>
    var routes: seq<Route>
    /** `Math.pow` as the points formula uses it. */
    const law: PowerLaw

    /** The store once its collections are loaded. */
    constructor(athletes: seq<Athlete>, standards: seq<EventStandard>, sessions: seq<RaceSession>,
                routes: seq<Route>, law: PowerLaw)
      ensures this.athletes == athletes && this.standards == standards
      ensures this.sessions == sessions && this.routes == routes && this.law == law
    {
      this.athletes := athletes;
      this.standards := standards;
      this.sessions := sessions;
      this.routes := routes;
      this.law := law;
    }

    /** `addAthlete`; `id` stands for the generated id. */
    method AddAthlete(id: string, name: string, faculty: string, batch: string, photoUrl: string, initialPBs: seq<PB>)
      modifies this
      ensures athletes == old(athletes) + [Athlete(id, name, faculty, batch, photoUrl, initialPBs, true)]
      ensures standards == old(standards) && sessions == old(sessions) && routes == old(routes)
    {
      athletes := athletes + [Athlete(id, name, faculty, batch, photoUrl, initialPBs, true)];
    }

    method DeleteAthlete(id: string)
      modifies this
      ensures athletes == WithoutAthlete(old(athletes), id)
      ensures standards == old(standards) && sessions == old(sessions) && routes == old(routes)
    {
      athletes := WithoutAthlete(athletes, id);
    }

    method ToggleAthleteStatus(id: string)
      modifies this
      ensures athletes == Toggled(old(athletes), id)
      ensures standards == old(standards) && sessions == old(sessions) && routes == old(routes)
    {
      athletes := Toggled(athletes, id);
    }

    method UpdateStandard(updated: EventStandard)
      modifies this
      ensures standards == Replaced(old(standards), updated)
      ensures athletes == old(athletes) && sessions == old(sessions) && routes == old(routes)
    {
      standards := Replaced(standards, updated);
    }

    method AddStandard(id: string, name: string, goldTime: Time, kValue: real)
      modifies this
      ensures standards == old(standards) + [EventStandard(id, name, goldTime, kValue)]
      ensures athletes == old(athletes) && sessions == old(sessions) && routes == old(routes)
    {
      standards := standards + [EventStandard(id, name, goldTime, kValue)];
    }

    method AddRoute(id: string, name: string, distance: string, elevation: string)
      modifies this
      ensures routes == old(routes) + [Route(id, name, distance, elevation, "")]
      ensures athletes == old(athletes) && standards == old(standards) && sessions == old(sessions)
    {
      routes := routes + [Route(id, name, distance, elevation, "")];
    }

    method DeleteRoute(id: string)
      modifies this
      ensures routes == WithoutRoute(old(routes), id)
      ensures athletes == old(athletes) && standards == old(standards) && sessions == old(sessions)
    {
      routes := WithoutRoute(routes, id);
    }

    method DeleteSession(id: string)
      modifies this
      ensures sessions == WithoutSession(old(sessions), id)
      ensures athletes == old(athletes) && standards == old(standards) && routes == old(routes)
    {
      sessions := WithoutSession(sessions, id);
    }

    /** `importData`: each collection present in the data replaces the stored one. */
    method ImportData(newAthletes: Option<seq<Athlete>>, newStandards: Option<seq<EventStandard>>,
                      newRoutes: Option<seq<Route>>, newSessions: Option<seq<RaceSession>>)
      modifies this
      ensures athletes == (if newAthletes.Some? then newAthletes.value else old(athletes))
      ensures standards == (if newStandards.Some? then newStandards.value else old(standards))
      ensures routes == (if newRoutes.Some? then newRoutes.value else old(routes))
      ensures sessions == (if newSessions.Some? then newSessions.value else old(sessions))
    {
      if newAthletes.Some? { athletes := newAthletes.value; }
      if newStandards.Some? { standards := newStandards.value; }
      if newRoutes.Some? { routes := newRoutes.value; }
      if newSessions.Some? { sessions := newSessions.value; }
    }

    /** `calculatePenalty` over the stored sessions. */
    method CalculatePenalty(lastPlacePoints: int, athleteId: string, date: string) returns (penalty: int)
      ensures penalty == Penalty(lastPlacePoints, athleteId, date, sessions)
    {
      var history := History(sessions, date);
      var lastResult: Option<int> := None;
      var i := 0;
      while i < |history|
        invariant 0 <= i <= |history|
        invariant LastResultPoints(history, athleteId) == LastResultPoints(history[i..], athleteId)
      {
        var res := FindResult(history[i].results, athleteId);
        if res.Some? {
          lastResult := Some(res.value.points);
          break;
        }
        assert history[i..][1..] == history[i + 1..];
        i := i + 1;
      }
      assert lastResult == LastResultPoints(history, athleteId);
      penalty := Max0(lastPlacePoints - 20);
      if lastResult.Some? {
        var historyCap := Max0(lastResult.value - 20);
        if penalty > historyCap {
          penalty := historyCap;
        }
      }
    }

    /** The `missingAthletes.forEach` loop: one penalty row per missing athlete, ranked
        after the rows already there. */
    method AppendPenalties(scored: seq<RaceResult>, missing: seq<Athlete>, lastPlacePoints: int, date: string)
      returns (results: seq<RaceResult>)
      ensures results == scored + PenaltyRows(missing, lastPlacePoints, |scored|, sessions, date)
    {
      results := scored;
      var k := 0;
      while k < |missing|
        invariant 0 <= k <= |missing|
        invariant results == scored + PenaltyRows(missing[..k], lastPlacePoints, |scored|, sessions, date)
      {
        var p := CalculatePenalty(lastPlacePoints, missing[k].id, date);
        results := results + [RaceResult(missing[k].id, 0, p, |results| + 1, [PenaltyTag], MissedNote)];
        assert missing[..k + 1][..k] == missing[..k];
        k := k + 1;
      }
      assert missing[..k] == missing;
    }

    /** The `for (const r of results)` loop rebuilding `updatedAthletes`. */
    method UpdatedAthletes(results: seq<RaceResult>, eventId: string, meta: SessionMeta) returns (updated: seq<Athlete>)
      ensures updated == FoldPBs(athletes, results, eventId, meta)
    {
      updated := athletes;
      for i := 0 to |results|
        invariant updated == FoldPBs(athletes, results[..i], eventId, meta)
      {
        assert results[..i + 1][..i] == results[..i];
        if results[i].time > 0 {
          updated := ApplyResult(updated, results[i], eventId, meta);
        }
      }
      assert results[..|results|] == results;
    }

    /** `results[0].tags.push('CR')` on the ranked rows, when the winner beats the course
        record of a set route. */
    static method MarkCourseRecord(ranked: seq<RaceResult>, record: Option<Time>, routeId: string)
      returns (results: seq<RaceResult>)
      ensures results == WithCourseRecord(ranked, record, routeId)
    {
      results := ranked;
      if |results| > 0 && Below(results[0].time, record) && routeId != "" {
        results := results[0 := results[0].(tags := results[0].tags + [CRTag])];
        assert results == [ranked[0].(tags := ranked[0].tags + [CRTag])] + ranked[1..];
      }
    }

    /** `recordSession(meta, entries)`; `id` stands for the generated session id. With an
        unknown event nothing changes; otherwise the session is appended and the PB
        tables are updated from its results. */
    method RecordSession(meta: SessionMeta, entries: seq<Entry>, id: string)
      modifies this
      ensures standards == old(standards) && routes == old(routes)
      ensures FindStandard(old(standards), meta.eventId).None? ==>
        athletes == old(athletes) && sessions == old(sessions)
      ensures FindStandard(old(standards), meta.eventId).Some? ==>
        var event := FindStandard(old(standards), meta.eventId).value;
        var results := SessionResults(meta, entries, event, old(athletes), old(sessions), law);
        && sessions == old(sessions) + [RecordedSession(id, meta, results)]
        && athletes == FoldPBs(old(athletes), results, event.id, meta)
    {
      var found := FindStandard(standards, meta.eventId);
      if found.None? {
        return;
      }
      var event := found.value;
      var courseRecordTime := CourseRecordTime(sessions, meta.routeId);
      var sorted := SortBy(ScoreAll(entries, event, athletes, sessions, meta.date, law), TimeLe);
      var results := MarkCourseRecord(Ranked(sorted, entries, 0), courseRecordTime, meta.routeId);
      assert results == ScoredResults(meta, entries, event, athletes, sessions, law);
      if meta.isMandatory {
        results := AppendPenalties(results, Missing(athletes, entries), LastPlacePoints(results), meta.date);
      }
      var updated := UpdatedAthletes(results, event.id, meta);
      athletes := updated;
      sessions := sessions + [RecordedSession(id, meta, results)];
    }
  }
}

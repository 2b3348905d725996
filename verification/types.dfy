/** The club's records (types.ts). Optional text fields are plain strings with ""
    for "absent": the engine tests them for truthiness, falls back with `||`, or
    compares them only after such a test, and in each of these `undefined` and ""
    behave alike. */
module Types {
  import opened Wrappers

  /** Race times in whole hundredths of a second; 0 marks a did-not-start or penalty row. */
  type Time = int

  datatype EventStandard = EventStandard(id: string, name: string, goldTime: Time, kValue: real)

  datatype PB = PB(eventId: string, time: Time, date: string, venue: string)

  datatype Athlete = Athlete(
    id: string,
    name: string,
    faculty: string,
    batch: string,
    photoUrl: string,
    personalBests: seq<PB>,
    isActive: bool)

  /** The result tags "PB", "SB", "CR" and "Penalty". */
  datatype Tag = PBTag | SBTag | CRTag | PenaltyTag

  datatype RaceResult = RaceResult(
    athleteId: string,
    time: Time,
    points: int,
    rank: int,
    tags: seq<Tag>,
    notes: string)

  datatype Route = Route(id: string, name: string, distance: string, elevation: string, description: string)

  datatype RaceSession = RaceSession(
    id: string,
    date: string,
    name: string,
    venue: string,
    routeId: string,
    eventId: string,
    isMandatory: bool,
    results: seq<RaceResult>,
    notes: string)

  /** The metadata of a session being recorded (also the race-entry form's state). */
  datatype SessionMeta = SessionMeta(
    name: string,
    date: string,
    eventId: string,
    isMandatory: bool,
    notes: string,
    venue: string,
    routeId: string)

  /** One validated row of a race entry; `place` is the optional manual place. */
  datatype Entry = Entry(athleteId: string, time: Time, place: Option<int>)

  // ---------------------------------------------------------------------------
  // `find` by id: the first match, or None

  function FindAthlete(athletes: seq<Athlete>, id: string): (r: Option<Athlete>)
    ensures r.Some? ==> r.value in athletes && r.value.id == id
    ensures r.None? <==> forall i :: 0 <= i < |athletes| ==> athletes[i].id != id
  {
    if |athletes| == 0 then None
    else if athletes[0].id == id then Some(athletes[0])
    else FindAthlete(athletes[1..], id)
  }

  /** `find` returns the first athlete with the id. */
  lemma {:induction false} FindAthleteFirst(athletes: seq<Athlete>, id: string) returns (i: nat)
    requires FindAthlete(athletes, id).Some?
    ensures i < |athletes| && athletes[i] == FindAthlete(athletes, id).value
    ensures forall j :: 0 <= j < i ==> athletes[j].id != id
  {
    if athletes[0].id == id {
      i := 0;
    } else {
      var k := FindAthleteFirst(athletes[1..], id);
      i := k + 1;
      forall j | 1 <= j < i ensures athletes[j].id != id {
        assert athletes[j] == athletes[1..][j - 1];
      }
    }
  }

  function FindStandard(standards: seq<EventStandard>, id: string): (r: Option<EventStandard>)
    ensures r.Some? ==> r.value in standards && r.value.id == id
    ensures r.None? <==> forall i :: 0 <= i < |standards| ==> standards[i].id != id
  {
    if |standards| == 0 then None
    else if standards[0].id == id then Some(standards[0])
    else FindStandard(standards[1..], id)
  }

  /** `find` returns the first standard with the id. */
  lemma {:induction false} FindStandardFirst(standards: seq<EventStandard>, id: string) returns (i: nat)
    requires FindStandard(standards, id).Some?
    ensures i < |standards| && standards[i] == FindStandard(standards, id).value
    ensures forall j :: 0 <= j < i ==> standards[j].id != id
  {
    if standards[0].id == id {
      i := 0;
    } else {
      var k := FindStandardFirst(standards[1..], id);
      i := k + 1;
      forall j | 1 <= j < i ensures standards[j].id != id {
        assert standards[j] == standards[1..][j - 1];
      }
    }
  }

  function FindRoute(routes: seq<Route>, id: string): (r: Option<Route>)
    ensures r.Some? ==> r.value in routes && r.value.id == id
    ensures r.None? <==> forall i :: 0 <= i < |routes| ==> routes[i].id != id
  {
    if |routes| == 0 then None
    else if routes[0].id == id then Some(routes[0])
    else FindRoute(routes[1..], id)
  }

  /** `personalBests.find(p => p.eventId === eventId)` */
  function FindPB(pbs: seq<PB>, eventId: string): (r: Option<PB>)
    ensures r.Some? ==> r.value in pbs && r.value.eventId == eventId
    ensures r.None? <==> forall i :: 0 <= i < |pbs| ==> pbs[i].eventId != eventId
  {
    if |pbs| == 0 then None
    else if pbs[0].eventId == eventId then Some(pbs[0])
    else FindPB(pbs[1..], eventId)
  }

  /** `find` returns the first PB of the event. */
  lemma {:induction false} FindPBFirst(pbs: seq<PB>, id: string) returns (i: nat)
    requires FindPB(pbs, id).Some?
    ensures i < |pbs| && pbs[i] == FindPB(pbs, id).value
    ensures forall j :: 0 <= j < i ==> pbs[j].eventId != id
  {
    if pbs[0].eventId == id {
      i := 0;
    } else {
      var k := FindPBFirst(pbs[1..], id);
      i := k + 1;
      forall j | 1 <= j < i ensures pbs[j].eventId != id {
        assert pbs[j] == pbs[1..][j - 1];
      }
    }
  }

  /** `results.find(r => r.athleteId === id)` */
  function FindResult(results: seq<RaceResult>, id: string): (r: Option<RaceResult>)
    ensures r.Some? ==> r.value in results && r.value.athleteId == id
    ensures r.None? <==> forall i :: 0 <= i < |results| ==> results[i].athleteId != id
  {
    if |results| == 0 then None
    else if results[0].athleteId == id then Some(results[0])
    else FindResult(results[1..], id)
  }

  /** `find` returns the first row of the athlete. */
  lemma {:induction false} FindResultFirst(results: seq<RaceResult>, id: string) returns (i: nat)
    requires FindResult(results, id).Some?
    ensures i < |results| && results[i] == FindResult(results, id).value
    ensures forall j :: 0 <= j < i ==> results[j].athleteId != id
  {
    if results[0].athleteId == id {
      i := 0;
    } else {
      var k := FindResultFirst(results[1..], id);
      i := k + 1;
      forall j | 1 <= j < i ensures results[j].athleteId != id {
        assert results[j] == results[1..][j - 1];
      }
    }
  }

  /** `results.some(r => r.athleteId === id)` */
  predicate HasResult(results: seq<RaceResult>, id: string) {
    exists i :: 0 <= i < |results| && results[i].athleteId == id
  }

  lemma {:induction false} FindResultSome(results: seq<RaceResult>, id: string)
    ensures FindResult(results, id).Some? <==> HasResult(results, id)
  {
  }
}

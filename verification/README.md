# Pera Road Race Analytics: a verified model of the scoring and ranking engine

Pera Road Race Analytics keeps a university running club's athletes, event standards
(gold time and exponent per event), routes and recorded race sessions. The model covers
the engine behind its screens:

- turning a race entry form into result rows (`RaceEntry`);
- scoring those rows against the event's gold time, sorting and ranking them, tagging PB,
  SB and course records, and adding penalty rows for a mandatory race (`Scoring`);
- the data store that records sessions and folds new personal bests into the roster
  (`Store`, a class whose four collections are replaced in place);
- the shared averages of the season standings (`Standings`), the leaderboard
  (`Leaderboard`), the roster with its ranks and peaks (`AthleteManager`), an athlete's
  profile, career highs and badges (`AthleteProfile`), the records tables (`Records`) and
  the trends chart with its athlete picker (`Trends`);
- the time formatting and parsing, points law and event-distance helpers (`Utils`).

Support modules: `Wrappers` (Option), `Seqs` (map, filter, a stable insertion sort
`SortBy` proved to be a sorted stable permutation, sums and counts), `Text` (string
order, splitting, lower case, integer printing and parsing) and `Types` (the records and
their `find` lookups).

Representation choices:

- Times are whole hundredths of a second; 0 is "did not start". As in the source, the
  course-record test `results[0].time < courseRecordTime` has no `> 0` guard, so a winner
  row with time 0 (a sorted-first non-start) can be tagged "CR"; the model keeps this.
- Optional strings (venue, route id, faculty, batch, PB date, notes) are `""` when absent.
  Most uses in the source are truthiness tests or `||` fallbacks, where `undefined` and
  `""` behave alike. The few strict comparisons (`s.routeId === meta.routeId` in
  hooks/useAthleticsData.ts:180, `s.routeId === selectedRouteId` in
  components/RecordsList.tsx:155, `athlete?.faculty !== filterFaculty` and
  `athlete?.batch !== filterBatch` in components/RecordsList.tsx:197 and 202) compare against a value that is never `""` where they
  run, because each is guarded by a truthiness test of that value.
- Dates are ISO strings, compared with the lexicographic order `StrLe`.
- `Math.pow(gold / time, k)` is a parameter `law` of the store. The points properties
  assume only that `law(1, k) == 1` and that the law is monotone in its base for `k > 0`.
- Every JavaScript `sort` is the one stable sort `SortBy` under a named comparator.
  A sort whose key depends on other data sorts elements paired with their keys.
- `Math.round(total / n)` for `n > 0` is `(2 * total + n) / (2 * n)` on integers,
  proved to be the nearest integer with halves going up.

## Model

| member | source | states |
|---|---|---|
| Types.FindAthleteFirst | hooks/useAthleticsData.ts:187 | `athletes.find` returns the first athlete with the id |
| Types.FindStandardFirst | hooks/useAthleticsData.ts:174 | `standards.find` returns the first standard with the id |
| Types.FindPBFirst | hooks/useAthleticsData.ts:191 | `personalBests.find` returns the first PB of the event |
| Types.FindResultFirst | hooks/useAthleticsData.ts:157 | `results.find` returns the athlete's first row of the session |
| Utils.FormatTime | utils.ts:4-24 | "DNS" exactly for a zero time, "N/A" exactly for a negative one |
| Utils.Pad2Value | utils.ts:13-23 | the two-digit padding is two characters and reads back as the number |
| Utils.FormatParseShort | utils.ts:4-50 | every positive time below one hour formats to `m:ss.cc` and parses back to itself |
| Utils.FormatParseLong | utils.ts:4-50 | every whole-second time from one hour formats to `h:mm:ss` and parses back to itself |
| Utils.ParseTime | utils.ts:26-50 | a parsed time is never negative |
| Utils.ParseHoursMinutesSeconds | utils.ts:30-36 | three parts read as hours, minutes and seconds |
| Utils.ParseMinutesSeconds | utils.ts:37-42 | two parts read as minutes and seconds |
| Utils.ParseSeconds | utils.ts:43-47 | one part reads as seconds |
| Utils.ParseTooManyParts | utils.ts:28-49 | more than three colon-separated parts never parse |
| Utils.ParseWholeNumeral | utils.ts:28-49 | a digit string reads as that many whole units |
| Utils.ParseDecimalNumeral | utils.ts:28-49 | digits, a point and two digits read as the exact decimal in hundredths |
| Utils.CalculatePoints | utils.ts:52-56 | no points for a zero or negative time |
| Utils.PointsAtGold | utils.ts:52-56 | running exactly the gold time scores 1000 |
| Utils.PointsNonIncreasing | utils.ts:52-56 | a slower time never scores more |
| Utils.OrdinalSuffixCorrect | utils.ts:58-62 | the suffix is the English one for non-negative numbers, and "th" for negative ones |
| Utils.DistanceInKilometres | utils.ts:64-73 | a name with `<n>km` is n thousand metres |
| Utils.DistanceInMetres | utils.ts:64-73 | a name with `<n>m` is n metres |
| Utils.DistanceWithoutDigits | utils.ts:75-83 | a name without digits is resolved by the named fallback entries |
| Utils.DistanceBareNumber | utils.ts:64-83 | a bare number without a unit falls back to the lookup table |
| Utils.SortEventsByDistanceCorrect | utils.ts:86-94 | the sorted events are a permutation of the input, by non-decreasing distance, equal distances by name |
| Scoring.BelowCourseRecord | hooks/useAthleticsData.ts:177-183 | a time beats the course record exactly when it is faster than every finished time on that route so far |
| Scoring.EntryTagsCorrect | hooks/useAthleticsData.ts:185-209 | "PB" exactly when the athlete is known, finished, and has no PB or a slower one; "SB" exactly when the athlete is known, finished, and either earns a PB or beats every earlier finished time of theirs at the event in the race's year and a stored PB dated that year; a PB is always an SB; no CR or Penalty tag here |
| Scoring.EntryTagsSeasonBest | hooks/useAthleticsData.ts:195-205 | "SB" is given exactly under that season-best condition, stated directly over the sessions |
| Scoring.BelowSeasonTimes | hooks/useAthleticsData.ts:196-200 | a time is below `previousSessionBest` exactly when it beats each of the athlete's earlier finished times at the event in that year |
| Scoring.FindEntry | hooks/useAthleticsData.ts:213 | the entry found is one of that athlete, and none is found exactly when no entry has that athlete |
| Scoring.FindEntryFirst | hooks/useAthleticsData.ts:213 | the entry found is the first of that athlete: it sits at an index before which no entry has that athlete |
| Scoring.Ranked | hooks/useAthleticsData.ts:212-215 | each row keeps everything but its rank, which its entry's place or its position gives |
| Scoring.SortedScores | hooks/useAthleticsData.ts:185-211 | the sorted rows are ordered by time and are a permutation of the scored rows, so each is the scored row of an entry |
| Scoring.RankedWithRecord | hooks/useAthleticsData.ts:211-217 | ranking and tagging change only ranks and the first row's tags |
| Scoring.SessionResultsSplit | hooks/useAthleticsData.ts:185-231 | the results are the scored rows followed, in a mandatory race, by the penalty rows |
| Scoring.ScoredRowsSortedAndRanked | hooks/useAthleticsData.ts:211-215 | the entry rows are in time order, each ranked by its manual place when it has one, otherwise by position |
| Scoring.ScoredRowsFromEntries | hooks/useAthleticsData.ts:185-215 | each scored row carries its entry's athlete and time, the points the law gives, and the entry's tags |
| Scoring.ScoredRowsPermuteEntries | hooks/useAthleticsData.ts:185-217 | the session's scored rows carry the entries' (athlete, time) pairs, each exactly as often as among the entries |
| Scoring.SessionHeadPairs | hooks/useAthleticsData.ts:211-217 | ranking and the course-record tag keep each sorted row's athlete and time in place |
| Scoring.ScoreAllPairs | hooks/useAthleticsData.ts:185-209 | scoring keeps each entry's athlete and time |
| Scoring.ScoredTags | hooks/useAthleticsData.ts:185-217 | no scored row carries "Penalty", and only the first may carry "CR" |
| Scoring.CourseRecordTag | hooks/useAthleticsData.ts:217 | at most one "CR": on the first row, exactly when a route is set and the winner beats that route's record |
| Scoring.SessionsUpTo | hooks/useAthleticsData.ts:152 | the sessions kept are exactly those dated on or before the race |
| Scoring.HistoryCorrect | hooks/useAthleticsData.ts:151-153 | the history holds exactly the sessions on or before the race, most recent first |
| Scoring.PenaltyBounds | hooks/useAthleticsData.ts:149-167 | a penalty is never negative and never above last place minus 20 |
| Scoring.PenaltyMostRecent | hooks/useAthleticsData.ts:149-167 | without earlier results the penalty is last place minus 20 (at least 0); otherwise the cap comes from the most recent session with a result |
| Scoring.Missing | hooks/useAthleticsData.ts:220-222 | the missing athletes are exactly the active ones without an entry |
| Scoring.PenaltyRows | hooks/useAthleticsData.ts:225-230 | one penalty row per missing athlete, ranked after the rows already there |
| Scoring.PenaltyRowsCorrect | hooks/useAthleticsData.ts:219-231 | a mandatory race adds one row per missing active athlete with time 0, their penalty, the next rank and the "Penalty" tag; otherwise none |
| Scoring.MergePBCorrect | hooks/useAthleticsData.ts:240-249 | the event's PB becomes the new time when there was none or it was slower; other events' PBs are kept |
| Scoring.ApplyResult | hooks/useAthleticsData.ts:238-252 | one result merges its time into the PB tables of the athletes with its id and leaves the others alone |
| Scoring.PBAfterIsMinimum | hooks/useAthleticsData.ts:233-254 | after the session an athlete's PB for the event is the faster of the old PB and their fastest finished time, dated and placed by this race when it improved, and the old PB unchanged when no time beat it strictly (a tie keeps the old PB) |
| Scoring.FoldPBsAthlete | hooks/useAthleticsData.ts:233-254 | recording changes only the event's PB of each athlete, and nothing for an athlete who did not finish |
| Store.ToggleInvolution | hooks/useAthleticsData.ts:107-113 | toggling flips only the athletes with the id, and toggling twice restores the roster |
| Store.ReplacedCorrect | hooks/useAthleticsData.ts:115-121 | every standard with the id becomes the updated one, and updating twice is the same as once |
| Store.WithoutAthlete | hooks/useAthleticsData.ts:99-105 | an athlete remains exactly when it was there and has another id |
| Store.WithoutAthleteKeeps | hooks/useAthleticsData.ts:99-105 | the athletes kept are a subsequence of the roster, each with another id kept as often as before |
| Store.WithoutRoute | hooks/useAthleticsData.ts:141-147 | a route remains exactly when it was there and has another id |
| Store.WithoutRouteKeeps | hooks/useAthleticsData.ts:141-147 | the routes kept are a subsequence of the routes, each with another id kept as often as before |
| Store.WithoutSession | hooks/useAthleticsData.ts:268-274 | a session remains exactly when it was there and has another id |
| Store.WithoutSessionKeeps | hooks/useAthleticsData.ts:268-274 | the sessions kept are a subsequence of the sessions, each with another id kept as often as before |
| Store.DeleteAbsent | hooks/useAthleticsData.ts:99-274 | deleting an id that nothing carries changes nothing |
| Store.AthleticsStore.constructor | hooks/useAthleticsData.ts:10-14 | the store holds the loaded collections and the points law |
| Store.AthleticsStore.AddAthlete | hooks/useAthleticsData.ts:86-97 | a new active athlete is appended; nothing else changes |
| Store.AthleticsStore.DeleteAthlete | hooks/useAthleticsData.ts:99-105 | the athletes with the id are removed; nothing else changes |
| Store.AthleticsStore.ToggleAthleteStatus | hooks/useAthleticsData.ts:107-113 | the athletes with the id change status; nothing else changes |
| Store.AthleticsStore.UpdateStandard | hooks/useAthleticsData.ts:115-121 | the standards with the id are replaced; nothing else changes |
| Store.AthleticsStore.AddStandard | hooks/useAthleticsData.ts:123-130 | a new standard is appended; nothing else changes |
| Store.AthleticsStore.AddRoute | hooks/useAthleticsData.ts:132-139 | a new route is appended; nothing else changes |
| Store.AthleticsStore.DeleteRoute | hooks/useAthleticsData.ts:141-147 | the routes with the id are removed; nothing else changes |
| Store.AthleticsStore.DeleteSession | hooks/useAthleticsData.ts:268-274 | the sessions with the id are removed; nothing else changes |
| Store.AthleticsStore.ImportData | hooks/useAthleticsData.ts:276-280 | each collection present in the data replaces the stored one |
| Store.AthleticsStore.CalculatePenalty | hooks/useAthleticsData.ts:149-167 | the loop's penalty is the penalty the history defines |
| Store.AthleticsStore.AppendPenalties | hooks/useAthleticsData.ts:219-231 | the loop appends exactly the penalty rows of the missing athletes |
| Store.AthleticsStore.UpdatedAthletes | hooks/useAthleticsData.ts:233-254 | the loop yields the PB fold over the results |
| Store.AthleticsStore.MarkCourseRecord | hooks/useAthleticsData.ts:217 | the ranked rows gain "CR" on the first one exactly as the course-record rule says; no other row changes |
| Store.AthleticsStore.RecordSession | hooks/useAthleticsData.ts:169-266 | an unknown event changes nothing; otherwise the scored session is appended and the PBs folded in, standards and routes untouched |
| Standings.RowsForMembers | components/Leaderboard.tsx:22-42 | an athlete's rows in a session are exactly the rows with their id |
| Standings.ResultsOfEmpty | components/Leaderboard.tsx:22-42 | an athlete has rows exactly when some session has a result for them |
| Standings.RoundedAverageNearest | components/Leaderboard.tsx:33-34 | the rounded average is the integer nearest to the mean, halves going up |
| Standings.ActiveAthletes | components/Leaderboard.tsx:20 | the active list holds exactly the active athletes |
| Standings.ActiveAthletesKeeps | components/Leaderboard.tsx:20 | the active list is a subsequence of the roster holding each active athlete as often as the roster does |
| Leaderboard.LeaderboardCorrect | components/Leaderboard.tsx:20-45 | one row per active athlete with their total, races run and average, and the rows by non-increasing average |
| Leaderboard.LeaderboardStable | components/Leaderboard.tsx:45 | rows with equal averages keep roster order |
| AthleteManager.IndexOfId | components/AthleteManager.tsx:226 | the index is the first holding the id, or -1 when none does |
| AthleteManager.CalculateRankZero | components/AthleteManager.tsx:210-227 | the rank is 0 exactly for an unknown or retired athlete |
| AthleteManager.RankMatchesLeaderboard | components/AthleteManager.tsx:210-227 | an active athlete's rank is the position of their first leaderboard row |
| AthleteManager.PeakOfCorrect | components/AthleteManager.tsx:76-91 | the peak is at least every running average, never negative, and either 0 or one of them |
| AthleteManager.PeakSessionStep | components/AthleteManager.tsx:82-88 | one session adds the athlete's first row's points, if any, and the running total, count and peak stay those of the points so far |
| AthleteManager.PeakAverage | components/AthleteManager.tsx:75-90 | the replay loop yields the peak running average of the athlete's points over the sessions in date order |
| AthleteManager.KeyFor | components/AthleteManager.tsx:65-92 | an athlete's sort keys are their rank and, for a retiree only, their peak average |
| AthleteManager.FilteredAndSortedAthletes | components/AthleteManager.tsx:53-133 | the memoised list is the roster whose order and contents `RosterCorrect` states |
| AthleteManager.SearchResults | components/AthleteManager.tsx:96-104 | a blank query keeps everyone; otherwise exactly the athletes whose name, faculty or batch contains the lower-cased query |
| AthleteManager.RosterCorrect | components/AthleteManager.tsx:53-133 | the roster is a permutation of the matching athletes, actives before retirees |
| AthleteManager.RosterActiveOrder | components/AthleteManager.tsx:107-120 | actives are ordered by rank, then by name |
| AthleteManager.RosterRetiredOrder | components/AthleteManager.tsx:121-129 | retirees are ordered by peak average, highest first, then by name |
| AthleteManager.ActiveAthletesRanked | components/AthleteManager.tsx:65-68 | every active athlete has a rank, so the 999999 fallback never applies |
| AthleteManager.HandleRemovePB | components/AthleteManager.tsx:168-170 | the event loses its PBs and every other PB is kept |
| AthleteManager.WithoutEventKeeps | components/AthleteManager.tsx:148-170 | the drafts kept are a subsequence of the drafts, each of another event kept as often as before |
| AthleteManager.HandleAddPBCorrect | components/AthleteManager.tsx:148-166 | an accepted draft becomes the event's only PB, appended last, and clears the inputs; a rejected one changes nothing; one PB per event is kept |
| AthleteProfile.CareerStatsCorrect | components/AthleteManager.tsx:230-275 | both highs are never negative; the best rank is 0 exactly when the athlete has no result, and then the highest average is 0 too |
| AthleteProfile.BumpSession | components/AthleteManager.tsx:241-247 | the `forEach` adds each result of the session to its athlete's running total and count |
| AthleteProfile.ReplaySession | components/AthleteManager.tsx:239-268 | one pass of the loop is the career step: new tallies, highest average and best rank |
| AthleteProfile.GetCareerStats | components/AthleteManager.tsx:230-275 | the loop yields the career highs that `CareerStatsCorrect`, `ReplayHighest` and `ReplayBest` describe |
| AthleteProfile.RunningAverage | components/AthleteManager.tsx:249-261 | the running average at each step is the leaderboard average over the sessions so far |
| AthleteProfile.ReplayHighest | components/AthleteManager.tsx:249-254 | the highest average is at least the average after every prefix in which the athlete has raced |
| AthleteProfile.ReplayBest | components/AthleteManager.tsx:256-267 | the best rank is no worse than the running place after any prefix, and is one of those places |
| AthleteProfile.WinStreakCorrect | components/AthleteManager.tsx:318-324 | the streak is the number of wins leading the finished rows |
| AthleteProfile.CountWinStreak | components/AthleteManager.tsx:318-324 | the loop with its `break` counts the streak `WinStreakCorrect` describes |
| AthleteProfile.AverageAbove | components/AthleteManager.tsx:284-329 | an average over a positive number of rows is above 700 exactly when the total exceeds 700 per row |
| AthleteProfile.EmergingStarTest | components/AthleteManager.tsx:281-284 | the test on the real average `totalPts / totalEntries` agrees with the integer form used by the badge rules |
| AthleteProfile.GetBadges | components/AthleteManager.tsx:277-355 | the badges pushed are the badge list of the tier, Speedster, Endurance, streak, Emerging Star, podium and Climber tests |
| AthleteProfile.TierBadgeCorrect | components/AthleteManager.tsx:286-298 | "The GOAT" exactly when a race scored 950 or more; no tier exactly when none reached 500; otherwise the highest hundred reached |
| AthleteProfile.BadgesCorrect | components/AthleteManager.tsx:300-336 | Speedster, Endurance Beast and Podium Regular each come exactly from their own test |
| AthleteProfile.BadgesFormCorrect | components/AthleteManager.tsx:318-331 | Streak Wins exactly when the first two finished rows are wins; Emerging Star exactly for one to five finishes with the points averaging above 700 over all rows, penalty rows included |
| AthleteProfile.ClimberCorrect | components/AthleteManager.tsx:338-352 | a Climber badge goes only to a known active athlete with earlier history; it records as `from` the rank computed without the latest session and as `to` the better current rank |
| AthleteProfile.ClimberGiven | components/AthleteManager.tsx:338-352 | conversely, more than one session, earlier history and a current rank of at least 1 better than the earlier rank give the Climber badge between those ranks |
| AthleteProfile.RecentRacesCorrect | components/AthleteManager.tsx:359-369 | the recent races are the athlete's results with their sessions' fields, most recent first |
| AthleteProfile.AthleteStatsCorrect | components/AthleteManager.tsx:357-395 | the profile's total and average agree with the leaderboard; wins ≤ podiums ≤ races run ≤ entries |
| Records.UniqueFacultiesCorrect | components/RecordsList.tsx:49-53 | the faculty options are the distinct non-empty faculties, ascending |
| Records.UniqueBatchesCorrect | components/RecordsList.tsx:55-59 | the batch options are the distinct non-empty batches, ascending |
| Records.UniqueYearsCorrect | components/RecordsList.tsx:65-78 | the year options are the distinct years of dated sessions and PBs, newest first |
| Records.EventBestCorrect | components/RecordsList.tsx:92-105 | "Best" mode: one row per athlete with a PB for the event, carrying that PB, fastest first |
| Records.EventAllCorrect | components/RecordsList.tsx:106-146 | "All" mode: the finished session results of known athletes and the PBs not already shown, fastest first |
| Records.CourseBests | components/RecordsList.tsx:174-185 | the loop yields the values of the best-per-athlete map in insertion order |
| Records.CourseRecords | components/RecordsList.tsx:150-187 | the course table is the "All" or "Best" table the mode selects |
| Records.CourseAllCorrect | components/RecordsList.tsx:150-173 | "All" by course: every finished result on the route of a known athlete, fastest first |
| Records.BestsAfterMinimal | components/RecordsList.tsx:174-185 | each athlete's entry in the map is no slower than any of their rows |
| Records.BestsAfterFirst | components/RecordsList.tsx:174-185 | each entry is the first of its athlete's rows with that time |
| Records.CourseBestCorrect | components/RecordsList.tsx:174-187 | "Best" by course: fastest first, at most one row per athlete, and every athlete met has one |
| Records.CourseBestRows | components/RecordsList.tsx:174-187 | each best row is a finished route result of its athlete, no slower than their others, the first with that time |
| Records.FilteredRecordsCorrect | components/RecordsList.tsx:190-220 | the filtered table keeps, in order, exactly the rows that pass the faculty, batch, athlete and year filters |
| RaceEntry.SetField | components/RaceEntry.tsx:31-33 | the named field takes the value and the others are kept |
| RaceEntry.EntryChanged | components/RaceEntry.tsx:31-33 | only the named field of the rows with the id changes |
| RaceEntry.EntryChangedOverwrites | components/RaceEntry.tsx:31-33 | a second change of the same field overwrites the first |
| RaceEntry.AddRow | components/RaceEntry.tsx:35-37 | a blank row with the fresh id is appended |
| RaceEntry.RemoveRow | components/RaceEntry.tsx:39-41 | a row remains exactly when it was there and has another id |
| RaceEntry.RemoveRowKeeps | components/RaceEntry.tsx:39-41 | the remaining rows are a subsequence of the form, each with another id kept as often as before |
| RaceEntry.RemoveAddedRow | components/RaceEntry.tsx:35-41 | removing a row just added with a fresh id restores the form |
| RaceEntry.RouteChanged | components/RaceEntry.tsx:43-60 | a known route sets the route id and the venue to its name; an unknown one clears both; other fields are kept |
| RaceEntry.AthleteOptions | components/RaceEntry.tsx:213-215 | the picker offers, in roster order, exactly the active athletes that are this row's or chosen by no row |
| RaceEntry.OptionsExcludeOthers | components/RaceEntry.tsx:213-215 | an athlete chosen in another row is not offered |
| RaceEntry.ParseIntToString | components/RaceEntry.tsx:69 | `parseInt` reads back what printing an integer writes |
| RaceEntry.ParseIntSkipsSpace | components/RaceEntry.tsx:69 | leading whitespace does not change what `parseInt` reads |
| RaceEntry.PlaceOfNumber | components/RaceEntry.tsx:69-74 | a typed place is kept exactly when it is positive |
| RaceEntry.ValidEntriesCorrect | components/RaceEntry.tsx:64-78 | the submitted entries are exactly the accepted rows, in order, each with its parsed time and place |
| RaceEntry.ValidEntriesRows | components/RaceEntry.tsx:64-78 | each submitted entry comes from an accepted row with its athlete, time and place |
| RaceEntry.AddedRowNotSubmitted | components/RaceEntry.tsx:35-78 | a blank row added to the form is never submitted |
| RaceEntry.HandleSubmit | components/RaceEntry.tsx:62-89 | without an event nothing is saved; otherwise the valid entries are saved and the form is reset to one blank row |
| Trends.PointMap | components/TrendsAnalysis.tsx:33-49 | the loop yields the session's points map |
| Trends.PointsAfterKeys | components/TrendsAnalysis.tsx:36-41 | the map has a value exactly for the athletes with a result |
| Trends.PointsAfterLast | components/TrendsAnalysis.tsx:36-41 | each value is the points of the athlete's last row in the session |
| Trends.ChartData | components/TrendsAnalysis.tsx:31-49 | the loop yields one chart row per session in date order |
| Trends.ChartDataCorrect | components/TrendsAnalysis.tsx:31-49 | one row per session, the sessions' own rows, ascending by date |
| Trends.Toggle | components/TrendsAnalysis.tsx:52-56 | a selected id is removed and another is appended; other ids are kept |
| Trends.ToggleTwice | components/TrendsAnalysis.tsx:52-56 | toggling an unselected athlete twice restores the selection |
| Trends.ToggleTwiceSelected | components/TrendsAnalysis.tsx:52-56 | toggling a selected athlete twice moves it to the end |
| Trends.ToggleNoDup | components/TrendsAnalysis.tsx:52-56 | toggling keeps the selection free of repeats |
| Trends.ByRacesCorrect | components/TrendsAnalysis.tsx:58-66 | the ordering keeps the athletes, each with their own race count, most races first |
| Trends.TopAthletesSorted | components/TrendsAnalysis.tsx:58-66 | five athletes, or all when fewer, from the roster, by non-increasing race count |
| Trends.TopAthletesTop | components/TrendsAnalysis.tsx:58-66 | no athlete left out has run more races than one selected |

## Left out

- Persistence: the browser storage, the static seed database and the loading effect are not modelled. The store starts from given collections.
- `generateId()` and `Date.now()` are parameters (`id`, `freshId`).
- The editor, the AI coach and its Gemini service are not part of this model, and neither are the layout, history, routes and standards screens beyond the store actions they call.
- Floating point: `Math.pow` is an abstract law, and NaN and Infinity are `Option`s. Event exponents are reals. Rounding of non-integer points is the law's concern.
- Utils.ParseTime: `parseFloat` leniency (signs, exponents, trailing junk, more than two decimals) is not modelled. A clock component is digits with an optional point and up to two digits.
- AthleteManager.SearchResults: lower-casing (`Text.Lower`) maps only `A`-`Z`, and the blank-query test counts only ASCII whitespace, where `toLowerCase` and `trim` cover Unicode. A query of one no-break space keeps everyone in the source but filters by it here, and "é" does not match "É" here.
- Utils.EventDistance: the `\s*` between number and unit matches only ASCII whitespace, and lower-casing is ASCII-only, so a name such as "10" + no-break space + "km" falls back to the lookup table here.
- Records.UniqueFaculties, Records.UniqueBatches, Records.UniqueYears: `Array.from(set).sort()` orders by UTF-16 code units, while `StrLe` orders by code point. The two differ only for characters outside the Basic Multilingual Plane.
- RaceEntry.ParseIntToString: the `0x` prefix of `parseInt` and Unicode whitespace beyond ASCII are not modelled.
- Dates are compared as ISO strings. `new Date` parsing of other formats and `toLocaleDateString` are not modelled, so the chart's display label `date` is omitted (`fullDate` is kept).
- `localeCompare`, with or without the `numeric` option, is the code-point order `StrLe`. The athlete list sorted for the records screen's selector only feeds a drop-down and is not modelled.
- `formatDistance` (`toFixed(1)` text) is not modelled. The profile keeps the total distance in metres.
- Photo upload, JSX, icons, colours and badge descriptions are not modelled. Badges are a datatype of their names, and a Climber badge carries its two ranks.
- Records: the `_`-joined string signature used to deduplicate PBs is a triple (athlete, time, date). This leaves out collisions between ids that contain `_`.
- The JavaScript `Set` of options is a sequence in insertion order, sorted afterwards.
- RaceEntry.SetField: `[field]` is limited to the three editable fields of a row.
- Trends.PointMap: the spread of the points map into the chart row could overwrite a `date`, `fullDate` or `raceName` key if an athlete id were one of those words. Here the points are kept in their own map.
- The wiring of the entry form's `onSave` to `recordSession` in the app shell is not modelled, and neither is the `alert` shown when no event is selected.

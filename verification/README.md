# Football tournament manager — a verified model of its core

The tournament manager keeps five tables: profiles, teams, players, matches
and goals. On top of them it publishes a leaderboard and offers a handful of
admin routes. This project models two parts of it in Dafny and proves what
they promise:

- **The leaderboard aggregation.** Goal rows are counted per player, ranked
  by goals and cut to ten. Finished matches are folded into per-team records
  (played, won, drawn, lost, goals for and against, 3-1-0 points), and the
  records are ranked by points, then goal difference. Both folds are
  `while` loops over an insertion-ordered map. Each loop is proved equal to
  a prefix-recursive function, and that function is proved against
  independent reference definitions: a per-player count, and a per-team sum
  of match contributions.
- **The admin routes over an in-memory store.** The store is a class with one
  `map` field per table, and one method for each table call that the chained
  routes make. The routes that only
  validate and then make one call are functions from tables to an `Outcome`
  (an answer plus the resulting tables):
  - match creation and match patching;
  - goal insertion.

  The single calls these routes make (match insert, match patch, goal insert)
  are functions over the tables, not store methods. The routes that loop or
  chain several calls are module-level methods that take the store as a
  parameter. Each is proved equal to such a function:
  - batch player reassignment, shared by the players assignment route and
    the admin request route;
  - team deletion and player deletion.

  Only the two delete routes check the caller. The other routes act for
  anyone, and the model keeps that.

The store behaviour the routes rely on is fixed in `store.dfy`:

- Team, player and profile references are restricting foreign keys. The
  comments "to satisfy FKs" in both delete routes assume this.
- Goals cascade with their match, as the comment at
  `src/app/api/admin/teams/delete/route.ts:40` says.
- Inserting under an existing id is refused.
- A call can also fail for reasons outside the tables. The caller passes
  such failures in: a `fault` flag for a single call, or a `faults` set of
  step or entry indices for a sequence of calls.

`Consistent` (every row stored under its id, every reference resolving) is
proved to survive every route, whatever the route answers.

Files, one module each: `types.dfy` (row shapes), `ranking.dfy` (stable
descending sort, cut), `scorers.dfy`, `standings.dfy`, `store.dfy`,
`match_routes.dfy`, `goal_routes.dfy`, `reassignment.dfy`, `deletion.dfy`.

## Model

| member | source | states |
|---|---|---|
| Types.OrElse | src/app/api/admin/matches/create/route.ts:24-26 | `a ?? b`: a present value is kept (0 included), only an absent one takes the default |
| Types.MatchFromInsert | src/types/supabase.ts:104-116 | a stored match carries the insert's teams, time and venue; omitted status becomes UPCOMING, omitted scores 0, omitted group label null |
| Types.GoalFromInsert | src/types/supabase.ts:140-147 | a stored goal references the given match and player at the given minute; an omitted `ownGoal` is false |
| Types.ApplyUpdate | src/types/supabase.ts:117-129 | present update fields overwrite, absent ones keep the stored value, the id never changes, the empty update changes nothing |
| Ranking.SortDesc | src/app/leaderboard/page.tsx:196-197 | the ranking is non-increasing by (major, minor) key and is a permutation of its input |
| Ranking.SortDescStable | src/app/leaderboard/page.tsx:107 | records with equal keys keep their input order (stable sort) |
| Ranking.SortKeepsDistinct | src/app/leaderboard/page.tsx:100-107 | ranking never duplicates an id |
| Ranking.Take | src/app/leaderboard/page.tsx:108 | `slice(0, n)`: the first min(n, length) elements, unchanged |
| Scorers.TeamLabel | src/app/leaderboard/page.tsx:91 | a present, non-empty team name is shown as is; otherwise "No Team" |
| Scorers.Tally | src/app/leaderboard/page.tsx:86-98 | the per-player counts in order of first goal, at most one entry per goal row; what each entry holds is stated by `Scorers.TallyIsExpected` and `Scorers.TallyCountsEveryGoal` |
| Scorers.CountScorers | src/app/leaderboard/page.tsx:88-98 | the counting loop builds exactly the fold `Tally` |
| Scorers.TallyIsExpected | src/app/leaderboard/page.tsx:86-98 | one entry per player who scored and no other; each holds that player's number of goal rows and the name and team of their first goal row |
| Scorers.TallyCountsEveryGoal | src/app/leaderboard/page.tsx:88-98 | the counts add up to the number of goal rows: no status or own-goal filter |
| Scorers.TopScorers | src/app/leaderboard/page.tsx:100-108 | the published list: the counts ranked by goals and cut to at most ten; its ordering and content are stated by `Scorers.TopScorersCorrect` and `Scorers.TopScorersCutoff` |
| Scorers.TopScorersCorrect | src/app/leaderboard/page.tsx:100-108 | at most ten entries, non-increasing by goals, one per player, each with the player's true count |
| Scorers.TopScorersCutoff | src/app/leaderboard/page.tsx:107-108 | a scorer left out of the list has no more goals than the last listed entry |
| Scorers.LeaderboardScorers | src/app/leaderboard/page.tsx:86-110 | the scorer half of the fetch returns the ranked, cut counts |
| Scorers.SmallScenario | src/app/leaderboard/page.tsx:86-108 | three goals, two by one player: that player leads with 2, the teamless one follows as "No Team" |
| Standings.Result | src/app/leaderboard/page.tsx:173-193 | one side of a finished match: played 1, its goals for and against, a win iff it scored more, a loss iff fewer, a draw iff equal, points 3/1/0 |
| Standings.MatchHandsOut | src/app/leaderboard/page.tsx:173-193 | one match hands out two appearances, a loss per win, equal goals for and against, 3 points if decisive and 2 if drawn |
| Standings.MatchTotalsAre | src/app/leaderboard/page.tsx:173-193 | summed over matches: 2 appearances each, wins = losses, points = 3·decisive + 2·drawn, goals for = goals against |
| Standings.DoneOnly | src/app/leaderboard/page.tsx:125 | the `status = DONE` filter keeps only finished matches |
| Standings.DoneOnlyCounts | src/app/leaderboard/page.tsx:113-125 | the filtered list holds every finished match exactly as often as the query returns it, and no other match |
| Standings.AddIfMissing | src/app/leaderboard/page.tsx:137-167 | a team without a row gets a zero row (`groupLabel \|\| ''`); a team with one keeps it |
| Standings.AddFigures | src/app/leaderboard/page.tsx:173-193 | adds one side's result to the row held for that team |
| Standings.Step | src/app/leaderboard/page.tsx:134-193 | one finished match keeps every row and adds at most two (one per team); what it adds to each team is stated by `Standings.StepAt` |
| Standings.Accumulate | src/app/leaderboard/page.tsx:130-194 | the rows after all finished matches, at most two per match; their membership and figures are stated by `Standings.AccumulateIsReference` |
| Standings.AddMatch | src/app/leaderboard/page.tsx:134-193 | one pass of the `forEach` body performs exactly one `Step`: both rows made present, then each side credited |
| Standings.AccumulateStandings | src/app/leaderboard/page.tsx:132-194 | the `forEach` over finished matches builds exactly the fold `Accumulate` |
| Standings.StepAt | src/app/leaderboard/page.tsx:132-194 | one match adds its home and away contribution to a team's figures and gives its teams a row |
| Standings.AccumulateIsReference | src/app/leaderboard/page.tsx:130-194 | one row per team; a team has a row iff it played a finished match; its figures are its per-match contributions summed |
| Standings.RecordRefBalanced | src/app/leaderboard/page.tsx:173-193 | for every team, played = wins + draws + losses and points = 3·wins + draws |
| Standings.RecordRefPlayed | src/app/leaderboard/page.tsx:137-173 | a team that played has played at least once: no zero-stat rows |
| Standings.RowsAreReference | src/app/leaderboard/page.tsx:130-194 | every accumulated row is balanced, has played, and holds its team's summed figures |
| Standings.AccumulateTotal | src/app/leaderboard/page.tsx:173-193 | the table's totals equal what the matches hand out |
| Standings.TotalPermutation | src/app/leaderboard/page.tsx:196-197 | reordering rows leaves the totals unchanged |
| Standings.DoneOnlyPlays | src/app/leaderboard/page.tsx:113-125 | a team appears in a fetched match iff it played a finished match |
| Standings.UnfinishedMatchIgnored | src/app/leaderboard/page.tsx:125 | adding an unfinished match never changes the standings |
| Standings.Standings | src/app/leaderboard/page.tsx:113-197 | the published table: the finished matches filtered, accumulated and ranked, at most two rows per match; its rows and ordering are stated by `Standings.StandingsCorrect`, `Standings.StandingsRows` and `Standings.StandingsMembers` |
| Standings.StandingsMembers | src/app/leaderboard/page.tsx:132-167 | a team has a standings row iff it played a finished match |
| Standings.StandingsRows | src/app/leaderboard/page.tsx:169-193 | every standings row holds its team's summed figures, is balanced and has played |
| Standings.StandingsCorrect | src/app/leaderboard/page.tsx:196-197 | one row per team; ordered by points, then goal difference, descending; rows balanced |
| Standings.StandingsTotals | src/app/leaderboard/page.tsx:173-197 | published totals: 2 appearances per finished match, wins = losses, points = 3·decisive + 2·drawn, goals for = goals against |
| Standings.NoFinishedMatchNoStandings | src/app/leaderboard/page.tsx:113-134 | without a finished match the table is empty |
| Standings.SeedScenario | scripts/seed.ts:20-173 | the seeded teams and matches (two upcoming, Tech Titans 2–1 Code Crushers) give a table with Tech Titans first (group A, 3 points) and Code Crushers second (group B, 0 points), and no row for the other two teams |
| Standings.LeaderboardStandings | src/app/leaderboard/page.tsx:113-197 | the standings half of the fetch returns the ranked table; rows balanced; total points 3·decisive + 2·drawn; goals for = against |
| Store.AssignRejection | src/app/api/admin/players/assign/route.ts:15-18 | a team update is refused iff the call fails or it would point an existing player at a team that does not exist |
| Store.WithPlayerTeam | src/app/api/admin/players/assign/route.ts:15-18 | only that player's `teamId` changes; a missing player means nothing changes |
| Store.Unassigned | src/app/api/admin/teams/delete/route.ts:33-36 | afterwards no player is in the team; only the `teamId` of its former players changes |
| Store.WithoutMatchesOf | src/app/api/admin/teams/delete/route.ts:40-44 | exactly the matches naming the team (home or away) are deleted, with exactly their goals |
| Store.TeamDeleteRejection | src/app/api/admin/teams/delete/route.ts:49-52 | a team delete is refused iff the call fails or a player or match still names the team |
| Store.WithoutTeam | src/app/api/admin/teams/delete/route.ts:49 | only the team row goes |
| Store.WithoutGoalsBy | src/app/api/admin/players/delete/route.ts:32-33 | exactly the player's goals are deleted |
| Store.PlayerDeleteRejection | src/app/api/admin/players/delete/route.ts:37-41 | a player delete is refused iff the call fails or a goal still names the player |
| Store.WithoutPlayer | src/app/api/admin/players/delete/route.ts:38 | only the player row goes |
| Store.MatchInsertRejection | src/app/api/admin/matches/create/route.ts:17-31 | a match insert is refused iff the call fails, the id is taken or a team does not exist |
| Store.WithMatch | src/app/api/admin/matches/create/route.ts:17-27 | only the matches table changes, by the new row |
| Store.GoalInsertRejection | src/app/api/admin/goals/add/route.ts:12-18 | a goal insert is refused iff the call fails, the id is taken, or the match or player does not exist |
| Store.WithGoal | src/app/api/admin/goals/add/route.ts:12-14 | only the goals table changes, by the new row |
| Store.PatchRejection | src/app/api/admin/matches/update/route.ts:12-19 | a patch is refused iff the call fails or it would give an existing match an unknown team |
| Store.WithMatchPatched | src/app/api/admin/matches/update/route.ts:12-15 | only the addressed match changes, by the patch; an unknown id changes nothing |
| Store.UnassignKeepsConsistent | src/app/api/admin/teams/delete/route.ts:31-36 | unassigning keeps every reference resolving and leaves no player in the team |
| Store.DeleteMatchesKeepsConsistent | src/app/api/admin/teams/delete/route.ts:40-44 | with the cascade, deleting a team's matches leaves no goal dangling |
| Store.DeleteTeamKeepsConsistent | src/app/api/admin/teams/delete/route.ts:48-49 | an accepted team delete leaves no dangling reference |
| Store.DeletePlayerKeepsConsistent | src/app/api/admin/players/delete/route.ts:37-38 | an accepted player delete leaves no dangling reference |
| Store.DeleteGoalsKeepsConsistent | src/app/api/admin/players/delete/route.ts:32-33 | deleting a player's goals keeps consistency and leaves no goal naming the player |
| Store.AssignKeepsConsistent | src/app/api/admin/players/assign/route.ts:15-18 | an accepted team update keeps consistency |
| Store.InsertMatchKeepsConsistent | src/app/api/admin/matches/create/route.ts:17-27 | an accepted match insert keeps consistency |
| Store.InsertGoalKeepsConsistent | src/app/api/admin/goals/add/route.ts:12-14 | an accepted goal insert keeps consistency |
| Store.PatchKeepsConsistent | src/app/api/admin/matches/update/route.ts:12-15 | an accepted patch keeps consistency |
| Store.Gate | src/app/api/admin/teams/delete/route.ts:15-28 | no user: 401; a profile that is missing or not ADMIN: 403; passes iff the caller's profile role is ADMIN |
| Store.GateStatus | src/app/api/admin/teams/delete/route.ts:17-27 | the gate's refusals carry status 401 without a user and 403 for a non-admin caller |
| Store.TournamentStore.SetPlayerTeam | src/app/api/admin/players/assign/route.ts:15-18 | the call answers `AssignRejection` and, if accepted, applies `WithPlayerTeam`, else changes nothing |
| Store.TournamentStore.UnassignTeam | src/app/api/admin/teams/delete/route.ts:33-36 | the call applies `Unassigned` unless it fails, in which case nothing changes |
| Store.TournamentStore.DeleteMatchesOf | src/app/api/admin/teams/delete/route.ts:41-44 | the call applies `WithoutMatchesOf` unless it fails |
| Store.TournamentStore.DeleteTeam | src/app/api/admin/teams/delete/route.ts:49 | the call answers `TeamDeleteRejection` and, if accepted, applies `WithoutTeam` |
| Store.TournamentStore.DeleteGoalsBy | src/app/api/admin/players/delete/route.ts:33 | the call applies `WithoutGoalsBy` unless it fails |
| Store.TournamentStore.DeletePlayer | src/app/api/admin/players/delete/route.ts:38 | the call answers `PlayerDeleteRejection` and, if accepted, applies `WithoutPlayer` |
| MatchRoutes.InsertFor | src/app/api/admin/matches/create/route.ts:19-27 | the route always sends status and both scores (defaulted) and never a group label |
| MatchRoutes.CreateMatch | src/app/api/admin/matches/create/route.ts:4-37 | answers 200 or 400, and any 400 writes nothing |
| MatchRoutes.CreateMatchValidates | src/app/api/admin/matches/create/route.ts:9-14 | a missing or empty required field gives 400 first, even when the teams also coincide; equal teams give 400 next; neither writes |
| MatchRoutes.CreateMatchSucceedsIff | src/app/api/admin/matches/create/route.ts:9-33 | 200 iff the body is complete, the teams differ and both exist, the id is free and the call does not fail |
| MatchRoutes.CreateMatchAddsOneRow | src/app/api/admin/matches/create/route.ts:17-27 | on 200 exactly one match row is added, with status UPCOMING and scores 0 only when absent; other tables unchanged |
| MatchRoutes.CreateMatchKeepsConsistent | src/app/api/admin/matches/create/route.ts:17-33 | the route keeps the store consistent |
| MatchRoutes.UpdateMatch | src/app/api/admin/matches/update/route.ts:4-25 | answers 200 or 400, and any 400 writes nothing |
| MatchRoutes.UpdateMatchValidates | src/app/api/admin/matches/update/route.ts:7-9 | 'Invalid payload' iff the id is missing or empty or the patch is not an object |
| MatchRoutes.UpdateMatchOnlyTarget | src/app/api/admin/matches/update/route.ts:12-15 | on 200 only the addressed match changes, present fields overwrite, absent ones stay; an unknown id changes nothing |
| MatchRoutes.UpdateMatchAcceptsAnyStatus | src/app/api/admin/matches/update/route.ts:6-21 | no transition or sign check: any status (DONE back to UPCOMING too) and any scores are stored |
| MatchRoutes.UpdateMatchAllowsSameTeams | src/app/api/admin/matches/update/route.ts:12-15 | unlike creation, a patch may set the same team as home and away |
| MatchRoutes.UpdateMatchKeepsConsistent | src/app/api/admin/matches/update/route.ts:12-19 | the route keeps the store consistent |
| GoalRoutes.GoalInsertFor | src/app/api/admin/goals/add/route.ts:14 | the insert names the given match and player; minute is the given one or 0; the route never sends `ownGoal` |
| GoalRoutes.AddGoal | src/app/api/admin/goals/add/route.ts:4-23 | answers 200 or 400, and any 400 writes nothing |
| GoalRoutes.AddGoalValidates | src/app/api/admin/goals/add/route.ts:7-9 | 'Missing matchId or playerId' iff either id is missing or empty, with no write |
| GoalRoutes.AddGoalSucceedsIff | src/app/api/admin/goals/add/route.ts:7-19 | 200 iff both ids name an existing match and player, the goal id is free and the call does not fail |
| GoalRoutes.AddGoalAddsOneRow | src/app/api/admin/goals/add/route.ts:12-14 | on 200 only the goals table grows, by one row with the given or 0 minute, not an own goal; matches and their scores unchanged |
| GoalRoutes.AddGoalKeepsConsistent | src/app/api/admin/goals/add/route.ts:12-18 | the route keeps the store consistent |
| Reassignment.ApplyEntry | src/app/api/admin/players/assign/route.ts:14-24 | an entry without an id is skipped with no change |
| Reassignment.Reassigned | src/app/api/admin/players/assign/route.ts:13-27 | the entries applied in order, answering 200 or 400; it stops at the first refused entry (`Reassignment.ReassignedStops`, `Reassignment.FirstRefusalStops`), and the last entry naming a player decides that player's team (`Reassignment.LastEntryWins`) |
| Reassignment.Reassignment | src/app/api/admin/players/assign/route.ts:7-9 | `updates` that is not an array gives 'Invalid payload' and writes nothing |
| Reassignment.AssignPlayers | src/app/api/admin/players/assign/route.ts:4-31 | the loop's answer and final tables are exactly `Reassignment` of the initial tables |
| Reassignment.RequestReassign | src/app/api/admin/request/route.ts:4-30 | the request route's identical loop: same answer and tables as `Reassignment` |
| Reassignment.ReassignedStops | src/app/api/admin/players/assign/route.ts:19-24 | once an entry is refused, later entries change nothing |
| Reassignment.FirstRefusalStops | src/app/api/admin/request/route.ts:13-22 | the first refused entry decides the 400; earlier updates stay applied, later ones are not attempted |
| Reassignment.EntryWithoutIdSkipped | src/app/api/admin/request/route.ts:15 | appending an entry without an id changes neither answer nor tables |
| Reassignment.ReassignedOnlyTeamIds | src/app/api/admin/players/assign/route.ts:17 | whatever the answer, only `teamId` of existing players changes; no player added or removed; other tables unchanged |
| Reassignment.LastEntryWins | src/app/api/admin/players/assign/route.ts:13-18 | on 200 each player's team is that of the last entry naming them (null when it gives none); unnamed players keep theirs |
| Reassignment.ReassignedSucceeds | src/app/api/admin/request/route.ts:13-25 | when every named team exists and no call fails, the batch answers 200 |
| Reassignment.ReassignedKeepsConsistent | src/app/api/admin/players/assign/route.ts:13-25 | the batch keeps the store consistent |
| Deletion.TeamDeletion | src/app/api/admin/teams/delete/route.ts:7-58 | a 401 or 403 writes nothing |
| Deletion.DeleteTeamRoute | src/app/api/admin/teams/delete/route.ts:7-58 | the handler's answer and final tables are exactly `TeamDeletion` of the initial tables |
| Deletion.TeamDeletionGuards | src/app/api/admin/teams/delete/route.ts:11-28 | missing id: 400 before the auth check; no user: 401; non-admin: 403; none writes |
| Deletion.TeamDeletionEffects | src/app/api/admin/teams/delete/route.ts:33-54 | on 200 the team is gone and unreferenced; its players unassigned, its matches and their goals deleted, all else unchanged |
| Deletion.TeamDeletionSucceeds | src/app/api/admin/teams/delete/route.ts:30-54 | an admin's fault-free delete on a consistent store answers 200 and stays consistent |
| Deletion.TeamDeletionNoRollback | src/app/api/admin/teams/delete/route.ts:33-52 | a failed unassign answers 400 and writes nothing; a later failed step answers 400, keeps the earlier steps' effects and skips the later ones |
| Deletion.TeamDeletionStatus | src/app/api/admin/teams/delete/route.ts:10-54 | the route answers 200, 400, 401 or 403; 401 exactly when an id is given and no user is signed in; 403 exactly when an id is given and the caller is not an admin |
| Deletion.TeamDeletionKeepsConsistent | src/app/api/admin/teams/delete/route.ts:30-54 | every answer leaves a consistent store consistent |
| Deletion.PlayerDeletion | src/app/api/admin/players/delete/route.ts:7-47 | a 401 or 403 writes nothing |
| Deletion.DeletePlayerRoute | src/app/api/admin/players/delete/route.ts:7-47 | the handler's answer and final tables are exactly `PlayerDeletion` of the initial tables |
| Deletion.PlayerDeletionGuards | src/app/api/admin/players/delete/route.ts:11-28 | missing id: 400 before the auth check; no user: 401; non-admin: 403; none writes |
| Deletion.PlayerDeletionSucceedsIff | src/app/api/admin/players/delete/route.ts:32-43 | for an admin, 200 iff neither call fails: once the goals are gone nothing refuses the delete |
| Deletion.PlayerDeletionEffects | src/app/api/admin/players/delete/route.ts:32-43 | on 200 the player is gone and unreferenced; exactly their goals are deleted; all else unchanged |
| Deletion.PlayerDeletionNoRollback | src/app/api/admin/players/delete/route.ts:33-41 | a failed goal delete answers 400 and keeps the player; a failed player delete keeps the goal deletion |
| Deletion.PlayerDeletionStatus | src/app/api/admin/players/delete/route.ts:10-43 | the route answers 200, 400, 401 or 403; 401 exactly when an id is given and no user is signed in; 403 exactly when an id is given and the caller is not an admin |
| Deletion.PlayerDeletionKeepsConsistent | src/app/api/admin/players/delete/route.ts:30-43 | every answer leaves a consistent store consistent |

## Left out

- Store.WithoutMatchesOf: assumes the match filter in `src/app/api/admin/teams/delete/route.ts:44` selects exactly the matches whose home or away team id equals the given id. That route builds the filter by pasting the id into a PostgREST `or` string, not through a parameter. An id containing `,`, `(`, `)` or `.` would change the filter's meaning; for example, `x,homeTeamId.neq.null` would select every match. The filter grammar is not modelled.
- Rendering, React state, realtime subscriptions and loading flags of the leaderboard page: only the two reductions inside `fetchLeaderboardData` are modelled. The fetched rows are the input.
- The leaderboard's query errors (thrown, then logged) and joins that come back null are not modelled. The rows are taken as fetched, each joined with its player or teams.
- Authentication and session lookups are not modelled. The signed-in user is an input (`Option<Id>`), and the role is read from the profiles table as the code reads it. A profile lookup that errors also gives 403 in the code; the model covers this only as "profile missing".
- The 500 branches for thrown exceptions are not modelled: malformed JSON and a missing service-role configuration.
- JSON values of the wrong type are not modelled: ids or fields that are not strings, scores or minutes that are not integers, and status strings outside UPCOMING/LIVE/DONE. Payload fields are typed, and an absent or empty string is the falsy case. JavaScript numbers are modelled as unbounded integers.
- `typeof null === 'object'` lets a null patch, or an array, through the update route's check. Such patches are not modelled: `patch` is either a typed `MatchUpdate` or "not an object".
- A patch that sets `id`, or that names columns outside the update type, is not modelled. `MatchUpdate` has no `id` field.
- Store ids and timestamps are inputs (`newId`, `now`). `updatedAt` is not refreshed by an update, because no trigger for it appears in the code.
- The database's own rules are assumptions, as stated at the top of `store.dfy`: column defaults (status UPCOMING, scores 0, `ownGoal` false, group label null), foreign-key actions, and which error the store reports first.
- Error messages, `details` and `code` are not modelled: a 400 carries only its kind.
- Concurrent requests are not modelled: each route runs alone between its table calls.
- The admin-request approve/reject workflow that the request page expects is not modelled, because `src/app/api/admin/request/route.ts` implements only player reassignment.
- Reassignment.LastEntryWins: stated only for a batch that answers 200. For a refused batch, FirstRefusalStops gives the tables as they were after the entries before the refusal.

Files outside these modules are not part of this model: the UI pages and components, the seed script (its teams and matches are the data of `Standings.SeedScenario`), the diagnostic routes and the configuration files.

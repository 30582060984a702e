/** The in-memory tournament store the admin routes act on: five tables keyed
    by row id, the foreign keys between them, what each single table call does
    (and when the store rejects it), and the admin gate of the delete routes.

    Store behaviour the routes rely on but do not define is fixed here:
    - players.teamId, matches.homeTeamId/awayTeamId, goals.playerId and
      players.profileId are restricting foreign keys: a write that would leave
      a dangling reference is rejected;
    - goals.matchId cascades: deleting a match deletes its goals;
    - inserting a row whose id is taken is rejected;
    - any call may also fail for reasons outside the tables (network, row
      level security, a thrown client error); the caller passes that in as a
      `fault` flag. */
module Store {
  import opened Types

  datatype Tables = Tables(
    profiles: map<Id, Profile>,
    teams: map<Id, Team>,
    players: map<Id, Player>,
    matches: map<Id, Match>,
    goals: map<Id, Goal>)

  /** Why the store refused a call. */
  datatype StoreError = ForeignKeyViolation | DuplicateKey | Upstream

  /** Why a route answered 400. */
  datatype Failure =
    | MissingFields          // 'Missing required fields'
    | SameTeams              // 'Home and away team must be different'
    | InvalidPayload         // 'Invalid payload'
    | MissingMatchOrPlayer   // 'Missing matchId or playerId'
    | MissingId              // 'Missing team id' / 'Missing player id'
    | Rejected(error: StoreError)

  /** A route's HTTP answer. */
  datatype Response = Ok | BadRequest(failure: Failure) | Unauthorized | Forbidden

  function StatusCode(r: Response): nat {
    match r
    case Ok => 200
    case BadRequest(_) => 400
    case Unauthorized => 401
    case Forbidden => 403
  }

  /** What a route answers and the tables it leaves behind. */
  datatype Outcome = Outcome(response: Response, tables: Tables)

  // ---------------------------------------------------------------------
  // The tables' invariant.

  predicate KeysAreIds(t: Tables) {
    (forall k :: k in t.profiles ==> t.profiles[k].id == k)
    && (forall k :: k in t.teams ==> t.teams[k].id == k)
    && (forall k :: k in t.players ==> t.players[k].id == k)
    && (forall k :: k in t.matches ==> t.matches[k].id == k)
    && (forall k :: k in t.goals ==> t.goals[k].id == k)
  }

  predicate PlayersResolve(t: Tables) {
    forall k :: k in t.players ==>
      t.players[k].profileId in t.profiles
      && (t.players[k].teamId.Some? ==> t.players[k].teamId.value in t.teams)
  }

  predicate MatchesResolve(t: Tables) {
    forall k :: k in t.matches ==>
      t.matches[k].homeTeamId in t.teams && t.matches[k].awayTeamId in t.teams
  }

  predicate GoalsResolve(t: Tables) {
    forall k :: k in t.goals ==>
      t.goals[k].matchId in t.matches && t.goals[k].playerId in t.players
  }

  /** Every row is stored under its own id and every reference resolves. */
  predicate Consistent(t: Tables) {
    KeysAreIds(t) && PlayersResolve(t) && MatchesResolve(t) && GoalsResolve(t)
  }

  predicate InvolvesTeam(m: Match, team: Id) {
    m.homeTeamId == team || m.awayTeamId == team
  }

  /** No player is assigned to `team` and no match names it. */
  predicate TeamUnreferenced(t: Tables, team: Id) {
    (forall k :: k in t.players ==> t.players[k].teamId != Some(team))
    && (forall k :: k in t.matches ==> !InvolvesTeam(t.matches[k], team))
  }

  /** No goal names `player`. */
  predicate PlayerUnreferenced(t: Tables, player: Id) {
    forall k :: k in t.goals ==> t.goals[k].playerId != player
  }

  // ---------------------------------------------------------------------
  // The single table calls: their effect and when the store refuses them.

  function Fault(fault: bool): Option<StoreError> {
    if fault then Some(Upstream) else None
  }

  /** `players.update({ teamId }).eq('id', player)`: a missing player is no
      row to update; an unknown team is a dangling reference. */
  function AssignRejection(t: Tables, player: Id, team: Option<Id>, fault: bool): (e: Option<StoreError>)
    ensures e.None? <==> !fault && (player in t.players && team.Some? ==> team.value in t.teams)
  {
    if fault then Some(Upstream)
    else if player in t.players && team.Some? && team.value !in t.teams then Some(ForeignKeyViolation)
    else None
  }

  function WithPlayerTeam(t: Tables, player: Id, team: Option<Id>): (r: Tables)
    ensures r == t.(players := r.players)
    ensures r.players.Keys == t.players.Keys
    ensures player in r.players ==> r.players[player] == t.players[player].(teamId := team)
    ensures forall k :: k in r.players && k != player ==> r.players[k] == t.players[k]
  {
    if player in t.players then t.(players := t.players[player := t.players[player].(teamId := team)])
    else t
  }

  /** `players.update({ teamId: null }).eq('teamId', team)`. */
  function Unassigned(t: Tables, team: Id): (r: Tables)
    ensures r == t.(players := r.players)
    ensures r.players.Keys == t.players.Keys
    ensures forall k :: k in r.players ==> r.players[k].teamId != Some(team)
    ensures forall k :: k in r.players ==> r.players[k] == t.players[k].(teamId := r.players[k].teamId)
    ensures forall k :: k in r.players && t.players[k].teamId != Some(team) ==> r.players[k] == t.players[k]
  {
    t.(players := map k | k in t.players ::
         if t.players[k].teamId == Some(team) then t.players[k].(teamId := None) else t.players[k])
  }

  /** A goal whose match is deleted along with the matches of `team`. */
  predicate Cascaded(t: Tables, g: Goal, team: Id) {
    g.matchId in t.matches && InvolvesTeam(t.matches[g.matchId], team)
  }

  /** `matches.delete().or(homeTeamId.eq.team, awayTeamId.eq.team)`, with the
      goals of the deleted matches removed by the cascade. */
  function WithoutMatchesOf(t: Tables, team: Id): (r: Tables)
    ensures r == t.(matches := r.matches, goals := r.goals)
    ensures forall k :: k in r.matches <==> k in t.matches && !InvolvesTeam(t.matches[k], team)
    ensures forall k :: k in r.matches ==> r.matches[k] == t.matches[k]
    ensures forall k :: k in r.goals <==> k in t.goals && !Cascaded(t, t.goals[k], team)
    ensures forall k :: k in r.goals ==> r.goals[k] == t.goals[k]
  {
    t.(matches := map k | k in t.matches && !InvolvesTeam(t.matches[k], team) :: t.matches[k],
       goals := map k | k in t.goals && !Cascaded(t, t.goals[k], team) :: t.goals[k])
  }

  /** `teams.delete().eq('id', team)`: refused while a player or a match still
      names the team. */
  function TeamDeleteRejection(t: Tables, team: Id, fault: bool): (e: Option<StoreError>)
    ensures e.None? <==> !fault && (team in t.teams ==> TeamUnreferenced(t, team))
  {
    if fault then Some(Upstream)
    else if team in t.teams && !TeamUnreferenced(t, team) then Some(ForeignKeyViolation)
    else None
  }

  function WithoutTeam(t: Tables, team: Id): (r: Tables)
    ensures r == t.(teams := r.teams)
    ensures r.teams == t.teams - {team}
  {
    t.(teams := t.teams - {team})
  }

  /** `goals.delete().eq('playerId', player)`. */
  function WithoutGoalsBy(t: Tables, player: Id): (r: Tables)
    ensures r == t.(goals := r.goals)
    ensures forall k :: k in r.goals <==> k in t.goals && t.goals[k].playerId != player
    ensures forall k :: k in r.goals ==> r.goals[k] == t.goals[k]
  {
    t.(goals := map k | k in t.goals && t.goals[k].playerId != player :: t.goals[k])
  }

  /** `players.delete().eq('id', player)`: refused while a goal names the
      player. */
  function PlayerDeleteRejection(t: Tables, player: Id, fault: bool): (e: Option<StoreError>)
    ensures e.None? <==> !fault && (player in t.players ==> PlayerUnreferenced(t, player))
  {
    if fault then Some(Upstream)
    else if player in t.players && !PlayerUnreferenced(t, player) then Some(ForeignKeyViolation)
    else None
  }

  function WithoutPlayer(t: Tables, player: Id): (r: Tables)
    ensures r == t.(players := r.players)
    ensures r.players == t.players - {player}
  {
    t.(players := t.players - {player})
  }

  /** `matches.insert(row)`. */
  function MatchInsertRejection(t: Tables, m: Match, fault: bool): (e: Option<StoreError>)
    ensures e.None? <==> !fault && m.id !in t.matches && m.homeTeamId in t.teams && m.awayTeamId in t.teams
  {
    if fault then Some(Upstream)
    else if m.id in t.matches then Some(DuplicateKey)
    else if m.homeTeamId !in t.teams || m.awayTeamId !in t.teams then Some(ForeignKeyViolation)
    else None
  }

  function WithMatch(t: Tables, m: Match): (r: Tables)
    ensures r == t.(matches := r.matches)
    ensures r.matches == t.matches[m.id := m]
  {
    t.(matches := t.matches[m.id := m])
  }

  /** `goals.insert(row)`. */
  function GoalInsertRejection(t: Tables, g: Goal, fault: bool): (e: Option<StoreError>)
    ensures e.None? <==> !fault && g.id !in t.goals && g.matchId in t.matches && g.playerId in t.players
  {
    if fault then Some(Upstream)
    else if g.id in t.goals then Some(DuplicateKey)
    else if g.matchId !in t.matches || g.playerId !in t.players then Some(ForeignKeyViolation)
    else None
  }

  function WithGoal(t: Tables, g: Goal): (r: Tables)
    ensures r == t.(goals := r.goals)
    ensures r.goals == t.goals[g.id := g]
  {
    t.(goals := t.goals[g.id := g])
  }

  /** `matches.update(patch).eq('id', id)`: no row means nothing to update; a
      patched team id must name a team. */
  function PatchRejection(t: Tables, id: Id, u: MatchUpdate, fault: bool): (e: Option<StoreError>)
    ensures e.None? <==> !fault && (id in t.matches ==>
              ApplyUpdate(t.matches[id], u).homeTeamId in t.teams
              && ApplyUpdate(t.matches[id], u).awayTeamId in t.teams)
  {
    if fault then Some(Upstream)
    else if id in t.matches
            && (ApplyUpdate(t.matches[id], u).homeTeamId !in t.teams
                || ApplyUpdate(t.matches[id], u).awayTeamId !in t.teams) then Some(ForeignKeyViolation)
    else None
  }

  function WithMatchPatched(t: Tables, id: Id, u: MatchUpdate): (r: Tables)
    ensures r == t.(matches := r.matches)
    ensures r.matches.Keys == t.matches.Keys
    ensures id in t.matches ==> r.matches[id] == ApplyUpdate(t.matches[id], u)
    ensures forall k :: k in r.matches && k != id ==> r.matches[k] == t.matches[k]
  {
    if id in t.matches then t.(matches := t.matches[id := ApplyUpdate(t.matches[id], u)]) else t
  }

  // ---------------------------------------------------------------------
  // The store keeps its invariant through every call it accepts.

  lemma AssignKeepsConsistent(t: Tables, player: Id, team: Option<Id>)
    requires Consistent(t) && AssignRejection(t, player, team, false).None?
    ensures Consistent(WithPlayerTeam(t, player, team))
  {
  }

  lemma UnassignKeepsConsistent(t: Tables, team: Id)
    requires Consistent(t)
    ensures Consistent(Unassigned(t, team))
    ensures forall k :: k in Unassigned(t, team).players ==> Unassigned(t, team).players[k].teamId != Some(team)
  {
    var r := Unassigned(t, team);
    forall k | k in r.players
      ensures r.players[k].profileId in r.profiles
      ensures r.players[k].teamId.Some? ==> r.players[k].teamId.value in r.teams
    {
      assert r.players[k] == t.players[k].(teamId := r.players[k].teamId);
    }
  }

  lemma DeleteMatchesKeepsConsistent(t: Tables, team: Id)
    requires Consistent(t)
    ensures Consistent(WithoutMatchesOf(t, team))
  {
    var r := WithoutMatchesOf(t, team);
    forall k | k in r.goals
      ensures r.goals[k].matchId in r.matches && r.goals[k].playerId in r.players
    {
      var g := t.goals[k];
      assert !Cascaded(t, g, team);
      assert g.matchId in t.matches;
    }
  }

  lemma DeleteTeamKeepsConsistent(t: Tables, team: Id)
    requires Consistent(t) && TeamDeleteRejection(t, team, false).None?
    ensures Consistent(WithoutTeam(t, team))
  {
    var r := WithoutTeam(t, team);
    if team in t.teams {
      forall k | k in r.players && r.players[k].teamId.Some?
        ensures r.players[k].teamId.value in r.teams
      {
        assert t.players[k].teamId != Some(team);
      }
      forall k | k in r.matches
        ensures r.matches[k].homeTeamId in r.teams && r.matches[k].awayTeamId in r.teams
      {
        assert !InvolvesTeam(t.matches[k], team);
      }
    }
  }

  lemma DeleteGoalsKeepsConsistent(t: Tables, player: Id)
    requires Consistent(t)
    ensures Consistent(WithoutGoalsBy(t, player))
    ensures PlayerUnreferenced(WithoutGoalsBy(t, player), player)
  {
  }

  lemma DeletePlayerKeepsConsistent(t: Tables, player: Id)
    requires Consistent(t) && PlayerDeleteRejection(t, player, false).None?
    ensures Consistent(WithoutPlayer(t, player))
  {
    var r := WithoutPlayer(t, player);
    forall k | k in r.goals ensures r.goals[k].playerId in r.players {
      assert t.goals[k].playerId != player || player !in t.players;
    }
  }

  lemma InsertMatchKeepsConsistent(t: Tables, m: Match)
    requires Consistent(t) && MatchInsertRejection(t, m, false).None?
    ensures Consistent(WithMatch(t, m))
  {
  }

  lemma InsertGoalKeepsConsistent(t: Tables, g: Goal)
    requires Consistent(t) && GoalInsertRejection(t, g, false).None?
    ensures Consistent(WithGoal(t, g))
  {
  }

  lemma PatchKeepsConsistent(t: Tables, id: Id, u: MatchUpdate)
    requires Consistent(t) && PatchRejection(t, id, u, false).None?
    ensures Consistent(WithMatchPatched(t, id, u))
  {
  }

  // ---------------------------------------------------------------------
  // The admin gate of the delete routes.

  predicate IsAdmin(profiles: map<Id, Profile>, user: Id) {
    user in profiles && profiles[user].role == ADMIN
  }

  /** No signed-in user: 401; a user whose profile is missing or whose role is
      not ADMIN: 403; an admin passes (None). */
  function Gate(profiles: map<Id, Profile>, user: Option<Id>): (r: Option<Response>)
    ensures r.None? <==> user.Some? && IsAdmin(profiles, user.value)
    ensures r == Some(Unauthorized) <==> user.None?
    ensures r.Some? ==> r.value == Unauthorized || r.value == Forbidden
  {
    if user.None? then Some(Unauthorized)
    else if !IsAdmin(profiles, user.value) then Some(Forbidden)
    else None
  }

  /** The gate's refusals carry the codes the delete routes send: 401
      without a signed-in user, 403 for a caller whose role is not ADMIN. */
  lemma GateStatus(profiles: map<Id, Profile>, user: Option<Id>)
    ensures user.None? ==> Gate(profiles, user).Some? && StatusCode(Gate(profiles, user).value) == 401
    ensures user.Some? && !IsAdmin(profiles, user.value) ==>
              Gate(profiles, user).Some? && StatusCode(Gate(profiles, user).value) == 403
  {
  }

  // ---------------------------------------------------------------------
  // The store object: one method per table call.

  class TournamentStore {
    var profiles: map<Id, Profile>
    var teams: map<Id, Team>
    var players: map<Id, Player>
    var matches: map<Id, Match>
    var goals: map<Id, Goal>

    function Snapshot(): Tables
      reads this
    {
      Tables(profiles, teams, players, matches, goals)
    }

    constructor (t: Tables)
      ensures Snapshot() == t
    {
      profiles, teams, players, matches, goals := t.profiles, t.teams, t.players, t.matches, t.goals;
    }

    /** `update({ teamId }).eq('id', player)` on players. */
    method SetPlayerTeam(player: Id, team: Option<Id>, fault: bool) returns (err: Option<StoreError>)
      modifies this
      ensures err == AssignRejection(old(Snapshot()), player, team, fault)
      ensures Snapshot() == if err.None? then WithPlayerTeam(old(Snapshot()), player, team) else old(Snapshot())
    {
      err := AssignRejection(Snapshot(), player, team, fault);
      if err.None? && player in players {
        players := players[player := players[player].(teamId := team)];
      }
    }

    /** `update({ teamId: null }).eq('teamId', team)` on players. */
    method UnassignTeam(team: Id, fault: bool) returns (err: Option<StoreError>)
      modifies this
      ensures err == Fault(fault)
      ensures Snapshot() == if err.None? then Unassigned(old(Snapshot()), team) else old(Snapshot())
    {
      err := Fault(fault);
      if err.None? {
        players := map k | k in players ::
          if players[k].teamId == Some(team) then players[k].(teamId := None) else players[k];
      }
    }

    /** `delete().or(homeTeamId.eq.team, awayTeamId.eq.team)` on matches. */
    method DeleteMatchesOf(team: Id, fault: bool) returns (err: Option<StoreError>)
      modifies this
      ensures err == Fault(fault)
      ensures Snapshot() == if err.None? then WithoutMatchesOf(old(Snapshot()), team) else old(Snapshot())
    {
      err := Fault(fault);
      if err.None? {
        var t := Snapshot();
        goals := map k | k in goals && !Cascaded(t, goals[k], team) :: goals[k];
        matches := map k | k in matches && !InvolvesTeam(matches[k], team) :: matches[k];
      }
    }

    /** `delete().eq('id', team)` on teams. */
    method DeleteTeam(team: Id, fault: bool) returns (err: Option<StoreError>)
      modifies this
      ensures err == TeamDeleteRejection(old(Snapshot()), team, fault)
      ensures Snapshot() == if err.None? then WithoutTeam(old(Snapshot()), team) else old(Snapshot())
    {
      err := TeamDeleteRejection(Snapshot(), team, fault);
      if err.None? {
        teams := teams - {team};
      }
    }

    /** `delete().eq('playerId', player)` on goals. */
    method DeleteGoalsBy(player: Id, fault: bool) returns (err: Option<StoreError>)
      modifies this
      ensures err == Fault(fault)
      ensures Snapshot() == if err.None? then WithoutGoalsBy(old(Snapshot()), player) else old(Snapshot())
    {
      err := Fault(fault);
      if err.None? {
        goals := map k | k in goals && goals[k].playerId != player :: goals[k];
      }
    }

    /** `delete().eq('id', player)` on players. */
    method DeletePlayer(player: Id, fault: bool) returns (err: Option<StoreError>)
      modifies this
      ensures err == PlayerDeleteRejection(old(Snapshot()), player, fault)
      ensures Snapshot() == if err.None? then WithoutPlayer(old(Snapshot()), player) else old(Snapshot())
    {
      err := PlayerDeleteRejection(Snapshot(), player, fault);
      if err.None? {
        players := players - {player};
      }
    }
  }
}

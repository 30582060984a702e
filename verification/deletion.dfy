/** The two admin delete routes. Each checks the body's id, then the caller
    (401 without a user, 403 unless the caller's profile has role ADMIN), then
    removes the rows that reference the target before the target itself, one
    table call at a time, stopping at the first refused call without undoing
    the calls before it. */
module Deletion {
  import opened Types
  import opened Store

  /** `POST /api/admin/teams/delete`; `faults` holds the steps (0: unassign
      players, 1: delete matches, 2: delete the team) whose call fails
      upstream. */
  function TeamDeletion(t: Tables, id: Option<string>, user: Option<Id>, faults: set<nat>): (o: Outcome)
    ensures !o.response.Ok? && !o.response.BadRequest? ==> o.tables == t
  {
    if !Truthy(id) then Outcome(BadRequest(MissingId), t)
    else if Gate(t.profiles, user).Some? then Outcome(Gate(t.profiles, user).value, t)
    else
      var team := id.value;
      if 0 in faults then Outcome(BadRequest(Rejected(Upstream)), t)
      else
        var t1 := Unassigned(t, team);
        if 1 in faults then Outcome(BadRequest(Rejected(Upstream)), t1)
        else
          var t2 := WithoutMatchesOf(t1, team);
          match TeamDeleteRejection(t2, team, 2 in faults)
          case Some(e) => Outcome(BadRequest(Rejected(e)), t2)
          case None => Outcome(Ok, WithoutTeam(t2, team))
  }

  method DeleteTeamRoute(store: TournamentStore, id: Option<string>, user: Option<Id>, faults: set<nat>)
    returns (r: Response)
    modifies store
    ensures Outcome(r, store.Snapshot()) == TeamDeletion(old(store.Snapshot()), id, user, faults)
  {
    if !Truthy(id) {
      return BadRequest(MissingId);
    }
    var gate := Gate(store.profiles, user);
    if gate.Some? {
      return gate.value;
    }
    var team := id.value;
    var err := store.UnassignTeam(team, 0 in faults);
    if err.Some? {
      return BadRequest(Rejected(err.value));
    }
    err := store.DeleteMatchesOf(team, 1 in faults);
    if err.Some? {
      return BadRequest(Rejected(err.value));
    }
    err := store.DeleteTeam(team, 2 in faults);
    if err.Some? {
      return BadRequest(Rejected(err.value));
    }
    return Ok;
  }

  /** The id is checked before the caller, and the caller before any write. */
  lemma TeamDeletionGuards(t: Tables, id: Option<string>, user: Option<Id>, faults: set<nat>)
    ensures !Truthy(id) ==> TeamDeletion(t, id, user, faults) == Outcome(BadRequest(MissingId), t)
    ensures Truthy(id) && user.None? ==> TeamDeletion(t, id, user, faults) == Outcome(Unauthorized, t)
    ensures Truthy(id) && user.Some? && !IsAdmin(t.profiles, user.value) ==>
              TeamDeletion(t, id, user, faults) == Outcome(Forbidden, t)
  {
  }

  /** After a successful delete the team is gone and nothing names it: its
      players are unassigned (and otherwise unchanged), exactly the matches it
      played are deleted together with their goals, and profiles, other
      teams, other players, other matches and other goals are unchanged. */
  lemma TeamDeletionEffects(t: Tables, id: Option<string>, user: Option<Id>, faults: set<nat>)
    requires TeamDeletion(t, id, user, faults).response.Ok?
    ensures var r, team := TeamDeletion(t, id, user, faults).tables, id.value;
      team !in r.teams && TeamUnreferenced(r, team)
      && r.profiles == t.profiles && r.teams == t.teams - {team}
      && r.players.Keys == t.players.Keys
      && (forall k :: k in r.players ==>
            r.players[k] == (if t.players[k].teamId == Some(team) then t.players[k].(teamId := None) else t.players[k]))
      && (forall k :: k in r.matches <==> k in t.matches && !InvolvesTeam(t.matches[k], team))
      && (forall k :: k in r.matches ==> r.matches[k] == t.matches[k])
      && (forall k :: k in r.goals <==> k in t.goals && !Cascaded(t, t.goals[k], team))
      && (forall k :: k in r.goals ==> r.goals[k] == t.goals[k])
  {
    var team := id.value;
    var t1 := Unassigned(t, team);
    var t2 := WithoutMatchesOf(t1, team);
    assert t1.matches == t.matches;
    forall k | k in t2.goals ensures !Cascaded(t, t2.goals[k], team) {
      assert !Cascaded(t1, t2.goals[k], team);
    }
    forall k | k in t.goals && !Cascaded(t, t.goals[k], team) ensures k in t2.goals {
      assert !Cascaded(t1, t1.goals[k], team);
    }
  }

  /** A fault-free delete by an admin on a consistent store succeeds and
      leaves it consistent. */
  lemma TeamDeletionSucceeds(t: Tables, id: Option<string>, user: Option<Id>, faults: set<nat>)
    requires Consistent(t) && Truthy(id) && user.Some? && IsAdmin(t.profiles, user.value)
    requires 0 !in faults && 1 !in faults && 2 !in faults
    ensures TeamDeletion(t, id, user, faults).response.Ok?
    ensures Consistent(TeamDeletion(t, id, user, faults).tables)
  {
    var team := id.value;
    var t1 := Unassigned(t, team);
    var t2 := WithoutMatchesOf(t1, team);
    UnassignKeepsConsistent(t, team);
    DeleteMatchesKeepsConsistent(t1, team);
    assert TeamUnreferenced(t2, team);
    DeleteTeamKeepsConsistent(t2, team);
  }

  /** A failed step returns 400 and keeps what the steps before it did: a
      failure unassigning the players writes nothing; a failure deleting
      matches leaves the players unassigned; a failure deleting the team
      leaves the players unassigned and the matches deleted, with the team
      still present. */
  lemma TeamDeletionNoRollback(t: Tables, id: Option<string>, user: Option<Id>, faults: set<nat>)
    requires Truthy(id) && user.Some? && IsAdmin(t.profiles, user.value)
    ensures var o, team := TeamDeletion(t, id, user, faults), id.value;
      (0 in faults ==> o == Outcome(BadRequest(Rejected(Upstream)), t))
      && (0 !in faults && 1 in faults ==>
            o.response.BadRequest? && o.tables == Unassigned(t, team)
            && o.tables.matches == t.matches && o.tables.teams == t.teams)
      && (0 !in faults && 1 !in faults && 2 in faults ==>
            o.response.BadRequest? && o.tables == WithoutMatchesOf(Unassigned(t, team), team)
            && o.tables.teams == t.teams
            && forall k :: k in o.tables.matches ==> !InvolvesTeam(o.tables.matches[k], team))
  {
  }

  /** The route answers 200, 400, 401 or 403: 401 exactly for an id with no
      signed-in user, 403 exactly for an id and a caller who is not an admin. */
  lemma TeamDeletionStatus(t: Tables, id: Option<string>, user: Option<Id>, faults: set<nat>)
    ensures var code := StatusCode(TeamDeletion(t, id, user, faults).response);
      (code == 200 || code == 400 || code == 401 || code == 403)
      && (code == 401 <==> Truthy(id) && user.None?)
      && (code == 403 <==> Truthy(id) && user.Some? && !IsAdmin(t.profiles, user.value))
  {
  }

  /** A consistent store stays consistent whatever the route answers. */
  lemma TeamDeletionKeepsConsistent(t: Tables, id: Option<string>, user: Option<Id>, faults: set<nat>)
    requires Consistent(t)
    ensures Consistent(TeamDeletion(t, id, user, faults).tables)
  {
    if Truthy(id) && Gate(t.profiles, user).None? && 0 !in faults {
      var team := id.value;
      var t1 := Unassigned(t, team);
      UnassignKeepsConsistent(t, team);
      if 1 !in faults {
        var t2 := WithoutMatchesOf(t1, team);
        DeleteMatchesKeepsConsistent(t1, team);
        if TeamDeleteRejection(t2, team, 2 in faults).None? {
          DeleteTeamKeepsConsistent(t2, team);
        }
      }
    }
  }

  // ---------------------------------------------------------------------

  /** `POST /api/admin/players/delete`; `faults` holds the steps (0: delete
      the player's goals, 1: delete the player) whose call fails upstream. */
  function PlayerDeletion(t: Tables, id: Option<string>, user: Option<Id>, faults: set<nat>): (o: Outcome)
    ensures !o.response.Ok? && !o.response.BadRequest? ==> o.tables == t
  {
    if !Truthy(id) then Outcome(BadRequest(MissingId), t)
    else if Gate(t.profiles, user).Some? then Outcome(Gate(t.profiles, user).value, t)
    else
      var player := id.value;
      if 0 in faults then Outcome(BadRequest(Rejected(Upstream)), t)
      else
        var t1 := WithoutGoalsBy(t, player);
        match PlayerDeleteRejection(t1, player, 1 in faults)
        case Some(e) => Outcome(BadRequest(Rejected(e)), t1)
        case None => Outcome(Ok, WithoutPlayer(t1, player))
  }

  method DeletePlayerRoute(store: TournamentStore, id: Option<string>, user: Option<Id>, faults: set<nat>)
    returns (r: Response)
    modifies store
    ensures Outcome(r, store.Snapshot()) == PlayerDeletion(old(store.Snapshot()), id, user, faults)
  {
    if !Truthy(id) {
      return BadRequest(MissingId);
    }
    var gate := Gate(store.profiles, user);
    if gate.Some? {
      return gate.value;
    }
    var player := id.value;
    var err := store.DeleteGoalsBy(player, 0 in faults);
    if err.Some? {
      return BadRequest(Rejected(err.value));
    }
    err := store.DeletePlayer(player, 1 in faults);
    if err.Some? {
      return BadRequest(Rejected(err.value));
    }
    return Ok;
  }

  lemma PlayerDeletionGuards(t: Tables, id: Option<string>, user: Option<Id>, faults: set<nat>)
    ensures !Truthy(id) ==> PlayerDeletion(t, id, user, faults) == Outcome(BadRequest(MissingId), t)
    ensures Truthy(id) && user.None? ==> PlayerDeletion(t, id, user, faults) == Outcome(Unauthorized, t)
    ensures Truthy(id) && user.Some? && !IsAdmin(t.profiles, user.value) ==>
              PlayerDeletion(t, id, user, faults) == Outcome(Forbidden, t)
  {
  }

  /** An admin's delete succeeds exactly when neither call fails upstream:
      once the player's goals are gone nothing else can refuse it. */
  lemma PlayerDeletionSucceedsIff(t: Tables, id: Option<string>, user: Option<Id>, faults: set<nat>)
    requires Truthy(id) && user.Some? && IsAdmin(t.profiles, user.value)
    ensures PlayerDeletion(t, id, user, faults).response.Ok? <==> 0 !in faults && 1 !in faults
  {
  }

  /** After a successful delete the player row is gone, no goal names it, its
      goals and only those are deleted, and profiles, teams, matches and the
      other players are unchanged. */
  lemma PlayerDeletionEffects(t: Tables, id: Option<string>, user: Option<Id>, faults: set<nat>)
    requires PlayerDeletion(t, id, user, faults).response.Ok?
    ensures var r, player := PlayerDeletion(t, id, user, faults).tables, id.value;
      player !in r.players && PlayerUnreferenced(r, player)
      && r.profiles == t.profiles && r.teams == t.teams && r.matches == t.matches
      && r.players == t.players - {player}
      && (forall k :: k in r.goals <==> k in t.goals && t.goals[k].playerId != player)
      && (forall k :: k in r.goals ==> r.goals[k] == t.goals[k])
  {
  }

  /** The route answers 200, 400, 401 or 403: 401 exactly for an id with no
      signed-in user, 403 exactly for an id and a caller who is not an admin. */
  lemma PlayerDeletionStatus(t: Tables, id: Option<string>, user: Option<Id>, faults: set<nat>)
    ensures var code := StatusCode(PlayerDeletion(t, id, user, faults).response);
      (code == 200 || code == 400 || code == 401 || code == 403)
      && (code == 401 <==> Truthy(id) && user.None?)
      && (code == 403 <==> Truthy(id) && user.Some? && !IsAdmin(t.profiles, user.value))
  {
  }

  /** A failed goal deletion returns 400 and leaves everything, the player
      row included, in place; a failed player deletion returns 400 with the
      goals already deleted. */
  lemma PlayerDeletionNoRollback(t: Tables, id: Option<string>, user: Option<Id>, faults: set<nat>)
    requires Truthy(id) && user.Some? && IsAdmin(t.profiles, user.value)
    ensures var o := PlayerDeletion(t, id, user, faults);
      (0 in faults ==> o == Outcome(BadRequest(Rejected(Upstream)), t))
      && (0 !in faults && 1 in faults ==>
            o.response.BadRequest? && o.tables == WithoutGoalsBy(t, id.value)
            && o.tables.players == t.players)
  {
  }

  lemma PlayerDeletionKeepsConsistent(t: Tables, id: Option<string>, user: Option<Id>, faults: set<nat>)
    requires Consistent(t)
    ensures Consistent(PlayerDeletion(t, id, user, faults).tables)
  {
    if Truthy(id) && Gate(t.profiles, user).None? && 0 !in faults {
      var player := id.value;
      var t1 := WithoutGoalsBy(t, player);
      DeleteGoalsKeepsConsistent(t, player);
      if PlayerDeleteRejection(t1, player, 1 in faults).None? {
        DeletePlayerKeepsConsistent(t1, player);
      }
    }
  }
}

/** The goal route: a goal row is inserted for a match and a player; the
    match's score is not touched and the caller is not checked. */
module GoalRoutes {
  import opened Types
  import opened Store

  /** The insert the route sends: `minute ?? 0`, and no `ownGoal`. */
  function GoalInsertFor(matchId: Id, playerId: Id, minute: Option<int>): (ins: GoalInsert)
    ensures ins.matchId == matchId && ins.playerId == playerId
    ensures ins.minute == (if minute.Some? then minute.value else 0)
    ensures ins.ownGoal.None?
  {
    GoalInsert(matchId, playerId, OrElse(minute, 0), None)
  }

  /** `POST /api/admin/goals/add`, given the id and timestamp the store
      assigns and whether the insert call fails upstream. */
  function AddGoal(t: Tables, matchId: Option<string>, playerId: Option<string>, minute: Option<int>,
                   newId: Id, now: string, fault: bool): (o: Outcome)
    ensures o.response.Ok? || o.response.BadRequest?
    ensures !o.response.Ok? ==> o.tables == t
  {
    if !Truthy(matchId) || !Truthy(playerId) then Outcome(BadRequest(MissingMatchOrPlayer), t)
    else
      var g := GoalFromInsert(GoalInsertFor(matchId.value, playerId.value, minute), newId, now);
      match GoalInsertRejection(t, g, fault)
      case Some(e) => Outcome(BadRequest(Rejected(e)), t)
      case None => Outcome(Ok, WithGoal(t, g))
  }

  lemma AddGoalValidates(t: Tables, matchId: Option<string>, playerId: Option<string>, minute: Option<int>,
                         newId: Id, now: string, fault: bool)
    ensures !Truthy(matchId) || !Truthy(playerId)
        <==> AddGoal(t, matchId, playerId, minute, newId, now, fault) == Outcome(BadRequest(MissingMatchOrPlayer), t)
  {
  }

  /** The route answers 200 exactly when both ids are given and name an
      existing match and player, the goal id is free and the call does not
      fail. */
  lemma AddGoalSucceedsIff(t: Tables, matchId: Option<string>, playerId: Option<string>, minute: Option<int>,
                           newId: Id, now: string, fault: bool)
    ensures AddGoal(t, matchId, playerId, minute, newId, now, fault).response.Ok?
        <==> Truthy(matchId) && Truthy(playerId) && !fault && newId !in t.goals
             && matchId.value in t.matches && playerId.value in t.players
  {
  }

  /** On success only the goals table changes, by exactly one new row whose
      minute is the given one or 0 and which is not an own goal; the match
      and its score are unchanged. */
  lemma AddGoalAddsOneRow(t: Tables, matchId: Option<string>, playerId: Option<string>, minute: Option<int>,
                          newId: Id, now: string, fault: bool)
    requires AddGoal(t, matchId, playerId, minute, newId, now, fault).response.Ok?
    ensures var r := AddGoal(t, matchId, playerId, minute, newId, now, fault).tables;
      r == t.(goals := r.goals) && r.matches == t.matches
      && newId !in t.goals && r.goals.Keys == t.goals.Keys + {newId}
      && |r.goals| == |t.goals| + 1
      && (forall k :: k in t.goals ==> r.goals[k] == t.goals[k])
      && var g := r.goals[newId];
      Some(g.matchId) == matchId && Some(g.playerId) == playerId
      && g.minute == (if minute.Some? then minute.value else 0)
      && !g.ownGoal
  {
    var r := AddGoal(t, matchId, playerId, minute, newId, now, fault).tables;
    assert r.goals.Keys == t.goals.Keys + {newId};
    assert |r.goals.Keys| == |t.goals.Keys| + 1;
  }

  lemma AddGoalKeepsConsistent(t: Tables, matchId: Option<string>, playerId: Option<string>, minute: Option<int>,
                               newId: Id, now: string, fault: bool)
    requires Consistent(t)
    ensures Consistent(AddGoal(t, matchId, playerId, minute, newId, now, fault).tables)
  {
    if AddGoal(t, matchId, playerId, minute, newId, now, fault).response.Ok? {
      InsertGoalKeepsConsistent(t, GoalFromInsert(GoalInsertFor(matchId.value, playerId.value, minute), newId, now));
    }
  }
}

/** The two match routes: creation (required fields, distinct teams, status
    and score defaults, one insert) and patching (payload check, one update
    by id). Neither route checks who is calling. */
module MatchRoutes {
  import opened Types
  import opened Store

  /** The fields the create route reads from its JSON body; a missing body
      reads as every field absent. */
  datatype NewMatchBody = NewMatchBody(
    homeTeamId: Option<string>,
    awayTeamId: Option<string>,
    startsAt: Option<string>,
    venue: Option<string>,
    status: Option<MatchStatus>,
    homeScore: Option<int>,
    awayScore: Option<int>)

  /** `!homeTeamId || !awayTeamId || !startsAt || !venue`. */
  predicate MissingRequired(b: NewMatchBody) {
    !Truthy(b.homeTeamId) || !Truthy(b.awayTeamId) || !Truthy(b.startsAt) || !Truthy(b.venue)
  }

  /** The insert the route sends: status and scores always given, defaulted
      with `??`; no group label. */
  function InsertFor(b: NewMatchBody): (ins: MatchInsert)
    requires !MissingRequired(b)
    ensures ins.status.Some? && ins.homeScore.Some? && ins.awayScore.Some? && ins.groupLabel.None?
  {
    MatchInsert(b.homeTeamId.value, b.awayTeamId.value, b.startsAt.value, b.venue.value,
                Some(OrElse(b.status, DefaultStatus)),
                Some(OrElse(b.homeScore, DefaultScore)),
                Some(OrElse(b.awayScore, DefaultScore)),
                None)
  }

  /** `POST /api/admin/matches/create`, given the id and timestamp the store
      assigns and whether the insert call fails upstream. */
  function CreateMatch(t: Tables, b: NewMatchBody, newId: Id, now: string, fault: bool): (o: Outcome)
    ensures o.response.Ok? || o.response.BadRequest?
    ensures !o.response.Ok? ==> o.tables == t
  {
    if MissingRequired(b) then Outcome(BadRequest(MissingFields), t)
    else if b.homeTeamId.value == b.awayTeamId.value then Outcome(BadRequest(SameTeams), t)
    else
      var m := MatchFromInsert(InsertFor(b), newId, now);
      match MatchInsertRejection(t, m, fault)
      case Some(e) => Outcome(BadRequest(Rejected(e)), t)
      case None => Outcome(Ok, WithMatch(t, m))
  }

  /** A missing field is reported first, even when the teams also coincide;
      equal teams are reported next; neither writes. */
  lemma CreateMatchValidates(t: Tables, b: NewMatchBody, newId: Id, now: string, fault: bool)
    ensures MissingRequired(b) ==> CreateMatch(t, b, newId, now, fault) == Outcome(BadRequest(MissingFields), t)
    ensures !MissingRequired(b) && b.homeTeamId == b.awayTeamId ==>
              CreateMatch(t, b, newId, now, fault) == Outcome(BadRequest(SameTeams), t)
  {
  }

  /** The route answers 200 exactly when the body is complete, the teams
      differ, both teams exist, the id is free and the call does not fail. */
  lemma CreateMatchSucceedsIff(t: Tables, b: NewMatchBody, newId: Id, now: string, fault: bool)
    ensures CreateMatch(t, b, newId, now, fault).response.Ok?
        <==> !MissingRequired(b) && b.homeTeamId != b.awayTeamId && !fault && newId !in t.matches
             && b.homeTeamId.value in t.teams && b.awayTeamId.value in t.teams
  {
  }

  /** On success exactly one match row is added, built from the body with
      status defaulting to UPCOMING and scores to 0 only when absent; every
      other table is unchanged. */
  lemma CreateMatchAddsOneRow(t: Tables, b: NewMatchBody, newId: Id, now: string, fault: bool)
    requires CreateMatch(t, b, newId, now, fault).response.Ok?
    ensures var r := CreateMatch(t, b, newId, now, fault).tables;
      r == t.(matches := r.matches)
      && newId !in t.matches && r.matches.Keys == t.matches.Keys + {newId}
      && |r.matches| == |t.matches| + 1
      && (forall k :: k in t.matches ==> r.matches[k] == t.matches[k])
      && var m := r.matches[newId];
      m.id == newId && Some(m.homeTeamId) == b.homeTeamId && Some(m.awayTeamId) == b.awayTeamId
      && Some(m.startsAt) == b.startsAt && Some(m.venue) == b.venue
      && m.status == (if b.status.Some? then b.status.value else UPCOMING)
      && m.homeScore == (if b.homeScore.Some? then b.homeScore.value else 0)
      && m.awayScore == (if b.awayScore.Some? then b.awayScore.value else 0)
      && m.groupLabel.None? && m.homeTeamId != m.awayTeamId
  {
    var r := CreateMatch(t, b, newId, now, fault).tables;
    assert r.matches.Keys == t.matches.Keys + {newId};
    assert |r.matches.Keys| == |t.matches.Keys| + 1;
  }

  lemma CreateMatchKeepsConsistent(t: Tables, b: NewMatchBody, newId: Id, now: string, fault: bool)
    requires Consistent(t)
    ensures Consistent(CreateMatch(t, b, newId, now, fault).tables)
  {
    if CreateMatch(t, b, newId, now, fault).response.Ok? {
      InsertMatchKeepsConsistent(t, MatchFromInsert(InsertFor(b), newId, now));
    }
  }

  // ---------------------------------------------------------------------

  /** `POST /api/admin/matches/update`: `patch` is None when it is not an
      object. */
  function UpdateMatch(t: Tables, id: Option<string>, patch: Option<MatchUpdate>, fault: bool): (o: Outcome)
    ensures o.response.Ok? || o.response.BadRequest?
    ensures !o.response.Ok? ==> o.tables == t
  {
    if !Truthy(id) || patch.None? then Outcome(BadRequest(InvalidPayload), t)
    else
      match PatchRejection(t, id.value, patch.value, fault)
      case Some(e) => Outcome(BadRequest(Rejected(e)), t)
      case None => Outcome(Ok, WithMatchPatched(t, id.value, patch.value))
  }

  lemma UpdateMatchValidates(t: Tables, id: Option<string>, patch: Option<MatchUpdate>, fault: bool)
    ensures !Truthy(id) || patch.None? <==> UpdateMatch(t, id, patch, fault).response == BadRequest(InvalidPayload)
  {
  }

  /** Only the addressed match changes: present fields overwrite, absent ones
      keep their value; every other row and table is unchanged, and an id
      that names no match changes nothing yet still answers 200. */
  lemma UpdateMatchOnlyTarget(t: Tables, id: Option<string>, patch: Option<MatchUpdate>, fault: bool)
    requires UpdateMatch(t, id, patch, fault).response.Ok?
    ensures var r := UpdateMatch(t, id, patch, fault).tables;
      r == t.(matches := r.matches) && r.matches.Keys == t.matches.Keys
      && (forall k :: k in t.matches && k != id.value ==> r.matches[k] == t.matches[k])
      && (id.value in t.matches ==>
            var before, after := t.matches[id.value], r.matches[id.value];
            after.id == before.id
            && after.status == (if patch.value.status.Some? then patch.value.status.value else before.status)
            && after.homeScore == (if patch.value.homeScore.Some? then patch.value.homeScore.value else before.homeScore)
            && after.awayScore == (if patch.value.awayScore.Some? then patch.value.awayScore.value else before.awayScore)
            && after.homeTeamId == (if patch.value.homeTeamId.Some? then patch.value.homeTeamId.value else before.homeTeamId)
            && after.awayTeamId == (if patch.value.awayTeamId.Some? then patch.value.awayTeamId.value else before.awayTeamId)
            && after.startsAt == (if patch.value.startsAt.Some? then patch.value.startsAt.value else before.startsAt)
            && after.venue == (if patch.value.venue.Some? then patch.value.venue.value else before.venue)
            && after.groupLabel == (if patch.value.groupLabel.Some? then patch.value.groupLabel.value else before.groupLabel)
            && after.createdAt == (if patch.value.createdAt.Some? then patch.value.createdAt.value else before.createdAt)
            && after.updatedAt == (if patch.value.updatedAt.Some? then patch.value.updatedAt.value else before.updatedAt))
      && (id.value !in t.matches ==> r == t)
  {
  }

  /** There is no transition or range check: any status (DONE back to
      UPCOMING included) and any scores, negative ones included, are stored. */
  lemma UpdateMatchAcceptsAnyStatus(t: Tables, id: Id, s: MatchStatus, home: int, away: int)
    requires Consistent(t) && id != "" && id in t.matches
    ensures var u := NoChange().(status := Some(s), homeScore := Some(home), awayScore := Some(away));
      var o := UpdateMatch(t, Some(id), Some(u), false);
      o.response.Ok? && o.tables.matches[id].status == s
      && o.tables.matches[id].homeScore == home && o.tables.matches[id].awayScore == away
  {
  }

  /** Unlike creation, a patch may give a match the same home and away team. */
  lemma UpdateMatchAllowsSameTeams(t: Tables, id: Id, team: Id)
    requires id != "" && id in t.matches && team in t.teams
    ensures var u := NoChange().(homeTeamId := Some(team), awayTeamId := Some(team));
      var o := UpdateMatch(t, Some(id), Some(u), false);
      o.response.Ok? && o.tables.matches[id].homeTeamId == o.tables.matches[id].awayTeamId
  {
  }

  lemma UpdateMatchKeepsConsistent(t: Tables, id: Option<string>, patch: Option<MatchUpdate>, fault: bool)
    requires Consistent(t)
    ensures Consistent(UpdateMatch(t, id, patch, fault).tables)
  {
    if UpdateMatch(t, id, patch, fault).response.Ok? {
      PatchKeepsConsistent(t, id.value, patch.value);
    }
  }
}

/** Batch reassignment of players to teams: entries are applied one by one,
    in order; an entry without an id is skipped; the first refused update
    ends the batch with 400 and earlier updates stay applied. The players
    assignment route and the admin request route carry the same loop; neither
    checks who is calling. */
module Reassignment {
  import opened Types
  import opened Store

  /** One element of `updates`: `u?.id` and `u.teamId ?? null`. */
  datatype Entry = Entry(id: Option<string>, teamId: Option<Id>)

  /** The `updates` field of the body: an array, or anything else. */
  datatype Payload = NotAnArray | Updates(entries: seq<Entry>)

  /** The entry names a player (`u?.id` is truthy) and that player is `p`. */
  predicate Targets(e: Entry, p: Id) {
    Truthy(e.id) && e.id.value == p
  }

  /** Entry `i` of the batch applied to `t`; `faults` holds the indices of
      the entries whose update call fails upstream. */
  function ApplyEntry(t: Tables, e: Entry, i: nat, faults: set<nat>): (o: Outcome)
    ensures o.response.Ok? || o.response.BadRequest?
    ensures !Truthy(e.id) ==> o == Outcome(Ok, t)
  {
    if !Truthy(e.id) then Outcome(Ok, t)
    else
      match AssignRejection(t, e.id.value, e.teamId, i in faults)
      case Some(err) => Outcome(BadRequest(Rejected(err)), t)
      case None => Outcome(Ok, WithPlayerTeam(t, e.id.value, e.teamId))
  }

  /** The entries applied in order, stopping at the first refusal. */
  function Reassigned(t: Tables, es: seq<Entry>, faults: set<nat>): (o: Outcome)
    ensures o.response.Ok? || o.response.BadRequest?
  {
    if es == [] then Outcome(Ok, t)
    else
      var n := |es| - 1;
      var prefix := Reassigned(t, es[..n], faults);
      if !prefix.response.Ok? then prefix
      else ApplyEntry(prefix.tables, es[n], n, faults)
  }

  /** The route: a body whose `updates` is not an array is refused unread. */
  function Reassignment(t: Tables, p: Payload, faults: set<nat>): (o: Outcome)
    ensures p.NotAnArray? ==> o == Outcome(BadRequest(InvalidPayload), t)
  {
    match p
    case NotAnArray => Outcome(BadRequest(InvalidPayload), t)
    case Updates(es) => Reassigned(t, es, faults)
  }

  /** `POST /api/admin/players/assign`: the sequential update loop. */
  method AssignPlayers(store: TournamentStore, payload: Payload, faults: set<nat>) returns (r: Response)
    modifies store
    ensures Outcome(r, store.Snapshot()) == Reassignment(old(store.Snapshot()), payload, faults)
  {
    if payload.NotAnArray? {
      return BadRequest(InvalidPayload);
    }
    var updates := payload.entries;
    ghost var t0 := store.Snapshot();
    for i := 0 to |updates|
      invariant Reassigned(t0, updates[..i], faults) == Outcome(Ok, store.Snapshot())
    {
      var u := updates[i];
      assert updates[..i + 1][..i] == updates[..i];
      if !Truthy(u.id) {
        continue;
      }
      var err := store.SetPlayerTeam(u.id.value, u.teamId, i in faults);
      if err.Some? {
        ReassignedStops(t0, updates, i + 1, faults);
        return BadRequest(Rejected(err.value));
      }
    }
    assert updates[..|updates|] == updates;
    return Ok;
  }

  /** `POST /api/admin/request`: the same loop as the assignment route. */
  method RequestReassign(store: TournamentStore, payload: Payload, faults: set<nat>) returns (r: Response)
    modifies store
    ensures Outcome(r, store.Snapshot()) == Reassignment(old(store.Snapshot()), payload, faults)
  {
    r := AssignPlayers(store, payload, faults);
  }

  // ---------------------------------------------------------------------
  // What the batch does.

  /** Once an entry is refused, later entries change nothing. */
  lemma {:induction false} ReassignedStops(t: Tables, es: seq<Entry>, k: nat, faults: set<nat>)
    requires k <= |es|
    requires !Reassigned(t, es[..k], faults).response.Ok?
    ensures Reassigned(t, es, faults) == Reassigned(t, es[..k], faults)
  {
    if k < |es| {
      var n := |es| - 1;
      assert es[..n][..k] == es[..k];
      ReassignedStops(t, es[..n], k, faults);
    } else {
      assert es[..k] == es;
    }
  }

  /** The first refused entry decides the answer: the updates before it stay
      applied, it and every later entry are not. */
  lemma FirstRefusalStops(t: Tables, es: seq<Entry>, k: nat, faults: set<nat>)
    requires k < |es|
    requires Reassigned(t, es[..k], faults).response.Ok?
    requires ApplyEntry(Reassigned(t, es[..k], faults).tables, es[k], k, faults).response.BadRequest?
    ensures Reassigned(t, es, faults)
         == Outcome(ApplyEntry(Reassigned(t, es[..k], faults).tables, es[k], k, faults).response,
                    Reassigned(t, es[..k], faults).tables)
  {
    assert es[..k + 1][..k] == es[..k];
    ReassignedStops(t, es, k + 1, faults);
  }

  /** An entry without an id is skipped. */
  lemma EntryWithoutIdSkipped(t: Tables, es: seq<Entry>, e: Entry, faults: set<nat>)
    requires !Truthy(e.id)
    ensures Reassigned(t, es + [e], faults) == Reassigned(t, es, faults)
  {
    assert (es + [e])[..|es|] == es;
  }

  /** Whatever the answer, only the `teamId` of existing players changes:
      no player is added or removed, and every other table is unchanged. */
  lemma {:induction false} ReassignedOnlyTeamIds(t: Tables, es: seq<Entry>, faults: set<nat>)
    ensures var r := Reassigned(t, es, faults).tables;
      r == t.(players := r.players) && r.players.Keys == t.players.Keys
      && forall k :: k in r.players ==> r.players[k] == t.players[k].(teamId := r.players[k].teamId)
  {
    if es != [] {
      ReassignedOnlyTeamIds(t, es[..|es| - 1], faults);
    }
  }

  /** The team of the last entry naming `p`, or `current` when none does. */
  function LastTeam(es: seq<Entry>, p: Id, current: Option<Id>): Option<Id> {
    if es == [] then current
    else if Targets(es[|es| - 1], p) then es[|es| - 1].teamId
    else LastTeam(es[..|es| - 1], p, current)
  }

  /** When the batch succeeds, each player's team is the one given by the
      last entry that names them (null when that entry has no team), so a
      later entry for the same player wins; players no entry names keep
      their team. */
  lemma {:induction false} LastEntryWins(t: Tables, es: seq<Entry>, faults: set<nat>, p: Id)
    requires Reassigned(t, es, faults).response.Ok?
    requires p in t.players
    ensures p in Reassigned(t, es, faults).tables.players
    ensures Reassigned(t, es, faults).tables.players[p].teamId == LastTeam(es, p, t.players[p].teamId)
  {
    ReassignedOnlyTeamIds(t, es, faults);
    if es != [] {
      var n := |es| - 1;
      LastEntryWins(t, es[..n], faults, p);
      ReassignedOnlyTeamIds(t, es[..n], faults);
    }
  }

  /** When every named team exists and no call fails upstream, the whole
      batch is applied and the route answers 200. */
  lemma {:induction false} ReassignedSucceeds(t: Tables, es: seq<Entry>, faults: set<nat>)
    requires forall i :: 0 <= i < |es| && Truthy(es[i].id) ==>
               i !in faults && (es[i].teamId.Some? ==> es[i].teamId.value in t.teams)
    ensures Reassigned(t, es, faults).response.Ok?
  {
    if es != [] {
      var n := |es| - 1;
      assert forall i :: 0 <= i < n ==> es[..n][i] == es[i];
      ReassignedSucceeds(t, es[..n], faults);
      ReassignedOnlyTeamIds(t, es[..n], faults);
    }
  }

  /** A consistent store stays consistent whatever the batch does. */
  lemma {:induction false} ReassignedKeepsConsistent(t: Tables, es: seq<Entry>, faults: set<nat>)
    requires Consistent(t)
    ensures Consistent(Reassigned(t, es, faults).tables)
  {
    if es != [] {
      var n := |es| - 1;
      ReassignedKeepsConsistent(t, es[..n], faults);
      var prefix := Reassigned(t, es[..n], faults);
      if prefix.response.Ok? && Truthy(es[n].id)
         && AssignRejection(prefix.tables, es[n].id.value, es[n].teamId, n in faults).None? {
        AssignKeepsConsistent(prefix.tables, es[n].id.value, es[n].teamId);
      }
    }
  }
}

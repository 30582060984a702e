/** Row shapes of the tournament database: profiles, teams, players, matches
    and goals, with the Insert and Update variants the admin routes build. */
module Types {

  /** Row identifiers are opaque strings (UUIDs generated by the store). */
  type Id = string

  /** A nullable or omitted value. */
  datatype Option<+T> = None | Some(value: T)

  /** The JavaScript `a ?? b`: the value when present, otherwise the default. */
  function OrElse<T>(o: Option<T>, default: T): (r: T)
    ensures o.Some? ==> r == o.value
    ensures o.None? ==> r == default
  {
    match o
    case Some(v) => v
    case None => default
  }

  /** JavaScript truthiness of an optional string field: absent, null and the
      empty string are all falsy. */
  predicate Truthy(s: Option<string>) {
    s.Some? && s.value != ""
  }

  /** A profile's role is exactly one of two values. */
  datatype Role = PLAYER | ADMIN

  /** A match's status is exactly one of three values. */
  datatype MatchStatus = UPCOMING | LIVE | DONE

  datatype Profile = Profile(
    id: Id,
    username: string,
    fullName: string,
    university: string,
    role: Role,
    createdAt: string,
    updatedAt: string)

  datatype Team = Team(
    id: Id,
    name: string,
    university: string,
    groupLabel: Option<string>,
    createdAt: string,
    updatedAt: string)

  /** `teamId == None` means the player is unassigned. */
  datatype Player = Player(
    id: Id,
    profileId: Id,
    teamId: Option<Id>,
    createdAt: string,
    updatedAt: string)

  datatype Match = Match(
    id: Id,
    homeTeamId: Id,
    awayTeamId: Id,
    startsAt: string,
    venue: string,
    status: MatchStatus,
    homeScore: int,
    awayScore: int,
    groupLabel: Option<string>,
    createdAt: string,
    updatedAt: string)

  datatype Goal = Goal(
    id: Id,
    matchId: Id,
    playerId: Id,
    minute: int,
    ownGoal: bool,
    createdAt: string)

  /** A match insert: status, scores and group label may be omitted. */
  datatype MatchInsert = MatchInsert(
    homeTeamId: Id,
    awayTeamId: Id,
    startsAt: string,
    venue: string,
    status: Option<MatchStatus>,
    homeScore: Option<int>,
    awayScore: Option<int>,
    groupLabel: Option<Option<string>>)

  /** A goal insert: `ownGoal` may be omitted. */
  datatype GoalInsert = GoalInsert(
    matchId: Id,
    playerId: Id,
    minute: int,
    ownGoal: Option<bool>)

  /** A match update: every field is optional; a present field overwrites. */
  datatype MatchUpdate = MatchUpdate(
    homeTeamId: Option<Id>,
    awayTeamId: Option<Id>,
    startsAt: Option<string>,
    venue: Option<string>,
    status: Option<MatchStatus>,
    homeScore: Option<int>,
    awayScore: Option<int>,
    groupLabel: Option<Option<string>>,
    createdAt: Option<string>,
    updatedAt: Option<string>)

  /** Store-side column defaults. */
  const DefaultStatus: MatchStatus := UPCOMING
  const DefaultScore: int := 0
  const DefaultOwnGoal: bool := false

  /** The row the store creates from a match insert, given the generated id
      and the current timestamp. */
  function MatchFromInsert(ins: MatchInsert, id: Id, now: string): (m: Match)
    ensures m.id == id && m.createdAt == now && m.updatedAt == now
    ensures m.homeTeamId == ins.homeTeamId && m.awayTeamId == ins.awayTeamId
    ensures m.startsAt == ins.startsAt && m.venue == ins.venue
    ensures m.status == (if ins.status.Some? then ins.status.value else UPCOMING)
    ensures m.homeScore == (if ins.homeScore.Some? then ins.homeScore.value else 0)
    ensures m.awayScore == (if ins.awayScore.Some? then ins.awayScore.value else 0)
    ensures m.groupLabel == (if ins.groupLabel.Some? then ins.groupLabel.value else None)
  {
    Match(id, ins.homeTeamId, ins.awayTeamId, ins.startsAt, ins.venue,
          OrElse(ins.status, DefaultStatus),
          OrElse(ins.homeScore, DefaultScore),
          OrElse(ins.awayScore, DefaultScore),
          OrElse(ins.groupLabel, None),
          now, now)
  }

  /** The row the store creates from a goal insert. */
  function GoalFromInsert(ins: GoalInsert, id: Id, now: string): (g: Goal)
    ensures g.id == id && g.createdAt == now
    ensures g.matchId == ins.matchId && g.playerId == ins.playerId && g.minute == ins.minute
    ensures g.ownGoal == (ins.ownGoal.Some? && ins.ownGoal.value)
  {
    Goal(id, ins.matchId, ins.playerId, ins.minute, OrElse(ins.ownGoal, DefaultOwnGoal), now)
  }

  /** Applies an update: present fields overwrite, absent fields keep their
      stored value; the id never changes. */
  function ApplyUpdate(m: Match, u: MatchUpdate): (r: Match)
    ensures r.id == m.id
    ensures r.homeTeamId == OrElse(u.homeTeamId, m.homeTeamId)
    ensures r.awayTeamId == OrElse(u.awayTeamId, m.awayTeamId)
    ensures r.status == OrElse(u.status, m.status)
    ensures r.homeScore == OrElse(u.homeScore, m.homeScore)
    ensures r.awayScore == OrElse(u.awayScore, m.awayScore)
    ensures r.startsAt == OrElse(u.startsAt, m.startsAt)
    ensures r.venue == OrElse(u.venue, m.venue)
    ensures r.groupLabel == OrElse(u.groupLabel, m.groupLabel)
    ensures r.createdAt == OrElse(u.createdAt, m.createdAt)
    ensures r.updatedAt == OrElse(u.updatedAt, m.updatedAt)
    ensures u == NoChange() ==> r == m
  {
    Match(m.id,
          OrElse(u.homeTeamId, m.homeTeamId),
          OrElse(u.awayTeamId, m.awayTeamId),
          OrElse(u.startsAt, m.startsAt),
          OrElse(u.venue, m.venue),
          OrElse(u.status, m.status),
          OrElse(u.homeScore, m.homeScore),
          OrElse(u.awayScore, m.awayScore),
          OrElse(u.groupLabel, m.groupLabel),
          OrElse(u.createdAt, m.createdAt),
          OrElse(u.updatedAt, m.updatedAt))
  }

  /** The empty update. */
  function NoChange(): MatchUpdate {
    MatchUpdate(None, None, None, None, None, None, None, None, None, None)
  }
}

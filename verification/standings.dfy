/** The standings half of the leaderboard: every finished match credits both
    sides with a played match, its goals and a win, draw or loss (3-1-0
    points); the per-team records are ranked by points, then goal
    difference. */
module Standings {
  import opened Types
  import opened Ranking

  /** A team as joined onto a match row. */
  datatype TeamRef = TeamRef(id: Id, name: string, university: string, groupLabel: Option<string>)

  /** One row of the matches query, joined with both teams. */
  datatype MatchRow = MatchRow(
    id: Id,
    status: MatchStatus,
    homeScore: int,
    awayScore: int,
    homeTeam: TeamRef,
    awayTeam: TeamRef)

  /** The counters of one standings row. */
  datatype Figures = Figures(
    matchesPlayed: nat,
    wins: nat,
    draws: nat,
    losses: nat,
    goalsFor: int,
    goalsAgainst: int,
    points: nat)

  /** One standings row. */
  datatype TeamStats = TeamStats(
    teamId: Id,
    teamName: string,
    university: string,
    groupLabel: string,
    figures: Figures)

  const Zero: Figures := Figures(0, 0, 0, 0, 0, 0, 0)

  function Plus(a: Figures, b: Figures): Figures {
    Figures(a.matchesPlayed + b.matchesPlayed, a.wins + b.wins, a.draws + b.draws,
            a.losses + b.losses, a.goalsFor + b.goalsFor, a.goalsAgainst + b.goalsAgainst,
            a.points + b.points)
  }

  lemma PlusZero(a: Figures)
    ensures Plus(a, Zero) == a
  {
  }

  lemma PlusAssociates(a: Figures, b: Figures, c: Figures)
    ensures Plus(a, Plus(b, c)) == Plus(Plus(a, b), c)
  {
  }

  lemma PlusSwap(a: Figures, b: Figures, c: Figures)
    ensures Plus(Plus(a, b), c) == Plus(Plus(a, c), b)
  {
  }

  lemma PlusInside(a: Figures, x: Figures, f: Figures, r: Figures)
    ensures Plus(Plus(a, Plus(x, f)), r) == Plus(Plus(Plus(a, x), r), f)
  {
  }

  /** Played equals wins plus draws plus losses, and points are three per win
      and one per draw. */
  predicate Balanced(f: Figures) {
    f.matchesPlayed == f.wins + f.draws + f.losses && f.points == 3 * f.wins + f.draws
  }

  /** What one finished match adds to a side that scored `scored` and
      conceded `conceded`. */
  function Result(scored: int, conceded: int): (f: Figures)
    ensures Balanced(f) && f.matchesPlayed == 1
    ensures f.goalsFor == scored && f.goalsAgainst == conceded
    ensures f.wins == 1 <==> scored > conceded
    ensures f.losses == 1 <==> scored < conceded
    ensures f.draws == 1 <==> scored == conceded
  {
    if scored > conceded then Figures(1, 1, 0, 0, scored, conceded, 3)
    else if scored < conceded then Figures(1, 0, 0, 1, scored, conceded, 0)
    else Figures(1, 0, 1, 0, scored, conceded, 1)
  }

  /** One match hands out three points when decisive and two when drawn,
      exactly one win per loss, and as many goals for as against. */
  lemma MatchHandsOut(h: int, a: int)
    ensures var f := Plus(Result(h, a), Result(a, h));
      f.matchesPlayed == 2 && f.wins == f.losses && f.goalsFor == f.goalsAgainst == h + a
      && f.points == (if h == a then 2 else 3)
      && f.wins == (if h == a then 0 else 1) && f.draws == (if h == a then 2 else 0)
  {
  }

  // ---------------------------------------------------------------------
  // Reference definitions over the match rows.

  /** The `.eq('status', 'DONE')` filter of the query. */
  function DoneOnly(ms: seq<MatchRow>): (r: seq<MatchRow>)
    ensures forall i :: 0 <= i < |r| ==> r[i].status == DONE
    ensures |r| <= |ms|
  {
    if ms == [] then []
    else
      var n := |ms| - 1;
      DoneOnly(ms[..n]) + (if ms[n].status == DONE then [ms[n]] else [])
  }

  /** The filter keeps every finished match, as often as the query returns
      it, and drops every other match. */
  lemma {:induction false} DoneOnlyCounts(ms: seq<MatchRow>)
    ensures forall m :: multiset(DoneOnly(ms))[m] == if m.status == DONE then multiset(ms)[m] else 0
  {
    if ms != [] {
      var n := |ms| - 1;
      assert ms == ms[..n] + [ms[n]];
      DoneOnlyCounts(ms[..n]);
    }
  }

  predicate Involves(m: MatchRow, id: Id) {
    m.homeTeam.id == id || m.awayTeam.id == id
  }

  predicate Plays(ms: seq<MatchRow>, id: Id) {
    exists i :: 0 <= i < |ms| && Involves(ms[i], id)
  }

  /** What match `m` adds to team `id`: its home side, its away side, or
      both when it names `id` twice. */
  function Contribution(m: MatchRow, id: Id): Figures {
    Plus(if m.homeTeam.id == id then Result(m.homeScore, m.awayScore) else Zero,
         if m.awayTeam.id == id then Result(m.awayScore, m.homeScore) else Zero)
  }

  /** Team `id`'s figures, summed match by match. */
  function RecordRef(ms: seq<MatchRow>, id: Id): Figures {
    if ms == [] then Zero
    else Plus(RecordRef(ms[..|ms| - 1], id), Contribution(ms[|ms| - 1], id))
  }

  /** What all matches hand out, summed over both sides. */
  function MatchTotals(ms: seq<MatchRow>): Figures {
    if ms == [] then Zero
    else
      var m := ms[|ms| - 1];
      Plus(MatchTotals(ms[..|ms| - 1]), Plus(Result(m.homeScore, m.awayScore), Result(m.awayScore, m.homeScore)))
  }

  function Decisive(ms: seq<MatchRow>): nat {
    if ms == [] then 0
    else Decisive(ms[..|ms| - 1]) + (if ms[|ms| - 1].homeScore != ms[|ms| - 1].awayScore then 1 else 0)
  }

  function Drawn(ms: seq<MatchRow>): nat {
    if ms == [] then 0
    else Drawn(ms[..|ms| - 1]) + (if ms[|ms| - 1].homeScore == ms[|ms| - 1].awayScore then 1 else 0)
  }

  function GoalsScored(ms: seq<MatchRow>): int {
    if ms == [] then 0
    else GoalsScored(ms[..|ms| - 1]) + ms[|ms| - 1].homeScore + ms[|ms| - 1].awayScore
  }

  /** The table-wide conservation laws: two appearances per match, a loss for
      every win, total points three per decisive match and two per draw, and
      total goals for equal to total goals against. */
  lemma {:induction false} MatchTotalsAre(ms: seq<MatchRow>)
    ensures MatchTotals(ms) == Figures(2 * |ms|, Decisive(ms), 2 * Drawn(ms), Decisive(ms),
                                       GoalsScored(ms), GoalsScored(ms), 3 * Decisive(ms) + 2 * Drawn(ms))
  {
    if ms != [] {
      var m := ms[|ms| - 1];
      MatchTotalsAre(ms[..|ms| - 1]);
      MatchHandsOut(m.homeScore, m.awayScore);
    }
  }

  // ---------------------------------------------------------------------
  // The accumulation (a Map keyed by team id, kept in insertion order).

  function TeamOf(s: TeamStats): Id { s.teamId }

  predicate DistinctTeams(t: seq<TeamStats>) {
    DistinctBy(t, TeamOf)
  }

  function Find(t: seq<TeamStats>, id: Id): (r: int)
    ensures -1 <= r < |t|
    ensures r >= 0 ==> t[r].teamId == id
    ensures r < 0 ==> forall i :: 0 <= i < |t| ==> t[i].teamId != id
  {
    if t == [] then -1
    else if t[0].teamId == id then 0
    else
      var r := Find(t[1..], id);
      if r < 0 then -1 else r + 1
  }

  /** The figures held for `id`, zero when it has no row. */
  function FiguresOf(t: seq<TeamStats>, id: Id): Figures {
    var k := Find(t, id);
    if k >= 0 then t[k].figures else Zero
  }

  /** A fresh row: `groupLabel || ''` and all counters zero. */
  function Blank(team: TeamRef): TeamStats {
    TeamStats(team.id, team.name, team.university, OrElse(team.groupLabel, ""), Zero)
  }

  /** `if (!teamStatsMap.has(id)) teamStatsMap.set(id, …)`. */
  function Ensure(t: seq<TeamStats>, team: TeamRef): seq<TeamStats> {
    if Find(t, team.id) >= 0 then t else t + [Blank(team)]
  }

  /** Adds `f` to the row of `id`. */
  function Credit(t: seq<TeamStats>, id: Id, f: Figures): seq<TeamStats> {
    var k := Find(t, id);
    if k >= 0 then t[k := t[k].(figures := Plus(t[k].figures, f))] else t
  }

  /** One iteration of the `forEach` over finished matches. */
  function Step(t: seq<TeamStats>, m: MatchRow): (r: seq<TeamStats>)
    ensures |t| <= |r| <= |t| + 2
  {
    var t2 := Ensure(Ensure(t, m.homeTeam), m.awayTeam);
    var t3 := Credit(t2, m.homeTeam.id, Result(m.homeScore, m.awayScore));
    Credit(t3, m.awayTeam.id, Result(m.awayScore, m.homeScore))
  }

  /** The rows after all finished matches, in order of first appearance. */
  function Accumulate(done: seq<MatchRow>): (t: seq<TeamStats>)
    ensures |t| <= 2 * |done|
  {
    if done == [] then []
    else Step(Accumulate(done[..|done| - 1]), done[|done| - 1])
  }

  lemma EnsureFinds(t: seq<TeamStats>, team: TeamRef, x: Id)
    ensures Find(Ensure(t, team), x) >= 0 <==> Find(t, x) >= 0 || x == team.id
  {
    FindExtend(t, Blank(team), x);
  }

  /** `if (!teamStatsMap.has(id)) teamStatsMap.set(id, …)` on the table. */
  method AddIfMissing(t: seq<TeamStats>, team: TeamRef) returns (t': seq<TeamStats>)
    ensures t' == Ensure(t, team)
    ensures Find(t', team.id) >= 0
  {
    t' := t;
    if Find(t, team.id) < 0 {
      t' := t + [Blank(team)];
    }
    EnsureFinds(t, team, team.id);
  }

  /** Adds `f` to the counters of the row held for `id`. */
  method AddFigures(t: seq<TeamStats>, id: Id, f: Figures) returns (t': seq<TeamStats>)
    requires Find(t, id) >= 0
    ensures t' == Credit(t, id, f)
  {
    var k := Find(t, id);
    t' := t[k := t[k].(figures := Plus(t[k].figures, f))];
  }

  /** One pass of the `forEach` body: both rows made present, then each
      side's result added to its own row. */
  method AddMatch(t: seq<TeamStats>, m: MatchRow) returns (t': seq<TeamStats>)
    ensures t' == Step(t, m)
  {
    var t1 := AddIfMissing(t, m.homeTeam);
    var t2 := AddIfMissing(t1, m.awayTeam);
    EnsureFinds(t1, m.awayTeam, m.homeTeam.id);
    var t3 := AddFigures(t2, m.homeTeam.id, Result(m.homeScore, m.awayScore));
    CreditFinds(t2, m.homeTeam.id, Result(m.homeScore, m.awayScore), m.awayTeam.id);
    t' := AddFigures(t3, m.awayTeam.id, Result(m.awayScore, m.homeScore));
  }

  /** The `forEach` over the fetched finished matches. */
  method AccumulateStandings(done: seq<MatchRow>) returns (t: seq<TeamStats>)
    ensures t == Accumulate(done)
  {
    t := [];
    var i := 0;
    while i < |done|
      invariant 0 <= i <= |done|
      invariant t == Accumulate(done[..i])
    {
      t := AddMatch(t, done[i]);
      assert done[..i + 1][..i] == done[..i];
      i := i + 1;
    }
    assert done[..|done|] == done;
  }

  lemma CreditFinds(t: seq<TeamStats>, id: Id, f: Figures, x: Id)
    ensures Find(Credit(t, id, f), x) == Find(t, x)
  {
    var t' := Credit(t, id, f);
    assert forall i :: 0 <= i < |t| ==> t'[i].teamId == t[i].teamId;
    FindSameIds(t', t, x);
  }

  // ---------------------------------------------------------------------
  // What the accumulation computes.

  lemma {:induction false} FindExtend(t: seq<TeamStats>, b: TeamStats, x: Id)
    ensures Find(t + [b], x) == if Find(t, x) >= 0 then Find(t, x) else if b.teamId == x then |t| else -1
  {
    if t != [] {
      assert (t + [b])[1..] == t[1..] + [b];
      FindExtend(t[1..], b, x);
    }
  }

  lemma {:induction false} FindSameIds(t: seq<TeamStats>, u: seq<TeamStats>, x: Id)
    requires |t| == |u|
    requires forall i :: 0 <= i < |t| ==> t[i].teamId == u[i].teamId
    ensures Find(t, x) == Find(u, x)
  {
    if t != [] {
      FindSameIds(t[1..], u[1..], x);
    }
  }

  /** With distinct ids the row found is the only row with that id. */
  lemma FindUnique(t: seq<TeamStats>, x: Id)
    requires DistinctTeams(t)
    ensures forall i :: 0 <= i < |t| && t[i].teamId == x ==> Find(t, x) == i
  {
    forall i | 0 <= i < |t| && t[i].teamId == x ensures Find(t, x) == i {
      var k := Find(t, x);
      assert TeamOf(t[k]) == TeamOf(t[i]);
    }
  }

  lemma EnsureAt(t: seq<TeamStats>, team: TeamRef, x: Id)
    ensures FiguresOf(Ensure(t, team), x) == FiguresOf(t, x)
    ensures Find(Ensure(t, team), x) >= 0 <==> Find(t, x) >= 0 || x == team.id
  {
    FindExtend(t, Blank(team), x);
  }

  lemma EnsureDistinct(t: seq<TeamStats>, team: TeamRef)
    requires DistinctTeams(t)
    ensures DistinctTeams(Ensure(t, team))
  {
    if Find(t, team.id) < 0 {
      var t' := t + [Blank(team)];
      forall i, j | 0 <= i < j < |t'| ensures TeamOf(t'[i]) != TeamOf(t'[j]) {
        assert t'[i] == t[i];
        if j < |t| { assert t'[j] == t[j]; }
      }
    }
  }

  lemma CreditAt(t: seq<TeamStats>, id: Id, f: Figures, x: Id)
    requires Find(t, id) >= 0
    ensures FiguresOf(Credit(t, id, f), x) == if x == id then Plus(FiguresOf(t, x), f) else FiguresOf(t, x)
  {
    CreditFinds(t, id, f, x);
  }

  lemma CreditDistinct(t: seq<TeamStats>, id: Id, f: Figures)
    requires DistinctTeams(t)
    ensures DistinctTeams(Credit(t, id, f))
  {
    var t' := Credit(t, id, f);
    forall i, j | 0 <= i < j < |t'| ensures TeamOf(t'[i]) != TeamOf(t'[j]) {
      assert TeamOf(t'[i]) == TeamOf(t[i]) && TeamOf(t'[j]) == TeamOf(t[j]);
    }
  }

  /** One match adds its contribution to team `x` and gives `x` a row when it
      plays in it. */
  lemma StepAt(t: seq<TeamStats>, m: MatchRow, x: Id)
    ensures FiguresOf(Step(t, m), x) == Plus(FiguresOf(t, x), Contribution(m, x))
    ensures Find(Step(t, m), x) >= 0 <==> Find(t, x) >= 0 || Involves(m, x)
  {
    StepFinds(t, m, x);
    StepFigures(t, m, x);
  }

  lemma StepFinds(t: seq<TeamStats>, m: MatchRow, x: Id)
    ensures Find(Step(t, m), x) >= 0 <==> Find(t, x) >= 0 || Involves(m, x)
  {
    var t1 := Ensure(t, m.homeTeam);
    var t2 := Ensure(t1, m.awayTeam);
    EnsureFinds(t, m.homeTeam, x);
    EnsureFinds(t1, m.awayTeam, x);
    var f := Result(m.homeScore, m.awayScore);
    var t3 := Credit(t2, m.homeTeam.id, f);
    CreditFinds(t2, m.homeTeam.id, f, x);
    CreditFinds(t3, m.awayTeam.id, Result(m.awayScore, m.homeScore), x);
  }

  lemma StepFigures(t: seq<TeamStats>, m: MatchRow, x: Id)
    ensures FiguresOf(Step(t, m), x) == Plus(FiguresOf(t, x), Contribution(m, x))
  {
    var home, away := m.homeTeam.id, m.awayTeam.id;
    var f := Result(m.homeScore, m.awayScore);
    var g := Result(m.awayScore, m.homeScore);
    var t1 := Ensure(t, m.homeTeam);
    var t2 := Ensure(t1, m.awayTeam);
    var a := FiguresOf(t, x);
    assert FiguresOf(t2, x) == a && Find(t2, home) >= 0 && Find(t2, away) >= 0 by {
      EnsureAt(t, m.homeTeam, x);
      EnsureAt(t, m.homeTeam, home);
      EnsureAt(t1, m.awayTeam, x);
      EnsureAt(t1, m.awayTeam, home);
      EnsureAt(t1, m.awayTeam, away);
    }
    var t3 := Credit(t2, home, f);
    var a3 := if x == home then Plus(a, f) else a;
    assert FiguresOf(t3, x) == a3 && Find(t3, away) >= 0 by {
      CreditAt(t2, home, f, x);
      CreditFinds(t2, home, f, away);
    }
    var t4 := Credit(t3, away, g);
    assert FiguresOf(t4, x) == if x == away then Plus(a3, g) else a3 by {
      CreditAt(t3, away, g, x);
    }
    ContributionSplit(m, x, a);
  }

  lemma ContributionSplit(m: MatchRow, x: Id, a: Figures)
    ensures var f, g := Result(m.homeScore, m.awayScore), Result(m.awayScore, m.homeScore);
      var a3 := if x == m.homeTeam.id then Plus(a, f) else a;
      Plus(a, Contribution(m, x)) == if x == m.awayTeam.id then Plus(a3, g) else a3
  {
    var f, g := Result(m.homeScore, m.awayScore), Result(m.awayScore, m.homeScore);
    var hf := if x == m.homeTeam.id then f else Zero;
    var ag := if x == m.awayTeam.id then g else Zero;
    assert Contribution(m, x) == Plus(hf, ag);
    PlusAssociates(a, hf, ag);
    PlusZero(a);
    PlusZero(Plus(a, hf));
  }

  lemma StepDistinct(t: seq<TeamStats>, m: MatchRow)
    requires DistinctTeams(t)
    ensures DistinctTeams(Step(t, m))
  {
    var t1 := Ensure(t, m.homeTeam);
    var t2 := Ensure(t1, m.awayTeam);
    EnsureDistinct(t, m.homeTeam);
    EnsureDistinct(t1, m.awayTeam);
    var t3 := Credit(t2, m.homeTeam.id, Result(m.homeScore, m.awayScore));
    CreditDistinct(t2, m.homeTeam.id, Result(m.homeScore, m.awayScore));
    CreditDistinct(t3, m.awayTeam.id, Result(m.awayScore, m.homeScore));
  }

  lemma PlaysSnoc(ms: seq<MatchRow>, x: Id)
    requires ms != []
    ensures Plays(ms, x) <==> Plays(ms[..|ms| - 1], x) || Involves(ms[|ms| - 1], x)
  {
    var n := |ms| - 1;
    assert forall i | 0 <= i < n :: ms[..n][i] == ms[i];
    if Plays(ms, x) && !Involves(ms[n], x) {
      var i :| 0 <= i < |ms| && Involves(ms[i], x);
      assert Involves(ms[..n][i], x);
    }
  }

  /** Team `x` has a row in the accumulated table exactly when it appears in
      a match, and that row holds the team's figures summed match by match. */
  lemma {:induction false} AccumulateAt(done: seq<MatchRow>, x: Id)
    ensures FiguresOf(Accumulate(done), x) == RecordRef(done, x)
    ensures Find(Accumulate(done), x) >= 0 <==> Plays(done, x)
  {
    if done != [] {
      var n := |done| - 1;
      AccumulateAt(done[..n], x);
      StepAt(Accumulate(done[..n]), done[n], x);
      PlaysSnoc(done, x);
    }
  }

  /** The accumulated table never holds two rows for one team. */
  lemma {:induction false} AccumulateDistinct(done: seq<MatchRow>)
    ensures DistinctTeams(Accumulate(done))
  {
    if done != [] {
      AccumulateDistinct(done[..|done| - 1]);
      StepDistinct(Accumulate(done[..|done| - 1]), done[|done| - 1]);
    }
  }

  lemma AccumulateIsReference(done: seq<MatchRow>)
    ensures DistinctTeams(Accumulate(done))
    ensures forall x :: FiguresOf(Accumulate(done), x) == RecordRef(done, x)
    ensures forall x :: Find(Accumulate(done), x) >= 0 <==> Plays(done, x)
  {
    AccumulateDistinct(done);
    forall x
      ensures FiguresOf(Accumulate(done), x) == RecordRef(done, x)
      ensures Find(Accumulate(done), x) >= 0 <==> Plays(done, x)
    {
      AccumulateAt(done, x);
    }
  }

  lemma {:induction false} RecordRefBalanced(ms: seq<MatchRow>, id: Id)
    ensures Balanced(RecordRef(ms, id))
  {
    if ms != [] {
      RecordRefBalanced(ms[..|ms| - 1], id);
    }
  }

  /** A team that appears in a match has played at least one. */
  lemma {:induction false} RecordRefPlayed(ms: seq<MatchRow>, id: Id)
    requires Plays(ms, id)
    ensures RecordRef(ms, id).matchesPlayed >= 1
  {
    var n := |ms| - 1;
    PlaysSnoc(ms, id);
    if !Involves(ms[n], id) {
      RecordRefPlayed(ms[..n], id);
    }
  }

  /** Every row of the accumulated table: its figures are the team's summed
      figures, so played = wins + draws + losses and points = 3 wins + draws. */
  lemma RowsAreReference(done: seq<MatchRow>)
    ensures DistinctTeams(Accumulate(done))
    ensures forall i :: 0 <= i < |Accumulate(done)| ==>
              Plays(done, Accumulate(done)[i].teamId)
              && Accumulate(done)[i].figures == RecordRef(done, Accumulate(done)[i].teamId)
              && Balanced(Accumulate(done)[i].figures)
              && Accumulate(done)[i].figures.matchesPlayed >= 1
  {
    var t := Accumulate(done);
    AccumulateIsReference(done);
    forall i | 0 <= i < |t|
      ensures Plays(done, t[i].teamId) && t[i].figures == RecordRef(done, t[i].teamId)
              && Balanced(t[i].figures) && t[i].figures.matchesPlayed >= 1
    {
      FindUnique(t, t[i].teamId);
      RecordRefBalanced(done, t[i].teamId);
      RecordRefPlayed(done, t[i].teamId);
    }
  }

  // ---------------------------------------------------------------------
  // Sums over the table.

  function Total(t: seq<TeamStats>): Figures {
    if t == [] then Zero else Plus(Total(t[..|t| - 1]), t[|t| - 1].figures)
  }

  lemma {:induction false} TotalAppend(a: seq<TeamStats>, b: seq<TeamStats>)
    ensures Total(a + b) == Plus(Total(a), Total(b))
  {
    if b == [] {
      assert a + b == a;
    } else {
      var n := |b| - 1;
      var ab := a + b;
      assert ab[..|ab| - 1] == a + b[..n];
      assert ab[|ab| - 1] == b[n];
      TotalAppend(a, b[..n]);
      assert Total(ab) == Plus(Total(a + b[..n]), b[n].figures);
      assert Total(b) == Plus(Total(b[..n]), b[n].figures);
    }
  }

  lemma TotalSplit(t: seq<TeamStats>, k: nat)
    requires k < |t|
    ensures Total(t) == Plus(Plus(Total(t[..k]), t[k].figures), Total(t[k + 1..]))
  {
    assert t == t[..k] + [t[k]] + t[k + 1..];
    TotalAppend(t[..k] + [t[k]], t[k + 1..]);
    assert (t[..k] + [t[k]])[..k] == t[..k];
  }

  lemma StepTotal(t: seq<TeamStats>, m: MatchRow)
    ensures Total(Step(t, m))
         == Plus(Total(t), Plus(Result(m.homeScore, m.awayScore), Result(m.awayScore, m.homeScore)))
  {
    var f := Result(m.homeScore, m.awayScore);
    var g := Result(m.awayScore, m.homeScore);
    var t1 := Ensure(t, m.homeTeam);
    var t2 := Ensure(t1, m.awayTeam);
    EnsureTotal(t, m.homeTeam);
    EnsureTotal(t1, m.awayTeam);
    EnsureFinds(t1, m.awayTeam, m.homeTeam.id);
    var t3 := Credit(t2, m.homeTeam.id, f);
    CreditTotal(t2, m.homeTeam.id, f);
    CreditFinds(t2, m.homeTeam.id, f, m.awayTeam.id);
    CreditTotal(t3, m.awayTeam.id, g);
    assert Step(t, m) == Credit(t3, m.awayTeam.id, g);
    PlusAssociates(Total(t), f, g);
  }

  lemma EnsureTotal(t: seq<TeamStats>, team: TeamRef)
    ensures Find(Ensure(t, team), team.id) >= 0
    ensures Total(Ensure(t, team)) == Total(t)
  {
    if Find(t, team.id) < 0 {
      var t' := t + [Blank(team)];
      assert t'[..|t'| - 1] == t;
      assert t'[|t|].teamId == team.id;
    }
  }

  lemma CreditTotal(t: seq<TeamStats>, id: Id, f: Figures)
    requires Find(t, id) >= 0
    ensures Total(Credit(t, id, f)) == Plus(Total(t), f)
  {
    var k := Find(t, id);
    var t' := Credit(t, id, f);
    TotalSplit(t, k);
    TotalSplit(t', k);
    assert t'[..k] == t[..k] && t'[k + 1..] == t[k + 1..];
    assert t'[k].figures == Plus(t[k].figures, f);
    PlusInside(Total(t[..k]), t[k].figures, f, Total(t[k + 1..]));
  }

  /** The accumulated table hands out exactly what the matches hand out. */
  lemma {:induction false} AccumulateTotal(done: seq<MatchRow>)
    ensures Total(Accumulate(done)) == MatchTotals(done)
  {
    if done != [] {
      AccumulateTotal(done[..|done| - 1]);
      StepTotal(Accumulate(done[..|done| - 1]), done[|done| - 1]);
    }
  }

  /** Removing the row at `k` takes exactly its figures off the total. */
  lemma TotalWithout(t: seq<TeamStats>, k: nat)
    requires k < |t|
    ensures Total(t) == Plus(Total(t[..k] + t[k + 1..]), t[k].figures)
  {
    TotalSplit(t, k);
    TotalAppend(t[..k], t[k + 1..]);
    PlusSwap(Total(t[..k]), t[k].figures, Total(t[k + 1..]));
  }

  /** Taking the same row out of two permutations of each other leaves two
      permutations of each other. */
  lemma RemoveMatching(s: seq<TeamStats>, t: seq<TeamStats>, k: nat)
    requires multiset(s) == multiset(t) && s != [] && k < |t| && t[k] == s[|s| - 1]
    ensures multiset(t[..k] + t[k + 1..]) == multiset(s[..|s| - 1])
  {
    var n := |s| - 1;
    var x := s[n];
    var rest := t[..k] + t[k + 1..];
    assert s == s[..n] + [x];
    assert t == t[..k] + [x] + t[k + 1..];
    assert multiset(rest) + multiset{x} == multiset(s[..n]) + multiset{x};
    forall y ensures multiset(rest)[y] == multiset(s[..n])[y] {
      assert (multiset(rest) + multiset{x})[y] == (multiset(s[..n]) + multiset{x})[y];
    }
  }

  /** Sums do not depend on the order of the rows. */
  lemma {:induction false} TotalPermutation(s: seq<TeamStats>, t: seq<TeamStats>)
    requires multiset(s) == multiset(t)
    ensures Total(s) == Total(t)
    decreases |s|
  {
    if s == [] {
      assert |t| == |multiset(t)| == 0;
    } else {
      var n := |s| - 1;
      assert s[n] in multiset(t);
      var k :| 0 <= k < |t| && t[k] == s[n];
      RemoveMatching(s, t, k);
      TotalPermutation(s[..n], t[..k] + t[k + 1..]);
      TotalWithout(t, k);
    }
  }

  // ---------------------------------------------------------------------
  // Ranking.

  /** `b.points - a.points || gd(b) - gd(a)`: points first, then goal
      difference, both descending. */
  function RankKey(s: TeamStats): Key {
    Key(s.figures.points, s.figures.goalsFor - s.figures.goalsAgainst)
  }

  /** The standings table published by the leaderboard. */
  function Standings(ms: seq<MatchRow>): (s: seq<TeamStats>)
    ensures |s| <= 2 * |ms|
  {
    SortDesc(Accumulate(DoneOnly(ms)), RankKey)
  }

  predicate PlaysDone(ms: seq<MatchRow>, id: Id) {
    exists i :: 0 <= i < |ms| && ms[i].status == DONE && Involves(ms[i], id)
  }

  lemma {:induction false} DoneOnlyPlays(ms: seq<MatchRow>, id: Id)
    ensures Plays(DoneOnly(ms), id) <==> PlaysDone(ms, id)
  {
    if ms != [] {
      var n := |ms| - 1;
      var d := DoneOnly(ms[..n]);
      DoneOnlyPlays(ms[..n], id);
      assert forall i | 0 <= i < n :: ms[..n][i] == ms[i];
      var tail := if ms[n].status == DONE then [ms[n]] else [];
      assert DoneOnly(ms) == d + tail;
      assert forall i | 0 <= i < |d| :: (d + tail)[i] == d[i];
      if PlaysDone(ms, id) && !PlaysDone(ms[..n], id) {
        assert ms[n].status == DONE && Involves(ms[n], id);
        assert (d + tail)[|d|] == ms[n];
      }
    }
  }

  /** A match that is not finished never changes the standings. */
  lemma UnfinishedMatchIgnored(ms: seq<MatchRow>, m: MatchRow)
    requires m.status != DONE
    ensures Standings(ms + [m]) == Standings(ms)
  {
    var ms' := ms + [m];
    assert ms'[..|ms'| - 1] == ms;
    assert DoneOnly(ms') == DoneOnly(ms) + [];
    assert DoneOnly(ms') == DoneOnly(ms);
  }

  /** Reordering the rows keeps the set of teams that have one. */
  lemma PermutedFind(t: seq<TeamStats>, s: seq<TeamStats>, id: Id)
    requires multiset(t) == multiset(s)
    ensures Find(t, id) >= 0 ==> Find(s, id) >= 0
  {
    if Find(t, id) >= 0 {
      var k := Find(t, id);
      assert t[k] in multiset(s);
      var i :| 0 <= i < |s| && s[i] == t[k];
    }
  }

  /** A team has a row in the standings exactly when it played a finished
      match. */
  lemma StandingsMembers(ms: seq<MatchRow>, id: Id)
    ensures (exists i :: 0 <= i < |Standings(ms)| && Standings(ms)[i].teamId == id) <==> PlaysDone(ms, id)
  {
    var done := DoneOnly(ms);
    var t := Accumulate(done);
    var s := Standings(ms);
    AccumulateAt(done, id);
    DoneOnlyPlays(ms, id);
    PermutedFind(t, s, id);
    PermutedFind(s, t, id);
    assert Find(s, id) >= 0 <==> PlaysDone(ms, id);
    if exists i :: 0 <= i < |s| && s[i].teamId == id {
      assert Find(s, id) >= 0;
    }
  }

  /** A row holding its team's summed figures, balanced and played. */
  predicate IsReferenceRow(done: seq<MatchRow>, r: TeamStats) {
    r.figures == RecordRef(done, r.teamId) && Balanced(r.figures) && r.figures.matchesPlayed >= 1
  }

  lemma AccumulatedRows(done: seq<MatchRow>)
    ensures forall i :: 0 <= i < |Accumulate(done)| ==> IsReferenceRow(done, Accumulate(done)[i])
  {
    RowsAreReference(done);
  }

  /** Reordering keeps every row a reference row. */
  lemma PermutedRows(done: seq<MatchRow>, t: seq<TeamStats>, s: seq<TeamStats>)
    requires multiset(t) == multiset(s)
    requires forall i :: 0 <= i < |t| ==> IsReferenceRow(done, t[i])
    ensures forall i :: 0 <= i < |s| ==> IsReferenceRow(done, s[i])
  {
    forall i | 0 <= i < |s| ensures IsReferenceRow(done, s[i]) {
      assert s[i] in multiset(t);
      var k :| 0 <= k < |t| && t[k] == s[i];
    }
  }

  /** Every standings row holds its team's figures summed over the finished
      matches, so it is balanced. */
  lemma StandingsRows(ms: seq<MatchRow>)
    ensures forall i :: 0 <= i < |Standings(ms)| ==>
              Standings(ms)[i].figures == RecordRef(DoneOnly(ms), Standings(ms)[i].teamId)
              && Balanced(Standings(ms)[i].figures)
              && Standings(ms)[i].figures.matchesPlayed >= 1
  {
    var done := DoneOnly(ms);
    var t := Accumulate(done);
    var s := SortDesc(t, RankKey);
    assert Standings(ms) == s;
    AccumulatedRows(done);
    PermutedRows(done, t, s);
    forall i | 0 <= i < |s|
      ensures s[i].figures == RecordRef(done, s[i].teamId) && Balanced(s[i].figures)
              && s[i].figures.matchesPlayed >= 1
    {
      assert IsReferenceRow(done, s[i]);
    }
  }

  /** The standings: one row per team that played a finished match and no
      other, ordered by points then goal difference, each row balanced and
      holding that team's summed figures. */
  lemma StandingsCorrect(ms: seq<MatchRow>)
    ensures DistinctTeams(Standings(ms))
    ensures forall id :: (exists i :: 0 <= i < |Standings(ms)| && Standings(ms)[i].teamId == id) <==> PlaysDone(ms, id)
    ensures forall i, j :: 0 <= i < j < |Standings(ms)| ==>
              var a, b := Standings(ms)[i].figures, Standings(ms)[j].figures;
              a.points > b.points || (a.points == b.points && a.goalsFor - a.goalsAgainst >= b.goalsFor - b.goalsAgainst)
    ensures forall i :: 0 <= i < |Standings(ms)| ==>
              Standings(ms)[i].figures == RecordRef(DoneOnly(ms), Standings(ms)[i].teamId)
              && Balanced(Standings(ms)[i].figures)
              && Standings(ms)[i].figures.matchesPlayed >= 1
  {
    var s := Standings(ms);
    AccumulateDistinct(DoneOnly(ms));
    SortKeepsDistinct(Accumulate(DoneOnly(ms)), RankKey, TeamOf);
    forall id ensures (exists i :: 0 <= i < |s| && s[i].teamId == id) <==> PlaysDone(ms, id) {
      StandingsMembers(ms, id);
    }
    forall i, j | 0 <= i < j < |s|
      ensures var a, b := s[i].figures, s[j].figures;
              a.points > b.points || (a.points == b.points && a.goalsFor - a.goalsAgainst >= b.goalsFor - b.goalsAgainst)
    {
      assert !Above(RankKey(s[j]), RankKey(s[i]));
    }
    StandingsRows(ms);
  }

  /** Conservation over the published table: it holds two appearances per
      finished match, as many losses as wins, 3 points per decisive and 2 per
      drawn finished match, and equal totals of goals for and against. */
  lemma StandingsTotals(ms: seq<MatchRow>)
    ensures var d := DoneOnly(ms);
      Total(Standings(ms)) == Figures(2 * |d|, Decisive(d), 2 * Drawn(d), Decisive(d),
                                      GoalsScored(d), GoalsScored(d), 3 * Decisive(d) + 2 * Drawn(d))
  {
    var d := DoneOnly(ms);
    TotalPermutation(Accumulate(d), Standings(ms));
    AccumulateTotal(d);
    MatchTotalsAre(d);
  }

  /** With no finished match the table is empty. */
  lemma NoFinishedMatchNoStandings(ms: seq<MatchRow>)
    requires forall i :: 0 <= i < |ms| ==> ms[i].status != DONE
    ensures Standings(ms) == []
  {
    NothingDone(ms);
    assert Accumulate([]) == [];
  }

  lemma {:induction false} NothingDone(ms: seq<MatchRow>)
    requires forall i :: 0 <= i < |ms| ==> ms[i].status != DONE
    ensures DoneOnly(ms) == []
  {
    if ms != [] {
      var n := |ms| - 1;
      assert forall i :: 0 <= i < n ==> ms[..n][i] == ms[i];
      NothingDone(ms[..n]);
    }
  }

  // The seeded tournament: four teams, two upcoming matches and Tech Titans
  // beating Code Crushers 2-1.
  const Titans := TeamRef("t0", "Tech Titans", "University of Technology", Some("A"))
  const Dragons := TeamRef("t1", "Digital Dragons", "Digital University", Some("A"))
  const Crushers := TeamRef("t2", "Code Crushers", "Coding Institute", Some("B"))
  const Busters := TeamRef("t3", "Byte Busters", "Byte University", Some("B"))
  const SeedFinal := MatchRow("m3", DONE, 2, 1, Titans, Crushers)
  const SeedMatches := [MatchRow("m1", UPCOMING, 0, 0, Titans, Dragons),
                        MatchRow("m2", UPCOMING, 0, 0, Crushers, Busters), SeedFinal]

  lemma SeedFiltered()
    ensures DoneOnly(SeedMatches) == [SeedFinal]
  {
    var ms := SeedMatches;
    assert ms[..1] == [ms[0]] && ms[..1][..0] == [];
    assert ms[..2] == [ms[0], ms[1]] && ms[..2][..1] == ms[..1];
    assert DoneOnly(ms[..2]) == [];
  }

  lemma SeedAccumulated()
    ensures Accumulate([SeedFinal])
         == [TeamStats("t0", "Tech Titans", "University of Technology", "A", Figures(1, 1, 0, 0, 2, 1, 3)),
             TeamStats("t2", "Code Crushers", "Coding Institute", "B", Figures(1, 0, 0, 1, 1, 2, 0))]
  {
    assert [SeedFinal][..0] == [];
    var t1 := [Blank(Titans)];
    assert Ensure([], Titans) == t1;
    assert Find(t1, "t2") == -1;
    var t2 := [Blank(Titans), Blank(Crushers)];
    assert Ensure(t1, Crushers) == t2;
    assert Find(t2, "t0") == 0;
    assert Find(t2[..][1..], "t2") == 0;
    assert Find(t2, "t2") == 1;
  }

  /** The seeded tournament: the winner leads with three points, the loser
      follows with none, and the teams that only have upcoming matches get no
      row. */
  lemma SeedScenario()
    ensures Standings(SeedMatches)
         == [TeamStats("t0", "Tech Titans", "University of Technology", "A", Figures(1, 1, 0, 0, 2, 1, 3)),
             TeamStats("t2", "Code Crushers", "Coding Institute", "B", Figures(1, 0, 0, 1, 1, 2, 0))]
  {
    SeedFiltered();
    SeedAccumulated();
    SeedRanked();
  }

  lemma SeedRanked()
    ensures var t := [TeamStats("t0", "Tech Titans", "University of Technology", "A", Figures(1, 1, 0, 0, 2, 1, 3)),
                      TeamStats("t2", "Code Crushers", "Coding Institute", "B", Figures(1, 0, 0, 1, 1, 2, 0))];
      SortDesc(t, RankKey) == t
  {
    var t := [TeamStats("t0", "Tech Titans", "University of Technology", "A", Figures(1, 1, 0, 0, 2, 1, 3)),
              TeamStats("t2", "Code Crushers", "Coding Institute", "B", Figures(1, 0, 0, 1, 1, 2, 0))];
    assert SortDesc(t[1..], RankKey) == t[1..];
  }

  /** The second half of `fetchLeaderboardData`: filter, accumulate, rank. */
  method LeaderboardStandings(ms: seq<MatchRow>) returns (standings: seq<TeamStats>)
    ensures standings == Standings(ms)
    ensures forall i :: 0 <= i < |standings| ==> Balanced(standings[i].figures)
    ensures Total(standings).points == 3 * Decisive(DoneOnly(ms)) + 2 * Drawn(DoneOnly(ms))
    ensures Total(standings).goalsFor == Total(standings).goalsAgainst
  {
    var done := DoneOnly(ms);
    var table := AccumulateStandings(done);
    standings := SortDesc(table, RankKey);
    StandingsCorrect(ms);
    StandingsTotals(ms);
  }
}

/** The top-scorer half of the leaderboard: every goal row is counted against
    the player who scored it, the counts are ranked by goals and the list is
    cut to ten. */
module Scorers {
  import opened Types
  import opened Ranking

  /** One row of the goals query, joined with the scorer's full name and the
      name of the scorer's current team (absent when unassigned). */
  datatype GoalRow = GoalRow(playerId: Id, playerName: string, teamName: Option<string>)

  /** One leaderboard entry. */
  datatype TopScorer = TopScorer(playerId: Id, playerName: string, teamName: string, goals: nat)

  const NoTeam: string := "No Team"
  const Limit: nat := 10

  /** `team?.name || 'No Team'`: a missing team or an empty name shows as
      "No Team". */
  function TeamLabel(name: Option<string>): (r: string)
    ensures r != ""
    ensures Truthy(name) ==> r == name.value
    ensures !Truthy(name) ==> r == NoTeam
  {
    if Truthy(name) then name.value else NoTeam
  }

  function PlayerOf(e: TopScorer): Id { e.playerId }

  predicate DistinctIds(t: seq<TopScorer>) {
    DistinctBy(t, PlayerOf)
  }

  // ---------------------------------------------------------------------
  // Reference definitions, stated directly over the goal rows.

  /** Number of goal rows credited to `pid`. */
  function Count(rows: seq<GoalRow>, pid: Id): nat {
    if rows == [] then 0
    else Count(rows[..|rows| - 1], pid) + (if rows[|rows| - 1].playerId == pid then 1 else 0)
  }

  predicate Scored(rows: seq<GoalRow>, pid: Id) {
    exists i :: 0 <= i < |rows| && rows[i].playerId == pid
  }

  /** The earliest goal row of `pid`. */
  function FirstOf(rows: seq<GoalRow>, pid: Id): (g: GoalRow)
    requires Scored(rows, pid)
    ensures g.playerId == pid
  {
    var n := |rows| - 1;
    if Scored(rows[..n], pid) then FirstOf(rows[..n], pid)
    else
      assert forall i | 0 <= i < n :: rows[..n][i] == rows[i];
      rows[n]
  }

  /** The entry the leaderboard should show for a player who scored. */
  function Expected(rows: seq<GoalRow>, pid: Id): TopScorer
    requires Scored(rows, pid)
  {
    var g := FirstOf(rows, pid);
    TopScorer(pid, g.playerName, TeamLabel(g.teamName), Count(rows, pid))
  }

  // ---------------------------------------------------------------------
  // The accumulation (a Map keyed by player id, kept in insertion order).

  function IndexOf(t: seq<TopScorer>, pid: Id): (r: int)
    ensures -1 <= r < |t|
    ensures r >= 0 ==> t[r].playerId == pid
    ensures r < 0 ==> forall i :: 0 <= i < |t| ==> t[i].playerId != pid
  {
    if t == [] then -1
    else if t[0].playerId == pid then 0
    else
      var r := IndexOf(t[1..], pid);
      if r < 0 then -1 else r + 1
  }

  /** One iteration of the counting loop. */
  function Record(t: seq<TopScorer>, g: GoalRow): seq<TopScorer> {
    var k := IndexOf(t, g.playerId);
    if k >= 0 then t[k := t[k].(goals := t[k].goals + 1)]
    else t + [TopScorer(g.playerId, g.playerName, TeamLabel(g.teamName), 1)]
  }

  /** The counts after all goal rows, in order of first appearance. */
  function Tally(rows: seq<GoalRow>): (t: seq<TopScorer>)
    ensures |t| <= |rows|
  {
    if rows == [] then []
    else Record(Tally(rows[..|rows| - 1]), rows[|rows| - 1])
  }

  /** The counting loop over the fetched goal rows. */
  method CountScorers(rows: seq<GoalRow>) returns (t: seq<TopScorer>)
    ensures t == Tally(rows)
  {
    t := [];
    var i := 0;
    while i < |rows|
      invariant 0 <= i <= |rows|
      invariant t == Tally(rows[..i])
    {
      var g := rows[i];
      var k := IndexOf(t, g.playerId);
      if k >= 0 {
        t := t[k := t[k].(goals := t[k].goals + 1)];
      } else {
        t := t + [TopScorer(g.playerId, g.playerName, TeamLabel(g.teamName), 1)];
      }
      assert rows[..i + 1][..i] == rows[..i];
      i := i + 1;
    }
    assert rows[..|rows|] == rows;
  }

  // ---------------------------------------------------------------------
  // What the accumulation computes.

  lemma {:induction false} CountAbsent(rows: seq<GoalRow>, pid: Id)
    requires !Scored(rows, pid)
    ensures Count(rows, pid) == 0
  {
    if rows != [] {
      var n := |rows| - 1;
      assert forall i | 0 <= i < n :: rows[..n][i] == rows[i];
      assert !Scored(rows[..n], pid);
      CountAbsent(rows[..n], pid);
    }
  }

  /** A goal row appended at the end: its scorer has scored, and every
      earlier scorer keeps their first row. */
  lemma ScoredSnoc(p: seq<GoalRow>, g: GoalRow, pid: Id)
    ensures Scored(p + [g], pid) <==> Scored(p, pid) || pid == g.playerId
    ensures Scored(p, pid) ==> FirstOf(p + [g], pid) == FirstOf(p, pid)
    ensures !Scored(p, pid) && pid == g.playerId ==> FirstOf(p + [g], pid) == g
    ensures Count(p + [g], pid) == Count(p, pid) + (if g.playerId == pid then 1 else 0)
  {
    var rows := p + [g];
    assert rows[..|p|] == p;
    assert rows[|p|] == g;
    if Scored(p, pid) {
      var i :| 0 <= i < |p| && p[i].playerId == pid;
      assert rows[i] == p[i];
    }
    if Scored(rows, pid) && pid != g.playerId {
      var i :| 0 <= i < |rows| && rows[i].playerId == pid;
      assert i < |p| && p[i] == rows[i];
    }
  }

  /** One goal row keeps one entry per player and leaves an entry for its
      scorer and for every player who had one. */
  lemma RecordKeepsEntries(t: seq<TopScorer>, g: GoalRow)
    requires DistinctIds(t)
    ensures DistinctIds(Record(t, g))
    ensures IndexOf(Record(t, g), g.playerId) >= 0
    ensures forall pid :: IndexOf(t, pid) >= 0 ==> IndexOf(Record(t, g), pid) >= 0
  {
    var t' := Record(t, g);
    var k := IndexOf(t, g.playerId);
    if k >= 0 {
      assert DistinctIds(t') by {
        forall i, j | 0 <= i < j < |t'| ensures PlayerOf(t'[i]) != PlayerOf(t'[j]) {
          assert PlayerOf(t'[i]) == PlayerOf(t[i]) && PlayerOf(t'[j]) == PlayerOf(t[j]);
        }
      }
      assert t'[k].playerId == g.playerId;
    } else {
      assert DistinctIds(t') by {
        forall i, j | 0 <= i < j < |t'| ensures PlayerOf(t'[i]) != PlayerOf(t'[j]) {
          if j < |t| { assert t'[i] == t[i] && t'[j] == t[j]; }
          else { assert t'[i] == t[i] && t'[j].playerId == g.playerId; }
        }
      }
      assert t'[|t|].playerId == g.playerId;
    }
    forall pid | IndexOf(t, pid) >= 0 ensures IndexOf(t', pid) >= 0 {
      var j := IndexOf(t, pid);
      assert t'[j].playerId == pid;
    }
  }

  /** The counts hold one entry per player, and one for every player who
      scored. */
  lemma {:induction false} TallyEntries(rows: seq<GoalRow>)
    ensures DistinctIds(Tally(rows))
    ensures forall pid :: Scored(rows, pid) ==> IndexOf(Tally(rows), pid) >= 0
  {
    if rows != [] {
      var n := |rows| - 1;
      var p, g := rows[..n], rows[n];
      assert rows == p + [g];
      TallyEntries(p);
      RecordKeepsEntries(Tally(p), g);
      forall pid | Scored(rows, pid) ensures IndexOf(Tally(rows), pid) >= 0 {
        ScoredSnoc(p, g, pid);
      }
    }
  }

  /** Every entry of the counts belongs to a player who scored and shows
      that player's number of goal rows and the name and team of the first. */
  lemma {:induction false} TallyValues(rows: seq<GoalRow>)
    ensures forall i :: 0 <= i < |Tally(rows)| ==>
              Scored(rows, Tally(rows)[i].playerId) && Tally(rows)[i] == Expected(rows, Tally(rows)[i].playerId)
  {
    if rows != [] {
      var n := |rows| - 1;
      var p, g := rows[..n], rows[n];
      assert rows == p + [g];
      TallyValues(p);
      TallyEntries(p);
      var t := Tally(p);
      var t' := Tally(rows);
      assert t' == Record(t, g);
      var k := IndexOf(t, g.playerId);
      forall i | 0 <= i < |t'|
        ensures Scored(rows, t'[i].playerId) && t'[i] == Expected(rows, t'[i].playerId)
      {
        var pid := t'[i].playerId;
        ScoredSnoc(p, g, pid);
        if k >= 0 && i != k {
          assert t'[i] == t[i];
          assert t[i].playerId != g.playerId by { assert DistinctBy(t, PlayerOf); }
        } else if k < 0 && i == |t| {
          CountAbsent(p, g.playerId);
        } else {
          assert t'[i].playerId == t[i].playerId;
        }
      }
    }
  }

  /** Every player who scored has exactly one entry, and that entry holds the
      number of that player's goal rows and the name and team of the first of
      them; no other player has an entry. */
  lemma TallyIsExpected(rows: seq<GoalRow>)
    ensures DistinctIds(Tally(rows))
    ensures forall i :: 0 <= i < |Tally(rows)| ==>
              Scored(rows, Tally(rows)[i].playerId) && Tally(rows)[i] == Expected(rows, Tally(rows)[i].playerId)
    ensures forall pid :: Scored(rows, pid) ==> IndexOf(Tally(rows), pid) >= 0
  {
    TallyEntries(rows);
    TallyValues(rows);
  }

  function TotalGoals(t: seq<TopScorer>): int {
    if t == [] then 0 else TotalGoals(t[..|t| - 1]) + t[|t| - 1].goals
  }

  lemma {:induction false} TotalGoalsUpdate(t: seq<TopScorer>, i: nat, v: TopScorer)
    requires i < |t|
    ensures TotalGoals(t[i := v]) == TotalGoals(t) - t[i].goals + v.goals
  {
    var n := |t| - 1;
    if i < n {
      assert t[i := v][..n] == t[..n][i := v];
      TotalGoalsUpdate(t[..n], i, v);
    } else {
      assert t[i := v][..n] == t[..n];
    }
  }

  /** Every goal row is counted once: no filter on match status or own goals. */
  lemma {:induction false} TallyCountsEveryGoal(rows: seq<GoalRow>)
    ensures TotalGoals(Tally(rows)) == |rows|
  {
    if rows != [] {
      var n := |rows| - 1;
      var g := rows[n];
      TallyCountsEveryGoal(rows[..n]);
      var t := Tally(rows[..n]);
      assert Tally(rows) == Record(t, g);
      var k := IndexOf(t, g.playerId);
      if k >= 0 {
        var v := t[k].(goals := t[k].goals + 1);
        assert Record(t, g) == t[k := v];
        TotalGoalsUpdate(t, k, v);
      } else {
        var t' := t + [TopScorer(g.playerId, g.playerName, TeamLabel(g.teamName), 1)];
        assert Record(t, g) == t';
        assert t'[..|t'| - 1] == t;
        assert TotalGoals(t') == TotalGoals(t) + 1;
      }
    }
  }

  // ---------------------------------------------------------------------
  // Ranking and cut.

  function GoalsKey(e: TopScorer): Key { Key(e.goals, 0) }

  /** `sort((a, b) => b.goals - a.goals).slice(0, 10)` over the counts. */
  function TopScorers(rows: seq<GoalRow>): (top: seq<TopScorer>)
    ensures |top| <= Limit && |top| <= |rows|
  {
    Take(SortDesc(Tally(rows), GoalsKey), Limit)
  }

  /** The published list: at most ten entries, the most goals first, one
      entry per player, each carrying that player's true goal count. */
  lemma TopScorersCorrect(rows: seq<GoalRow>)
    ensures |TopScorers(rows)| <= Limit
    ensures forall i, j :: 0 <= i < j < |TopScorers(rows)| ==> TopScorers(rows)[i].goals >= TopScorers(rows)[j].goals
    ensures DistinctIds(TopScorers(rows))
    ensures forall i :: 0 <= i < |TopScorers(rows)| ==>
              Scored(rows, TopScorers(rows)[i].playerId) && TopScorers(rows)[i] == Expected(rows, TopScorers(rows)[i].playerId)
  {
    var t := Tally(rows);
    var s := SortDesc(t, GoalsKey);
    var r := TopScorers(rows);
    TallyIsExpected(rows);
    SortKeepsDistinct(t, GoalsKey, PlayerOf);
    forall i, j | 0 <= i < j < |r| ensures r[i].goals >= r[j].goals {
      assert r[i] == s[i] && r[j] == s[j];
      assert !Above(GoalsKey(s[j]), GoalsKey(s[i]));
    }
    assert DistinctIds(r) by {
      forall i, j | 0 <= i < j < |r| ensures PlayerOf(r[i]) != PlayerOf(r[j]) {
        assert r[i] == s[i] && r[j] == s[j];
      }
    }
    forall i | 0 <= i < |r|
      ensures Scored(rows, r[i].playerId) && r[i] == Expected(rows, r[i].playerId)
    {
      assert r[i] == s[i] && s[i] in multiset(t);
      var m :| 0 <= m < |t| && t[m] == s[i];
    }
  }

  /** The cut keeps the best: a player who scored and is not listed has no
      more goals than the last listed entry. */
  lemma TopScorersCutoff(rows: seq<GoalRow>, pid: Id)
    requires Scored(rows, pid)
    ensures |TopScorers(rows)| > 0
    ensures (exists i :: 0 <= i < |TopScorers(rows)| && TopScorers(rows)[i].playerId == pid)
         || Count(rows, pid) <= TopScorers(rows)[|TopScorers(rows)| - 1].goals
  {
    var t := Tally(rows);
    var s := SortDesc(t, GoalsKey);
    var r := TopScorers(rows);
    TallyIsExpected(rows);
    var k := IndexOf(t, pid);
    assert t[k] in multiset(s);
    var m :| 0 <= m < |s| && s[m] == t[k];
    assert t[k] == Expected(rows, pid);
    if m < |r| {
      assert r[m] == s[m];
    } else {
      assert |r| == Limit;
      assert r[Limit - 1] == s[Limit - 1];
      assert !Above(GoalsKey(s[m]), GoalsKey(s[Limit - 1]));
    }
  }

  /** The first half of `fetchLeaderboardData`: count, rank, cut. */
  method LeaderboardScorers(rows: seq<GoalRow>) returns (top: seq<TopScorer>)
    ensures top == TopScorers(rows)
    ensures |top| <= Limit
    ensures forall i, j :: 0 <= i < j < |top| ==> top[i].goals >= top[j].goals
    ensures forall i :: 0 <= i < |top| ==> top[i].goals == Count(rows, top[i].playerId)
  {
    var counts := CountScorers(rows);
    top := Take(SortDesc(counts, GoalsKey), Limit);
    TopScorersCorrect(rows);
  }

  /** Three goals, two by the first player: the first player leads with two. */
  lemma SmallScenario()
    ensures TopScorers([GoalRow("p1", "Ann", Some("Reds")), GoalRow("p1", "Ann", Some("Reds")),
                        GoalRow("p2", "Bob", None)])
         == [TopScorer("p1", "Ann", "Reds", 2), TopScorer("p2", "Bob", NoTeam, 1)]
  {
    var rows := [GoalRow("p1", "Ann", Some("Reds")), GoalRow("p1", "Ann", Some("Reds")),
                 GoalRow("p2", "Bob", None)];
    assert rows[..1] == [rows[0]] && rows[..2] == [rows[0], rows[1]] && rows[..2][..1] == rows[..1];
    assert Tally(rows[..1]) == [TopScorer("p1", "Ann", "Reds", 1)];
    assert Tally(rows[..2]) == [TopScorer("p1", "Ann", "Reds", 2)];
    var t := [TopScorer("p1", "Ann", "Reds", 2), TopScorer("p2", "Bob", NoTeam, 1)];
    assert Tally(rows) == t;
    assert SortDesc(t[1..], GoalsKey) == t[1..];
  }
}

/** The speech-count leaderboard of database.js: `SELECT username, COUNT(*)
    AS score FROM user_scores WHERE timestamp >= start GROUP BY username
    ORDER BY score DESC LIMIT 10`, over the `user_scores` rows. */
module Leaderboard {
  import opened Wrappers
  import opened Tables

  datatype ScoreRow = ScoreRow(username: string, score: nat)

  datatype Timeframe = Daily | Weekly | Monthly

  /** The window starts the caller computed from its calendar (start of
      today, of this week, of this month). */
  datatype WindowStarts = WindowStarts(day: int, week: int, month: int)

  /** Number of rows in the leaderboard. */
  const TopLimit: nat := 10

  /** The `switch (timeframe)` of `getLeaderboard`. */
  function ParseTimeframe(s: string): Option<Timeframe> {
    if s == "daily" then Some(Daily)
    else if s == "weekly" then Some(Weekly)
    else if s == "monthly" then Some(Monthly)
    else None
  }

  function WindowStart(tf: Timeframe, starts: WindowStarts): int {
    match tf
    case Daily => starts.day
    case Weekly => starts.week
    case Monthly => starts.month
  }

  /** `COUNT(*)` of the rows of `u` in the window. */
  function CountIn(recs: seq<SpeechRecord>, u: string, start: int): nat {
    if recs == [] then 0
    else CountIn(recs[..|recs| - 1], u, start)
         + (if recs[|recs| - 1].username == u && recs[|recs| - 1].timestamp >= start then 1 else 0)
  }

  /** The `GROUP BY` keys: every username with a row in the window, once,
      in order of first appearance. */
  function WindowNames(recs: seq<SpeechRecord>, start: int): seq<string> {
    if recs == [] then []
    else
      var names := WindowNames(recs[..|recs| - 1], start);
      var last := recs[|recs| - 1];
      if last.timestamp >= start && last.username !in names then names + [last.username]
      else names
  }

  predicate Distinct(names: seq<string>) {
    forall i, j :: 0 <= i < j < |names| ==> names[i] != names[j]
  }

  /** A username is a group exactly when it has a row in the window, and no
      group appears twice. */
  lemma {:induction false} WindowNamesExact(recs: seq<SpeechRecord>, start: int, u: string)
    ensures u in WindowNames(recs, start) <==> CountIn(recs, u, start) > 0
    ensures Distinct(WindowNames(recs, start))
  {
    if recs != [] {
      WindowNamesExact(recs[..|recs| - 1], start, u);
    }
  }

  /** One `ScoreRow` per group. */
  function Tally(names: seq<string>, recs: seq<SpeechRecord>, start: int): (rows: seq<ScoreRow>)
    ensures |rows| == |names|
    ensures forall i :: 0 <= i < |rows| ==> rows[i] == ScoreRow(names[i], CountIn(recs, names[i], start))
  {
    if names == [] then []
    else [ScoreRow(names[0], CountIn(recs, names[0], start))] + Tally(names[1..], recs, start)
  }

  predicate Descending(rows: seq<ScoreRow>) {
    forall i, j :: 0 <= i < j < |rows| ==> rows[i].score >= rows[j].score
  }

  predicate DistinctUsers(rows: seq<ScoreRow>) {
    forall i, j :: 0 <= i < j < |rows| ==> rows[i].username != rows[j].username
  }

  /** Insert into a list sorted by descending score. */
  function InsertByScore(row: ScoreRow, sorted: seq<ScoreRow>): seq<ScoreRow> {
    if sorted == [] || row.score >= sorted[0].score then [row] + sorted
    else [sorted[0]] + InsertByScore(row, sorted[1..])
  }

  function SortByScore(rows: seq<ScoreRow>): seq<ScoreRow> {
    if rows == [] then [] else InsertByScore(rows[0], SortByScore(rows[1..]))
  }

  lemma {:induction false} InsertByScoreSpec(row: ScoreRow, sorted: seq<ScoreRow>)
    requires Descending(sorted)
    ensures |InsertByScore(row, sorted)| == |sorted| + 1
    ensures forall x :: x in InsertByScore(row, sorted) <==> x == row || x in sorted
    ensures Descending(InsertByScore(row, sorted))
    ensures DistinctUsers(sorted) && (forall x :: x in sorted ==> x.username != row.username)
            ==> DistinctUsers(InsertByScore(row, sorted))
  {
    if sorted != [] && row.score < sorted[0].score {
      var tail := sorted[1..];
      InsertByScoreSpec(row, tail);
      var r := InsertByScore(row, sorted);
      assert r == [sorted[0]] + InsertByScore(row, tail);
      forall j | 0 < j < |r| ensures r[0].score >= r[j].score {
        assert r[j] in InsertByScore(row, tail);
        if r[j] != row {
          var k :| 0 <= k < |tail| && tail[k] == r[j];
          assert sorted[k + 1] == r[j];
        }
      }
      if DistinctUsers(sorted) && (forall x :: x in sorted ==> x.username != row.username) {
        forall j | 0 < j < |r| ensures r[0].username != r[j].username {
          assert r[j] in InsertByScore(row, tail);
          if r[j] != row {
            var k :| 0 <= k < |tail| && tail[k] == r[j];
            assert sorted[k + 1] == r[j];
          } else {
            assert sorted[0] in sorted;
          }
        }
      }
    }
  }

  /** Inserting adds exactly the one row. */
  lemma {:induction false} InsertByScorePermutes(row: ScoreRow, sorted: seq<ScoreRow>)
    ensures multiset(InsertByScore(row, sorted)) == multiset(sorted) + multiset{row}
  {
    if sorted != [] && row.score < sorted[0].score {
      InsertByScorePermutes(row, sorted[1..]);
      assert sorted == [sorted[0]] + sorted[1..];
    }
  }

  /** Sorting neither drops nor duplicates a row. */
  lemma {:induction false} SortByScorePermutes(rows: seq<ScoreRow>)
    ensures multiset(SortByScore(rows)) == multiset(rows)
  {
    if rows != [] {
      SortByScorePermutes(rows[1..]);
      InsertByScorePermutes(rows[0], SortByScore(rows[1..]));
      assert rows == [rows[0]] + rows[1..];
    }
  }

  /** Sorting yields a permutation of the rows, descending by score, without
      duplicating a username. */
  lemma {:induction false} SortByScoreSpec(rows: seq<ScoreRow>)
    ensures multiset(SortByScore(rows)) == multiset(rows)
    ensures |SortByScore(rows)| == |rows|
    ensures forall x :: x in SortByScore(rows) <==> x in rows
    ensures Descending(SortByScore(rows))
    ensures DistinctUsers(rows) ==> DistinctUsers(SortByScore(rows))
  {
    SortByScorePermutes(rows);
    if rows != [] {
      SortByScoreSpec(rows[1..]);
      InsertByScoreSpec(rows[0], SortByScore(rows[1..]));
      assert rows == [rows[0]] + rows[1..];
      if DistinctUsers(rows) {
        forall x | x in SortByScore(rows[1..]) ensures x.username != rows[0].username {
          var k :| 0 <= k < |rows[1..]| && rows[1..][k] == x;
          assert rows[k + 1] == x;
        }
      }
    }
  }

  /** The leaderboard of one window. */
  function TopScores(recs: seq<SpeechRecord>, start: int): (r: seq<ScoreRow>)
    ensures |r| == Min(TopLimit, |WindowNames(recs, start)|)
    ensures forall i :: 0 <= i < |r| ==> r[i].score == CountIn(recs, r[i].username, start) > 0
    ensures Descending(r)
    ensures DistinctUsers(r)
    ensures forall u :: CountIn(recs, u, start) > 0 && (forall i :: 0 <= i < |r| ==> r[i].username != u)
              ==> |r| == TopLimit && CountIn(recs, u, start) <= r[|r| - 1].score
  {
    var names := WindowNames(recs, start);
    var rows := Tally(names, recs, start);
    var sorted := SortByScore(rows);
    TopScoresHelper(recs, start, names, rows, sorted);
    TopPrefix(recs, start, sorted, Min(TopLimit, |sorted|));
    sorted[..Min(TopLimit, |sorted|)]
  }

  /** Cutting the full ranking after its first `k` rows keeps its
      properties, and any user cut off ranks no higher than the last row kept. */
  lemma TopPrefix(recs: seq<SpeechRecord>, start: int, sorted: seq<ScoreRow>, k: nat)
    requires k == Min(TopLimit, |sorted|)
    requires forall i :: 0 <= i < |sorted| ==> sorted[i].score == CountIn(recs, sorted[i].username, start) > 0
    requires Descending(sorted) && DistinctUsers(sorted)
    requires forall u :: CountIn(recs, u, start) > 0 ==> exists i :: 0 <= i < |sorted| && sorted[i].username == u
    ensures var r := sorted[..k];
            && (forall i :: 0 <= i < |r| ==> r[i].score == CountIn(recs, r[i].username, start) > 0)
            && Descending(r) && DistinctUsers(r)
            && forall u :: CountIn(recs, u, start) > 0 && (forall i :: 0 <= i < |r| ==> r[i].username != u)
                 ==> |r| == TopLimit && CountIn(recs, u, start) <= r[|r| - 1].score
  {
    var r := sorted[..k];
    assert |r| == k && forall i :: 0 <= i < k ==> r[i] == sorted[i];
    forall u | CountIn(recs, u, start) > 0 && (forall i :: 0 <= i < |r| ==> r[i].username != u)
      ensures |r| == TopLimit && CountIn(recs, u, start) <= r[|r| - 1].score
    {
      assert exists i :: 0 <= i < |sorted| && sorted[i].username == u;
      TopOmitted(recs, start, sorted, k, u);
    }
  }

  /** A user in the ranking but not among its first `k` rows sits at some
      position `k` or later, so the ranking was cut and that row scores no
      more than row `k - 1`. */
  lemma TopOmitted(recs: seq<SpeechRecord>, start: int, sorted: seq<ScoreRow>, k: nat, u: string)
    requires k == Min(TopLimit, |sorted|)
    requires forall i :: 0 <= i < |sorted| ==> sorted[i].score == CountIn(recs, sorted[i].username, start)
    requires Descending(sorted)
    requires exists i :: 0 <= i < |sorted| && sorted[i].username == u
    requires forall i :: 0 <= i < k ==> sorted[i].username != u
    ensures k == TopLimit && CountIn(recs, u, start) <= sorted[k - 1].score
  {
    var j :| 0 <= j < |sorted| && sorted[j].username == u;
    assert k <= j;
    assert sorted[k - 1].score >= sorted[j].score;
  }

  function Min(a: nat, b: nat): nat {
    if a <= b then a else b
  }

  lemma TopScoresHelper(recs: seq<SpeechRecord>, start: int, names: seq<string>,
                        rows: seq<ScoreRow>, sorted: seq<ScoreRow>)
    requires names == WindowNames(recs, start)
    requires rows == Tally(names, recs, start)
    requires sorted == SortByScore(rows)
    ensures |sorted| == |names|
    ensures forall i :: 0 <= i < |sorted| ==> sorted[i].score == CountIn(recs, sorted[i].username, start) > 0
    ensures Descending(sorted) && DistinctUsers(sorted)
    ensures forall u :: CountIn(recs, u, start) > 0 ==> exists i :: 0 <= i < |sorted| && sorted[i].username == u
  {
    SortByScoreSpec(rows);
    forall u ensures u in names <==> CountIn(recs, u, start) > 0 {
      WindowNamesExact(recs, start, u);
    }
    WindowNamesExact(recs, start, "");
    forall i | 0 <= i < |sorted| ensures sorted[i].score == CountIn(recs, sorted[i].username, start) > 0 {
      assert sorted[i] in rows;
      var k :| 0 <= k < |rows| && rows[k] == sorted[i];
      assert names[k] in names;
    }
    forall u | CountIn(recs, u, start) > 0 ensures exists i :: 0 <= i < |sorted| && sorted[i].username == u {
      var k :| 0 <= k < |names| && names[k] == u;
      assert rows[k] in sorted;
      var i :| 0 <= i < |sorted| && sorted[i] == rows[k];
    }
  }

  /** `getLeaderboard(timeframe)`: an unknown timeframe is an error;
      otherwise the top rows of the chosen window. */
  function GetLeaderboard(timeframe: string, starts: WindowStarts, recs: seq<SpeechRecord>)
    : (r: Result<seq<ScoreRow>, string>)
    ensures r.Failure? <==> timeframe !in {"daily", "weekly", "monthly"}
    ensures r.Success? ==> r.value == TopScores(recs, WindowStart(ParseTimeframe(timeframe).value, starts))
  {
    match ParseTimeframe(timeframe)
    case None => Failure("invalid timeframe")
    case Some(tf) => Success(TopScores(recs, WindowStart(tf, starts)))
  }
}

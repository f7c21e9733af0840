/** Properties of the two result pages: round_complete
    (game/views.py:215-224) and match_complete (game/views.py:227-245).
 */
module Summaries {
  import opened Models
  import opened Queries
  import opened Database
  import opened Views

  /** Session `s` is the session of user `u` in round `rid`. */
  predicate IsSessionOf(db: Db, s: nat, rid: nat, u: UserId)
  {
    s < |db.sessions| && db.sessions[s].roundId == rid && db.sessions[s].user == u
  }

  /** The session lookup finds the (unique) session of the user in the
      round, and fails exactly when there is none. */
  lemma SessionLookup(db: Db, rid: nat, u: UserId)
    ensures SessionOf(db.sessions, rid, u).None? <==> forall s: nat :: !IsSessionOf(db, s, rid, u)
    ensures SessionOf(db.sessions, rid, u).Some? ==> IsSessionOf(db, SessionOf(db.sessions, rid, u).value, rid, u)
  {
    if SessionOf(db.sessions, rid, u).None? {
      forall s: nat ensures !IsSessionOf(db, s, rid, u) {
        if s < |db.sessions| {
          assert !(db.sessions[s].roundId == rid && db.sessions[s].user == u);
        }
      }
    } else {
      assert IsSessionOf(db, SessionOf(db.sessions, rid, u).value, rid, u);
    }
  }

  /** A score counts correct answers: it lies between 0 and the session's
      number of logs, at most QUESTIONS_PER_ROUND, and reaches the number of
      logs exactly when every log of the session is correct. */
  lemma ScoreBounds(cfg: Config, db: Db, sid: nat)
    requires Valid(cfg, db) && sid < |db.sessions|
    ensures 0 <= db.sessions[sid].score <= |SessionLogIds(db.logs, sid)| <= cfg.questionsPerRound
    ensures db.sessions[sid].score == |SessionLogIds(db.logs, sid)|
        <==> forall i :: 0 <= i < |db.logs| && db.logs[i].sessionId == sid ==> db.logs[i].isCorrect
  {
    assert SessionValid(cfg, db.sessions[sid], sid, |db.rounds|, db.logs);
    IdsWhereMono(db.logs, CorrectInSession(sid), InSession(sid));
    if forall i :: 0 <= i < |db.logs| && InSession(sid)(db.logs[i]) ==> CorrectInSession(sid)(db.logs[i]) {
      forall i | 0 <= i < |db.logs| && db.logs[i].sessionId == sid ensures db.logs[i].isCorrect {
        assert InSession(sid)(db.logs[i]);
      }
    }
  }

  // ---- round_complete ----

  /** round_complete shows the round's two scores when both players have a
      session in it, and fails with 404 otherwise (including a round whose
      match has no player2).  Each score is that player's number of correct
      answers in the round, between 0 and QUESTIONS_PER_ROUND. */
  lemma RoundCompleteScores(cfg: Config, db: Db, rid: nat)
    requires Valid(cfg, db)
    ensures RoundRefs(db)
    ensures var o := RoundComplete(db, rid);
      && (o.RoundSummary? || o == NotFound)
      && (o.RoundSummary? <==>
            && rid < |db.rounds|
            && var m := db.matches[db.rounds[rid].matchId];
            && m.player2.Some?
            && (exists s1: nat :: IsSessionOf(db, s1, rid, m.player1))
            && (exists s2: nat :: IsSessionOf(db, s2, rid, m.player2.value)))
      && (o.RoundSummary? ==>
            && o.roundId == rid
            && var m := db.matches[db.rounds[rid].matchId];
            && 0 <= o.score1 <= cfg.questionsPerRound
            && 0 <= o.score2 <= cfg.questionsPerRound
            && (exists s1: nat, s2: nat ::
                  && IsSessionOf(db, s1, rid, m.player1) && IsSessionOf(db, s2, rid, m.player2.value)
                  && o.score1 == CountCorrect(db.logs, s1) && o.score2 == CountCorrect(db.logs, s2)))
  {
    ValidRoundRefs(cfg, db);
    if rid < |db.rounds| {
      var m := db.matches[db.rounds[rid].matchId];
      SessionLookup(db, rid, m.player1);
      if m.player2.Some? {
        SessionLookup(db, rid, m.player2.value);
        var o := RoundComplete(db, rid);
        if o.RoundSummary? {
          var s1, s2 := SessionOf(db.sessions, rid, m.player1).value, SessionOf(db.sessions, rid, m.player2.value).value;
          ScoreBounds(cfg, db, s1);
          ScoreBounds(cfg, db, s2);
          assert SessionValid(cfg, db.sessions[s1], s1, |db.rounds|, db.logs);
          assert SessionValid(cfg, db.sessions[s2], s2, |db.rounds|, db.logs);
        }
      }
    }
  }

  // ---- match_complete ----

  /** Both players have a session in round `rid`. */
  ghost predicate BothPlayed(db: Db, rid: nat, p1: UserId, p2: Option<UserId>)
  {
    && (exists s1: nat :: IsSessionOf(db, s1, rid, p1))
    && p2.Some? && (exists s2: nat :: IsSessionOf(db, s2, rid, p2.value))
  }

  /** `row` is round `rid`'s summary: its number and the scores of the two
      players' sessions in it. */
  ghost predicate IsRowOf(db: Db, rid: nat, p1: UserId, p2: Option<UserId>, row: Row)
    requires rid < |db.rounds|
  {
    && row.roundNumber == db.rounds[rid].roundNumber
    && p2.Some?
    && exists s1: nat, s2: nat ::
         && IsSessionOf(db, s1, rid, p1) && IsSessionOf(db, s2, rid, p2.value)
         && row.score1 == db.sessions[s1].score && row.score2 == db.sessions[s2].score
  }

  lemma RoundRowSpec(db: Db, rid: nat, p1: UserId, p2: Option<UserId>)
    requires rid < |db.rounds|
    ensures RoundRow(db, rid, p1, p2).Some? <==> BothPlayed(db, rid, p1, p2)
    ensures RoundRow(db, rid, p1, p2).Some? ==> IsRowOf(db, rid, p1, p2, RoundRow(db, rid, p1, p2).value)
  {
    SessionLookup(db, rid, p1);
    if p2.Some? {
      SessionLookup(db, rid, p2.value);
    }
  }

  /** The summary has one row per listed round. */
  lemma {:induction false} SummaryRowsLength(db: Db, rids: seq<nat>, p1: UserId, p2: Option<UserId>)
    requires forall k :: 0 <= k < |rids| ==> rids[k] < |db.rounds|
    requires SummaryRows(db, rids, p1, p2).Some?
    ensures |SummaryRows(db, rids, p1, p2).value| == |rids|
    decreases |rids|
  {
    if |rids| > 0 {
      SummaryRowsLength(db, rids[..|rids| - 1], p1, p2);
    }
  }

  /** A summary is the summary of all but the last listed round, followed
      by the last round's row. */
  lemma SummaryRowsLast(db: Db, rids: seq<nat>, p1: UserId, p2: Option<UserId>)
    requires forall j :: 0 <= j < |rids| ==> rids[j] < |db.rounds|
    requires 0 < |rids| && SummaryRows(db, rids, p1, p2).Some?
    ensures var init := rids[..|rids| - 1];
      && SummaryRows(db, init, p1, p2).Some?
      && RoundRow(db, rids[|rids| - 1], p1, p2).Some?
      && SummaryRows(db, rids, p1, p2).value
         == SummaryRows(db, init, p1, p2).value + [RoundRow(db, rids[|rids| - 1], p1, p2).value]
  {
  }

  /** Row `k` of the summary is the summary row of the `k`-th listed round. */
  lemma {:induction false} SummaryRowsAt(db: Db, rids: seq<nat>, p1: UserId, p2: Option<UserId>, k: nat)
    requires forall j :: 0 <= j < |rids| ==> rids[j] < |db.rounds|
    requires SummaryRows(db, rids, p1, p2).Some? && k < |rids|
    ensures |SummaryRows(db, rids, p1, p2).value| == |rids|
    ensures RoundRow(db, rids[k], p1, p2) == Some(SummaryRows(db, rids, p1, p2).value[k])
    decreases |rids|
  {
    var init := rids[..|rids| - 1];
    SummaryRowsLast(db, rids, p1, p2);
    SummaryRowsLength(db, init, p1, p2);
    var rows, rows0 := SummaryRows(db, rids, p1, p2).value, SummaryRows(db, init, p1, p2).value;
    if k < |init| {
      SummaryRowsAt(db, init, p1, p2, k);
      assert init[k] == rids[k] && rows[k] == rows0[k];
    } else {
      assert rows[k] == RoundRow(db, rids[k], p1, p2).value;
    }
  }

  /** A missing summary has a listed round that one of the players did not
      play. */
  lemma {:induction false} SummaryRowsMissing(db: Db, rids: seq<nat>, p1: UserId, p2: Option<UserId>)
    requires forall k :: 0 <= k < |rids| ==> rids[k] < |db.rounds|
    requires SummaryRows(db, rids, p1, p2).None?
    ensures exists k :: 0 <= k < |rids| && !BothPlayed(db, rids[k], p1, p2)
    decreases |rids|
  {
    var init := rids[..|rids| - 1];
    assert forall j :: 0 <= j < |init| ==> init[j] == rids[j];
    if SummaryRows(db, init, p1, p2).None? {
      SummaryRowsMissing(db, init, p1, p2);
      var k :| 0 <= k < |init| && !BothPlayed(db, init[k], p1, p2);
      assert rids[k] == init[k];
    } else {
      RoundRowSpec(db, rids[|init|], p1, p2);
    }
  }

  /** The summary rows exist exactly when both players played every listed
      round. */
  lemma SummaryRowsDefined(db: Db, rids: seq<nat>, p1: UserId, p2: Option<UserId>)
    requires forall k :: 0 <= k < |rids| ==> rids[k] < |db.rounds|
    ensures SummaryRows(db, rids, p1, p2).Some? <==> forall k :: 0 <= k < |rids| ==> BothPlayed(db, rids[k], p1, p2)
  {
    if SummaryRows(db, rids, p1, p2).Some? {
      forall k | 0 <= k < |rids| ensures BothPlayed(db, rids[k], p1, p2) {
        SummaryRowsAt(db, rids, p1, p2, k);
        RoundRowSpec(db, rids[k], p1, p2);
      }
    } else {
      SummaryRowsMissing(db, rids, p1, p2);
    }
  }

  /** The summary rows are one row per listed round, in the listed order. */
  lemma SummaryRowsContent(db: Db, rids: seq<nat>, p1: UserId, p2: Option<UserId>)
    requires forall k :: 0 <= k < |rids| ==> rids[k] < |db.rounds|
    requires SummaryRows(db, rids, p1, p2).Some?
    ensures var rows := SummaryRows(db, rids, p1, p2).value;
      |rows| == |rids| && forall k :: 0 <= k < |rids| ==> IsRowOf(db, rids[k], p1, p2, rows[k])
  {
    SummaryRowsLength(db, rids, p1, p2);
    var rows := SummaryRows(db, rids, p1, p2).value;
    forall k | 0 <= k < |rids| ensures IsRowOf(db, rids[k], p1, p2, rows[k]) {
      SummaryRowsAt(db, rids, p1, p2, k);
      RoundRowSpec(db, rids[k], p1, p2);
    }
  }

  /** Each total lies between 0 and QUESTIONS_PER_ROUND per row when every
      row's scores do. */
  lemma {:induction false} TotalsBounded(rows: seq<Row>, q: nat)
    requires forall k :: 0 <= k < |rows| ==> 0 <= rows[k].score1 <= q && 0 <= rows[k].score2 <= q
    ensures 0 <= Total1(rows) <= |rows| * q
    ensures 0 <= Total2(rows) <= |rows| * q
    decreases |rows|
  {
    if |rows| > 0 {
      var init := rows[..|rows| - 1];
      forall k | 0 <= k < |init| ensures 0 <= init[k].score1 <= q && 0 <= init[k].score2 <= q {
        assert init[k] == rows[k];
      }
      TotalsBounded(init, q);
      assert |init| * q + q == |rows| * q;
    }
  }

  /** The rounds of a match, in primary-key order, have strictly
      increasing round numbers: primary-key order is `order_by('round_number')`. */
  lemma RoundIdsOrdered(cfg: Config, db: Db, mid: nat)
    requires Valid(cfg, db)
    ensures var rids := RoundIdsOf(db.rounds, mid);
      forall k, k' :: 0 <= k < k' < |rids| ==> db.rounds[rids[k]].roundNumber < db.rounds[rids[k']].roundNumber
  {
  }

  /** match_complete fails with 404 exactly for a missing match, and with a
      server error exactly when some round of the match lacks a session of
      one of the players; otherwise it shows the summary. */
  lemma MatchCompleteOutcome(cfg: Config, db: Db, mid: nat)
    requires Valid(cfg, db)
    ensures var o := MatchComplete(db, mid);
      var rids := RoundIdsOf(db.rounds, mid);
      && (o == NotFound <==> mid >= |db.matches|)
      && (o.MatchSummary? || o == NotFound || o == ServerError)
      && (o == ServerError <==>
            mid < |db.matches| &&
            exists k :: 0 <= k < |rids| && !BothPlayed(db, rids[k], db.matches[mid].player1, db.matches[mid].player2))
  {
    if mid < |db.matches| {
      var m := db.matches[mid];
      SummaryRowsDefined(db, RoundIdsOf(db.rounds, mid), m.player1, m.player2);
    }
  }

  /** Scores on summary rows lie within 0..QUESTIONS_PER_ROUND, being
      session scores. */
  lemma RowScoresBounded(cfg: Config, db: Db, rids: seq<nat>, p1: UserId, p2: Option<UserId>, rows: seq<Row>)
    requires Valid(cfg, db)
    requires |rows| == |rids|
    requires forall k :: 0 <= k < |rids| ==> rids[k] < |db.rounds|
    requires forall k :: 0 <= k < |rids| ==> IsRowOf(db, rids[k], p1, p2, rows[k])
    ensures forall k :: 0 <= k < |rows| ==>
              && 0 <= rows[k].score1 <= cfg.questionsPerRound
              && 0 <= rows[k].score2 <= cfg.questionsPerRound
  {
    forall k | 0 <= k < |rows|
      ensures 0 <= rows[k].score1 <= cfg.questionsPerRound && 0 <= rows[k].score2 <= cfg.questionsPerRound
    {
      assert IsRowOf(db, rids[k], p1, p2, rows[k]);
      var s1: nat, s2: nat :| && IsSessionOf(db, s1, rids[k], p1) && IsSessionOf(db, s2, rids[k], p2.value)
                             && rows[k].score1 == db.sessions[s1].score && rows[k].score2 == db.sessions[s2].score;
      ScoreBounds(cfg, db, s1);
      ScoreBounds(cfg, db, s2);
    }
  }

  /** Summary rows follow the order of their rounds' numbers. */
  lemma RowsOrdered(db: Db, rids: seq<nat>, p1: UserId, p2: Option<UserId>, rows: seq<Row>)
    requires |rows| == |rids|
    requires forall k :: 0 <= k < |rids| ==> rids[k] < |db.rounds|
    requires forall k :: 0 <= k < |rids| ==> IsRowOf(db, rids[k], p1, p2, rows[k])
    requires forall k, k' :: 0 <= k < k' < |rids| ==> db.rounds[rids[k]].roundNumber < db.rounds[rids[k']].roundNumber
    ensures forall k, k' :: 0 <= k < k' < |rows| ==> rows[k].roundNumber < rows[k'].roundNumber
  {
    forall k, k' | 0 <= k < k' < |rows| ensures rows[k].roundNumber < rows[k'].roundNumber {
      assert IsRowOf(db, rids[k], p1, p2, rows[k]);
      assert IsRowOf(db, rids[k'], p1, p2, rows[k']);
    }
  }

  /** The summary lists one row per round of the match, in increasing round
      number (the order of `order_by('round_number')`), each with the two
      players' scores in that round. */
  lemma MatchCompleteRows(cfg: Config, db: Db, mid: nat)
    requires Valid(cfg, db)
    ensures var o := MatchComplete(db, mid);
      var rids := RoundIdsOf(db.rounds, mid);
      o.MatchSummary? ==>
        && mid < |db.matches|
        && var m := db.matches[mid];
        && o.matchId == mid
        && |o.rows| == |rids|
        && (forall j :: 0 <= j < |db.rounds| && db.rounds[j].matchId == mid ==> j in rids)
        && (forall k :: 0 <= k < |rids| ==> IsRowOf(db, rids[k], m.player1, m.player2, o.rows[k]))
        && (forall k, k' :: 0 <= k < k' < |o.rows| ==> o.rows[k].roundNumber < o.rows[k'].roundNumber)
  {
    var o := MatchComplete(db, mid);
    if o.MatchSummary? {
      var m := db.matches[mid];
      var rids := RoundIdsOf(db.rounds, mid);
      var rows := SummaryRows(db, rids, m.player1, m.player2).value;
      assert o.rows == rows;
      SummaryRowsContent(db, rids, m.player1, m.player2);
      RoundIdsOrdered(cfg, db, mid);
      RowsOrdered(db, rids, m.player1, m.player2, rows);
    }
  }

  /** Each summary row's scores lie within 0..QUESTIONS_PER_ROUND; the totals
      are the column sums, within 0..rows * QUESTIONS_PER_ROUND. */
  lemma MatchCompleteTotals(cfg: Config, db: Db, mid: nat)
    requires Valid(cfg, db)
    ensures var o := MatchComplete(db, mid);
      o.MatchSummary? ==>
        && (forall k :: 0 <= k < |o.rows| ==>
              && 0 <= o.rows[k].score1 <= cfg.questionsPerRound
              && 0 <= o.rows[k].score2 <= cfg.questionsPerRound)
        && o.total1 == Total1(o.rows) && o.total2 == Total2(o.rows)
        && 0 <= o.total1 <= |o.rows| * cfg.questionsPerRound
        && 0 <= o.total2 <= |o.rows| * cfg.questionsPerRound
  {
    var o := MatchComplete(db, mid);
    if o.MatchSummary? {
      var m := db.matches[mid];
      var rids := RoundIdsOf(db.rounds, mid);
      var rows := SummaryRows(db, rids, m.player1, m.player2).value;
      assert o == MatchSummary(mid, rows, Total1(rows), Total2(rows));
      SummaryRowsContent(db, rids, m.player1, m.player2);
      RowScoresBounded(cfg, db, rids, m.player1, m.player2, rows);
      TotalsBounded(rows, cfg.questionsPerRound);
    }
  }
}

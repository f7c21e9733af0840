/** Properties of join_match and match_status (game/views.py:36-73). */
module Matchmaking {
  import opened Models
  import opened Queries
  import opened Database
  import opened Views

  lemma PairKeepsMatchesValid(ms: seq<GameMatch>, w: nat, u: UserId, now: Tick)
    requires MatchesValid(ms)
    requires ActiveMatchOf(ms, u).None?
    requires WaitingMatchFor(ms, u) == Some(w)
    ensures MatchesValid(ms[w := Paired(ms[w], u, now)])
  {
    var ms' := ms[w := Paired(ms[w], u, now)];
    assert MatchValid(ms[w]);
    assert Players(ms'[w]) == {ms[w].player1, u};
    forall i, j | 0 <= i < |ms'| && 0 <= j < |ms'| && i != j && Active(ms'[i]) && Active(ms'[j])
      ensures Players(ms'[i]) !! Players(ms'[j])
    {
      if i == w || j == w {
        var k := if i == w then j else i;
        assert !(Active(ms[k]) && Involves(ms[k], u));
        assert Players(ms[w]) !! Players(ms[k]);
      }
    }
  }

  lemma QueueKeepsMatchesValid(ms: seq<GameMatch>, u: UserId)
    requires MatchesValid(ms)
    requires ActiveMatchOf(ms, u).None?
    requires WaitingMatchFor(ms, u).None?
    ensures MatchesValid(ms + [NewMatch(u)])
  {
    var ms' := ms + [NewMatch(u)];
    forall i | 0 <= i < |ms| ensures ms[i].status != Waiting {
      assert !(Active(ms[i]) && Involves(ms[i], u));
    }
    forall i, j | 0 <= i < |ms'| && 0 <= j < |ms'| && i != j && Active(ms'[i]) && Active(ms'[j])
      ensures Players(ms'[i]) !! Players(ms'[j])
    {
      if i == |ms| || j == |ms| {
        var k := if i == |ms| then j else i;
        assert !(Active(ms[k]) && Involves(ms[k], u));
      }
    }
  }

  /** join_match keeps every invariant; in particular every player stays in
      at most one WAITING/IN_ROUND match and the waiting queue holds at most
      one match. */
  lemma JoinPreservesValid(cfg: Config, db: Db, u: UserId, now: Tick)
    requires Valid(cfg, db)
    ensures Valid(cfg, Join(db, u, now).0)
  {
    var db' := Join(db, u, now).0;
    if ActiveMatchOf(db.matches, u).None? {
      match WaitingMatchFor(db.matches, u)
      case Some(w) =>
        PairKeepsMatchesValid(db.matches, w, u, now);
        assert MatchValid(db.matches[w]);
        RoundsValidAfterMatchUpdate(cfg, db.rounds, db.matches, db'.matches, |db.categories|);
      case None =>
        QueueKeepsMatchesValid(db.matches, u);
        RoundsValidAfterMatchUpdate(cfg, db.rounds, db.matches, db'.matches, |db.categories|);
    }
  }

  /** What join_match does.  Only the matches table changes.  A player who
      is already in a WAITING/IN_ROUND match changes nothing.  Otherwise the
      player becomes player2 of the first WAITING match of someone else,
      which turns IN_ROUND; and only when there is no WAITING match at all is
      a new WAITING match created with the player as player1, no player2 and
      round counter 1. */
  lemma JoinCases(cfg: Config, db: Db, u: UserId, now: Tick)
    requires Valid(cfg, db)
    ensures var (db', o) := Join(db, u, now);
      && db'.(matches := db.matches) == db
      && (ActiveMatchOf(db.matches, u).Some? ==> db' == db && o == ToMatchStatus)
      && (ActiveMatchOf(db.matches, u).None? && o.ToStartRound? ==>
            && o.matchId < |db.matches| == |db'.matches|
            && db.matches[o.matchId].status == Waiting
            && db.matches[o.matchId].player1 != u
            && db'.matches[o.matchId].player1 == db.matches[o.matchId].player1
            && db'.matches[o.matchId].player2 == Some(u)
            && db'.matches[o.matchId].status == InRound
            && db'.matches[o.matchId].currentRound == 1
            && (forall i :: 0 <= i < |db.matches| && i != o.matchId ==> db'.matches[i] == db.matches[i]))
      && (ActiveMatchOf(db.matches, u).None? && !o.ToStartRound? ==>
            && o == ToMatchStatus
            && (forall i :: 0 <= i < |db.matches| ==> db.matches[i].status != Waiting)
            && db'.matches[..|db.matches|] == db.matches
            && |db'.matches| == |db.matches| + 1
            && var m := db'.matches[|db.matches|];
               m.player1 == u && m.player2 == None && m.status == Waiting && m.currentRound == 1)
  {
    if ActiveMatchOf(db.matches, u).None? {
      match WaitingMatchFor(db.matches, u)
      case Some(w) =>
        assert MatchValid(db.matches[w]);
      case None =>
        forall i | 0 <= i < |db.matches| ensures db.matches[i].status != Waiting {
          assert !(Active(db.matches[i]) && Involves(db.matches[i], u));
        }
        assert (db.matches + [NewMatch(u)])[..|db.matches|] == db.matches;
    }
  }

  /** After join_match the player is in exactly the WAITING/IN_ROUND match
      that join_match reported, so match_status sends them to it: to the round
      start when they were paired, to the waiting page when they were queued. */
  lemma JoinThenStatus(cfg: Config, db: Db, u: UserId, now: Tick)
    requires Valid(cfg, db)
    requires ActiveMatchOf(db.matches, u).None?
    ensures var (db', o) := Join(db, u, now);
      && (o.ToStartRound? ==> MatchStatus(db', u) == ToStartRound(o.matchId))
      && (!o.ToStartRound? ==> MatchStatus(db', u) == ShowWaiting(|db.matches|))
  {
    var (db', o) := Join(db, u, now);
    JoinPreservesValid(cfg, db, u, now);
    var ms' := db'.matches;
    var k := if o.ToStartRound? then o.matchId else |db.matches|;
    assert k < |ms'| && Active(ms'[k]) && Involves(ms'[k], u);
    match ActiveMatchOf(ms', u)
    case None =>
      assert false;
    case Some(j) =>
      assert j == k;
  }

  /** join_match is idempotent: a second join by the same player, at any
      later time, changes nothing and redirects to match_status. */
  lemma JoinIdempotent(cfg: Config, db: Db, u: UserId, now: Tick, later: Tick)
    requires Valid(cfg, db)
    ensures var db' := Join(db, u, now).0;
      Join(db', u, later) == (db', ToMatchStatus)
  {
    var (db', o) := Join(db, u, now);
    if ActiveMatchOf(db.matches, u).None? {
      var k := if o.ToStartRound? then o.matchId else |db.matches|;
      assert k < |db'.matches| && Active(db'.matches[k]) && Involves(db'.matches[k], u);
    }
  }

  /** Two players joining in turn from an empty match table: the first is
      queued, the second is paired with the first in match 0, which is
      IN_ROUND on round 1 with the first player choosing its topic. */
  lemma TwoPlayersPair(cfg: Config, db: Db, a: UserId, b: UserId, t1: Tick, t2: Tick)
    requires db.matches == [] && a != b
    ensures var (db1, o1) := Join(db, a, t1);
      var (db2, o2) := Join(db1, b, t2);
      && o1 == ToMatchStatus && MatchStatus(db1, a) == ShowWaiting(0)
      && o2 == ToStartRound(0) && MatchStatus(db2, a) == ToStartRound(0)
      && db2.matches == [GameMatch(a, Some(b), Some(t2), InRound, 1)]
      && ParityChooser(db2.matches[0], 1) == Some(a)
  {
    FirstJoinQueues(db, a, t1);
    SecondJoinPairs(Join(db, a, t1).0, a, b, t2);
  }

  lemma FirstJoinQueues(db: Db, a: UserId, t: Tick)
    requires db.matches == []
    ensures Join(db, a, t) == (db.(matches := [NewMatch(a)]), ToMatchStatus)
    ensures MatchStatus(Join(db, a, t).0, a) == ShowWaiting(0)
  {
    assert db.matches + [NewMatch(a)] == [NewMatch(a)];
    assert ActiveMatchOf([NewMatch(a)], a) == Some(0);
  }

  lemma SecondJoinPairs(db: Db, a: UserId, b: UserId, t: Tick)
    requires db.matches == [NewMatch(a)] && a != b
    ensures Join(db, b, t) == (db.(matches := [GameMatch(a, Some(b), Some(t), InRound, 1)]), ToStartRound(0))
    ensures MatchStatus(Join(db, b, t).0, a) == ToStartRound(0)
  {
    assert ActiveMatchOf(db.matches, b) == None;
    assert WaitingMatchFor(db.matches, b) == Some(0);
    var ms' := [GameMatch(a, Some(b), Some(t), InRound, 1)];
    assert db.matches[0 := Paired(db.matches[0], b, t)] == ms';
    assert ActiveMatchOf(ms', a) == Some(0);
  }
}

/** The game's tables as mutable state, and the request handlers as methods
    that update them step by step as the views in game/views.py do: fields
    of fetched rows are assigned, rows are inserted one `objects.create` at
    a time, and match_complete accumulates its totals in a loop.  Each
    method is proved to end in the state, with the response, that the
    handler's function in `Views` describes, and to keep the invariants.
 */
module Store {
  import opened Models
  import opened Queries
  import opened Database
  import opened Views
  import Matchmaking
  import RoundStart
  import Quiz
  import Summaries

  /** One more round on the summary: the rows of a longer prefix extend the
      rows of the shorter one by that round's row. */
  lemma SummaryRowsStep(db: Db, rids: seq<nat>, k: nat, p1: UserId, p2: Option<UserId>)
    requires k < |rids|
    requires forall j :: 0 <= j < |rids| ==> rids[j] < |db.rounds|
    ensures SummaryRows(db, rids[..k + 1], p1, p2)
         == match SummaryRows(db, rids[..k], p1, p2)
            case None => None
            case Some(rows) =>
              match RoundRow(db, rids[k], p1, p2)
              case None => None
              case Some(row) => Some(rows + [row])
  {
    assert rids[..k + 1][..k] == rids[..k];
  }

  /** A round that fails the summary fails every longer list of rounds. */
  lemma {:induction false} SummaryRowsFailure(db: Db, rids: seq<nat>, n: nat, p1: UserId, p2: Option<UserId>)
    requires n <= |rids|
    requires forall j :: 0 <= j < |rids| ==> rids[j] < |db.rounds|
    requires SummaryRows(db, rids[..n], p1, p2).None?
    ensures SummaryRows(db, rids, p1, p2).None?
    decreases |rids| - n
  {
    if n == |rids| {
      assert rids[..n] == rids;
    } else {
      SummaryRowsStep(db, rids, n, p1, p2);
      SummaryRowsFailure(db, rids, n + 1, p1, p2);
    }
  }

  class GameStore {
    // The constants of game/constants.py.
    const questionsPerRound: nat
    const totalRounds: nat
    const choiceCount: nat

    // The question bank, which the core only reads.
    const categories: seq<Category>
    const questions: seq<Question>
    const choices: seq<Choice>

    // The tables the views write.
    var matches: seq<GameMatch>
    var rounds: seq<Round>
    var sessions: seq<RoundSession>
    var logs: seq<AnswerLog>

    function Settings(): Config
    {
      Config(questionsPerRound, totalRounds, choiceCount)
    }

    function State(): Db
      reads this
    {
      Db(categories, questions, choices, matches, rounds, sessions, logs)
    }

    ghost predicate Valid()
      reads this
    {
      Database.Valid(Settings(), State())
    }

    /** A fresh game over a consistent question bank: no matches yet. */
    constructor(cfg: Config, cats: seq<Category>, qs: seq<Question>, cs: seq<Choice>)
      requires ContentValid(cats, qs, cs)
      ensures Valid()
      ensures Settings() == cfg && State() == Db(cats, qs, cs, [], [], [], [])
    {
      questionsPerRound, totalRounds, choiceCount := cfg.questionsPerRound, cfg.totalRounds, cfg.choiceCount;
      categories, questions, choices := cats, qs, cs;
      matches, rounds, sessions, logs := [], [], [], [];
    }

    /** join_match (game/views.py:36-56). */
    method JoinMatch(u: UserId, now: Tick) returns (o: Outcome)
      requires Valid()
      modifies this
      ensures Valid()
      ensures (State(), o) == Join(old(State()), u, now)
    {
      Matchmaking.JoinPreservesValid(Settings(), State(), u, now);
      if ActiveMatchOf(matches, u).Some? {
        return ToMatchStatus;
      }
      var waiting := WaitingMatchFor(matches, u);
      if waiting.Some? {
        var w := waiting.value;
        var m := matches[w];
        m := m.(player2 := Some(u));
        m := m.(status := InRound);
        m := m.(startedAt := Some(now));
        matches := matches[w := m];
        return ToStartRound(w);
      }
      matches := matches + [NewMatch(u)];
      return ToMatchStatus;
    }

    /** start_round (game/views.py:76-132).  The sessions are created in a
        loop over [player1, player2]; creating one for an unset player2
        fails after the earlier rows are saved. */
    method StartRound(mid: nat, u: UserId, form: Form<string>, sample: seq<nat>) returns (o: Outcome)
      requires Valid()
      requires mid < |matches| ==> SampleFits(Settings(), State(), mid, sample)
      modifies this
      ensures Valid()
      ensures (State(), o) == Views.StartRound(Settings(), old(State()), mid, u, form, sample)
    {
      RoundStart.StartRoundPreservesValid(Settings(), State(), mid, u, form, sample);
      ghost var spec := Views.StartRound(Settings(), State(), mid, u, form, sample);
      if mid >= |matches| {
        return NotFound;
      }
      var m := matches[mid];
      if m.currentRound > totalRounds {
        return ToMatchComplete(mid);
      }
      var chooser := ParityChooser(m, m.currentRound);
      var existing := RoundOf(rounds, mid, m.currentRound);
      if existing.Some? {
        return ToPlayRound(existing.value, if Some(u) == chooser then "self" else "opponent");
      }
      if Some(u) != chooser {
        return WaitOtherChoice(mid, m.currentRound);
      }
      var options := Offer(AvailableFor(State(), mid), choiceCount, sample);
      if form.Get? {
        return ChooseCategory(options, m.currentRound);
      }
      var cat := CategoryBySlug(categories, form.field);
      if cat.None? {
        return NotFound;
      }
      o := CreateRound(mid, u, cat.value);
      assert (State(), o) == spec;
    }

    /** The round and its sessions (game/views.py:119-130): the round row
        first, then one session per entry of [player1, player2], so an unset
        player2 fails after the earlier rows are saved. */
    method CreateRound(mid: nat, u: UserId, cid: nat) returns (o: Outcome)
      requires mid < |matches|
      modifies this
      ensures (State(), o) == Views.CreateRound(old(State()), mid, u, cid)
    {
      var m := matches[mid];
      var rid := |rounds|;
      rounds := rounds + [Round(mid, m.currentRound, u, cid)];
      var players := [Some(m.player1), m.player2];
      var k := 0;
      while k < |players|
        invariant 0 <= k <= |players|
        invariant rounds == old(rounds) + [Round(mid, m.currentRound, u, cid)]
        invariant matches == old(matches) && logs == old(logs)
        invariant k == 0 ==> sessions == old(sessions)
        invariant k == 1 ==> sessions == old(sessions) + [NewSession(rid, m.player1)]
        invariant k == 2 ==> m.player2.Some? && sessions == old(sessions) + [NewSession(rid, m.player1), NewSession(rid, m.player2.value)]
      {
        if players[k].None? {
          return ServerError;
        }
        sessions := sessions + [NewSession(rid, players[k].value)];
        k := k + 1;
      }
      assert sessions == old(sessions) + [NewSession(rid, m.player1)] + [NewSession(rid, m.player2.value)];
      return ToPlayRound(rid, "self");
    }

    /** The first-view seeding of play_round (game/views.py:152-155): a
        session without answer logs gets one per drawn question, inserted
        one at a time in draw order. */
    method SeedSession(sid: nat, draw: seq<nat>)
      modifies this
      ensures logs == Seeded(old(logs), sid, draw)
      ensures matches == old(matches) && rounds == old(rounds) && sessions == old(sessions)
    {
      if SessionLogIds(logs, sid) == [] {
        var k := 0;
        while k < |draw|
          invariant 0 <= k <= |draw|
          invariant logs == old(logs) + SeedLogs(sid, draw[..k])
          invariant matches == old(matches) && rounds == old(rounds) && sessions == old(sessions)
        {
          assert draw[..k + 1][..k] == draw[..k];
          logs := logs + [NewAnswerLog(sid, draw[k])];
          k := k + 1;
        }
        assert draw[..|draw|] == draw;
      }
    }

    /** The answering branch of play_round (game/views.py:167-195): assigns
        the log's choice and correctness, bumps the score on a correct
        choice, and on the last position stamps the session and either
        hands over to the opponent or advances the match. */
    method RecordAnswer(rid: nat, sid: nat, lid: nat, idx: nat, cid: nat, phase: string, now: Tick) returns (o: Outcome)
      requires rid < |rounds| && rounds[rid].matchId < |matches|
      requires sid < |sessions| && lid < |logs| && cid < |choices|
      modifies this
      ensures (State(), o) == Answer(Settings(), old(State()), rid, sid, lid, idx, cid, phase, now)
    {
      var choice := choices[cid];
      var log := logs[lid];
      log := log.(selectedChoice := Some(cid));
      log := log.(isCorrect := choice.isCorrect);
      logs := logs[lid := log];
      var s := sessions[sid];
      if choice.isCorrect {
        s := s.(score := s.score + 1);
      }
      sessions := sessions[sid := s];
      if idx + 1 < questionsPerRound {
        return ToPlayRound(rid, phase);
      }
      s := s.(completedAt := Some(now));
      sessions := sessions[sid := s];
      assert sessions == old(sessions)[sid := s];
      if phase == "self" {
        return ToPlayRound(rid, "opponent");
      }
      var mid := rounds[rid].matchId;
      var m := matches[mid];
      m := m.(currentRound := m.currentRound + 1);
      if m.currentRound > totalRounds {
        m := m.(status := Completed);
      }
      matches := matches[mid := m];
      return ToRoundComplete(rid);
    }

    /** play_round (game/views.py:135-203), keeping the invariants. */
    method PlayRound(rid: nat, u: UserId, phase: string, draw: seq<nat>, form: Form<nat>, now: Tick) returns (o: Outcome)
      requires Valid()
      requires rid < |rounds| ==> DrawFits(Settings(), State(), rid, draw)
      modifies this
      ensures Valid()
      ensures RoundRefs(old(State()))
      ensures (State(), o) == Views.PlayRound(Settings(), old(State()), rid, u, phase, draw, form, now)
    {
      Quiz.PlayRoundPreservesValid(Settings(), State(), rid, u, phase, draw, form, now);
      o := HandlePlayRound(rid, u, phase, draw, form, now);
    }

    /** The steps of play_round: the turn check, the session lookup, the
        seeding, the search for the next question, and the answer. */
    method HandlePlayRound(rid: nat, u: UserId, phase: string, draw: seq<nat>, form: Form<nat>, now: Tick) returns (o: Outcome)
      requires RoundRefs(State())
      modifies this
      ensures (State(), o) == Views.PlayRound(Settings(), old(State()), rid, u, phase, draw, form, now)
    {
      ghost var spec := Views.PlayRound(Settings(), State(), rid, u, phase, draw, form, now);
      if rid >= |rounds| {
        return NotFound;
      }
      var r := rounds[rid];
      if Some(u) != Turn(matches[r.matchId], r, phase) {
        return ToWaitingPhase(rid, phase);
      }
      var found := SessionOf(sessions, rid, u);
      if found.None? {
        return NotFound;
      }
      var sid := found.value;
      SeedSession(sid, draw);
      ghost var seeded := State();
      assert seeded == old(State()).(logs := Seeded(old(logs), sid, draw));
      var ids := SessionLogIds(logs, sid);
      var next := FirstUnanswered(logs, ids);
      Quiz.FirstUnansweredByKey(logs, sid);
      if next.None? {
        return ToRoundComplete(rid);
      }
      var idx := next.value;
      var lid := ids[idx];
      match form
      case Get =>
        var qid := logs[lid].questionId;
        return ShowQuestion(qid, ChoicesOf(choices, qid), idx + 1, questionsPerRound);
      case Post(None) =>
        return ServerError;
      case Post(Some(cid)) =>
        if cid >= |choices| {
          return NotFound;
        }
        o := RecordAnswer(rid, sid, lid, idx, cid, phase, now);
        assert (State(), o) == Answer(Settings(), seeded, rid, sid, lid, idx, cid, phase, now);
        assert (State(), o) == spec;
    }

    /** One row of the match summary (game/views.py:234-237): the round's
        number and the two players' scores, fetched with `sessions.get`,
        which fails when either session is missing. */
    method SummaryRow(rid: nat, p1: UserId, p2: Option<UserId>) returns (row: Option<Row>)
      requires rid < |rounds|
      ensures row == RoundRow(State(), rid, p1, p2)
    {
      var s1 := SessionOf(sessions, rid, p1);
      var s2 := if p2.Some? then SessionOf(sessions, rid, p2.value) else None;
      if s1.None? || s2.None? {
        return None;
      }
      return Some(Row(rounds[rid].roundNumber, sessions[s1.value].score, sessions[s2.value].score));
    }

    /** match_complete (game/views.py:227-245): walks the match's rounds in
        order, appending one row per round and adding the scores to the two
        running totals; a round without a session of both players fails. */
    method MatchComplete(mid: nat) returns (o: Outcome)
      ensures o == Views.MatchComplete(State(), mid)
    {
      if mid >= |matches| {
        return NotFound;
      }
      ghost var db := State();
      var m := matches[mid];
      var rids := RoundIdsOf(rounds, mid);
      var rows: seq<Row> := [];
      var total1, total2 := 0, 0;
      var k := 0;
      while k < |rids|
        invariant 0 <= k <= |rids|
        invariant forall j :: 0 <= j < |rids| ==> rids[j] < |db.rounds|
        invariant SummaryRows(db, rids[..k], m.player1, m.player2) == Some(rows)
        invariant total1 == Total1(rows) && total2 == Total2(rows)
      {
        var rid := rids[k];
        SummaryRowsStep(db, rids, k, m.player1, m.player2);
        var found := SummaryRow(rid, m.player1, m.player2);
        if found.None? {
          SummaryRowsFailure(db, rids, k + 1, m.player1, m.player2);
          return ServerError;
        }
        var row := found.value;
        assert (rows + [row])[..|rows|] == rows;
        rows := rows + [row];
        total1 := total1 + row.score1;
        total2 := total2 + row.score2;
        k := k + 1;
      }
      assert rids[..|rids|] == rids;
      return MatchSummary(mid, rows, total1, total2);
    }
  }
}

/** Properties of start_round (game/views.py:76-132). */
module RoundStart {
  import opened Models
  import opened Queries
  import opened Database
  import opened Views

  /** A session whose id is past every log's session id has no logs, and so
      no correct ones. */
  lemma FreshSessionHasNoLogs(logs: seq<AnswerLog>, nSessions: nat, sid: nat)
    requires forall i :: 0 <= i < |logs| ==> logs[i].sessionId < nSessions
    requires nSessions <= sid
    ensures SessionLogIds(logs, sid) == [] && CountCorrect(logs, sid) == 0
  {
    IdsWhereCount(logs, InSession(sid));
    IdsWhereCount(logs, CorrectInSession(sid));
  }

  /** Exactly the requests that make start_round create a round: an existing
      match still within the round budget, no round yet for its current
      number, a requester who is that number's parity chooser, and a POST
      naming the slug of an existing category. */
  predicate Creates(cfg: Config, db: Db, mid: nat, u: UserId, form: Form<string>)
  {
    && mid < |db.matches|
    && var m := db.matches[mid];
    && m.currentRound <= cfg.totalRounds
    && (forall i :: 0 <= i < |db.rounds| ==> !(db.rounds[i].matchId == mid && db.rounds[i].roundNumber == m.currentRound))
    && (if m.currentRound % 2 == 1 then u == m.player1 else m.player2 == Some(u))
    && form.Post? && form.field.Some?
    && exists c :: 0 <= c < |db.categories| && db.categories[c].slug == form.field.value
  }

  lemma CreateKeepsRoundsValid(cfg: Config, db: Db, mid: nat, u: UserId, cid: nat)
    requires RoundsValid(cfg, db.rounds, db.matches, |db.categories|)
    requires mid < |db.matches| && cid < |db.categories| && db.matches[mid].currentRound >= 1
    requires db.matches[mid].currentRound <= cfg.totalRounds
    requires RoundOf(db.rounds, mid, db.matches[mid].currentRound).None?
    requires ParityChooser(db.matches[mid], db.matches[mid].currentRound) == Some(u)
    ensures var db' := CreateRound(db, mid, u, cid).0;
      RoundsValid(cfg, db'.rounds, db'.matches, |db'.categories|)
  {
    var db' := CreateRound(db, mid, u, cid).0;
    var rid := |db.rounds|;
    forall i, j | 0 <= i < j < |db'.rounds| && db'.rounds[i].matchId == db'.rounds[j].matchId
      ensures db'.rounds[i].roundNumber < db'.rounds[j].roundNumber
    {
      if j == rid {
        assert RoundValid(cfg, db.rounds[i], db.matches, |db.categories|);
      }
    }
  }

  /** Adding a session with score 0, no completion stamp, no logs and a
      fresh (round, user) pair keeps the sessions valid. */
  lemma AddSessionKeepsValid(cfg: Config, ss: seq<RoundSession>, n: nat, n': nat, logs: seq<AnswerLog>, s: RoundSession)
    requires SessionsValid(cfg, ss, n, logs) && n <= n'
    requires forall i :: 0 <= i < |logs| ==> logs[i].sessionId < |ss|
    requires forall i :: 0 <= i < |ss| ==> ss[i].roundId != s.roundId || ss[i].user != s.user
    requires s.roundId < n' && s.score == 0 && s.completedAt.None?
    ensures SessionsValid(cfg, ss + [s], n', logs)
  {
    var ss' := ss + [s];
    FreshSessionHasNoLogs(logs, |ss|, |ss|);
    forall i | 0 <= i < |ss'| ensures SessionValid(cfg, ss'[i], i, n', logs) {
      if i < |ss| {
        assert SessionValid(cfg, ss[i], i, n, logs);
      }
    }
  }

  lemma CreateKeepsSessionsValid(cfg: Config, db: Db, mid: nat, u: UserId, cid: nat)
    requires SessionsValid(cfg, db.sessions, |db.rounds|, db.logs)
    requires LogsValid(db.logs, |db.sessions|, db.questions, db.choices)
    requires mid < |db.matches| && MatchValid(db.matches[mid])
    ensures var db' := CreateRound(db, mid, u, cid).0;
      && SessionsValid(cfg, db'.sessions, |db'.rounds|, db'.logs)
      && LogsValid(db'.logs, |db'.sessions|, db'.questions, db'.choices)
  {
    var m := db.matches[mid];
    var rid := |db.rounds|;
    forall i | 0 <= i < |db.logs| ensures db.logs[i].sessionId < |db.sessions| {
      assert LogValid(db.logs[i], |db.sessions|, |db.questions|, db.choices);
    }
    forall i | 0 <= i < |db.sessions| ensures db.sessions[i].roundId < rid {
      assert SessionValid(cfg, db.sessions[i], i, |db.rounds|, db.logs);
    }
    var s1 := db.sessions + [NewSession(rid, m.player1)];
    AddSessionKeepsValid(cfg, db.sessions, rid, rid + 1, db.logs, NewSession(rid, m.player1));
    if m.player2.Some? {
      AddSessionKeepsValid(cfg, s1, rid + 1, rid + 1, db.logs, NewSession(rid, m.player2.value));
    }
    var db' := CreateRound(db, mid, u, cid).0;
    forall i | 0 <= i < |db.logs| ensures LogValid(db.logs[i], |db'.sessions|, |db.questions|, db.choices) {
      assert LogValid(db.logs[i], |db.sessions|, |db.questions|, db.choices);
    }
  }

  /** start_round keeps every invariant; in particular (match, round_number)
      and (round, user) stay unique. */
  lemma StartRoundPreservesValid(cfg: Config, db: Db, mid: nat, u: UserId, form: Form<string>, sample: seq<nat>)
    requires Valid(cfg, db)
    requires mid < |db.matches| ==> SampleFits(cfg, db, mid, sample)
    ensures Valid(cfg, StartRound(cfg, db, mid, u, form, sample).0)
  {
    if mid < |db.matches| {
      var m := db.matches[mid];
      if m.currentRound <= cfg.totalRounds && RoundOf(db.rounds, mid, m.currentRound).None?
         && Some(u) == ParityChooser(m, m.currentRound) && form.Post?
      {
        match CategoryBySlug(db.categories, form.field)
        case None =>
        case Some(cid) =>
          assert MatchValid(m);
          CreateKeepsRoundsValid(cfg, db, mid, u, cid);
          CreateKeepsSessionsValid(cfg, db, mid, u, cid);
      }
    }
  }

  /** start_round creates a round exactly for the requests described by
      `Creates`, and changes nothing otherwise.  A created round has the
      match's current number and the requester as chooser, and it gets one
      fresh session per player: player1's, then player2's; a match without
      player2 (still WAITING) gets only player1's and the request fails. */
  lemma StartRoundCreatesOnlyWhen(cfg: Config, db: Db, mid: nat, u: UserId, form: Form<string>, sample: seq<nat>)
    requires MatchesValid(db.matches)
    requires mid < |db.matches| ==> SampleFits(cfg, db, mid, sample)
    ensures var (db', o) := StartRound(cfg, db, mid, u, form, sample);
      && db'.(rounds := db.rounds, sessions := db.sessions) == db
      && (db' != db <==> Creates(cfg, db, mid, u, form))
      && (Creates(cfg, db, mid, u, form) ==>
            var m := db.matches[mid];
            var rid := |db.rounds|;
            && |db'.rounds| == rid + 1 && db'.rounds[..rid] == db.rounds
            && db'.rounds[rid].matchId == mid
            && db'.rounds[rid].roundNumber == m.currentRound
            && db'.rounds[rid].chooser == u
            && db.categories[db'.rounds[rid].categoryId].slug == form.field.value
            && (m.player2.Some? ==>
                  && db'.sessions == db.sessions + [NewSession(rid, m.player1), NewSession(rid, m.player2.value)]
                  && o == ToPlayRound(rid, "self"))
            && (m.player2.None? ==>
                  && m.status == Waiting
                  && db'.sessions == db.sessions + [NewSession(rid, m.player1)]
                  && o == ServerError))
  {
    var (db', o) := StartRound(cfg, db, mid, u, form, sample);
    if mid < |db.matches| {
      var m := db.matches[mid];
      var n := m.currentRound;
      var p := (r: Round) => r.matchId == mid && r.roundNumber == n;
      if n <= cfg.totalRounds && RoundOf(db.rounds, mid, n).None? && Some(u) == ParityChooser(m, n) && form.Post? {
        match CategoryBySlug(db.categories, form.field)
        case None =>
          assert db' == db;
          if form.field.Some? {
            assert forall c :: 0 <= c < |db.categories| ==> db.categories[c].slug != form.field.value;
          }
        case Some(cid) =>
          assert MatchValid(m);
          assert Creates(cfg, db, mid, u, form);
          assert (db', o) == CreateRound(db, mid, u, cid);
          var rid := |db.rounds|;
          assert (db.rounds + [db'.rounds[rid]])[..rid] == db.rounds;
      } else {
        assert db' == db;
        if RoundOf(db.rounds, mid, n).Some? {
          var r := RoundOf(db.rounds, mid, n).value;
          assert db.rounds[r].matchId == mid && db.rounds[r].roundNumber == n;
        }
      }
    }
  }

  /** Appending the first round of match `mid` numbered `n` makes it the one
      the lookup by (match, number) finds. */
  lemma RoundOfAppended(rounds: seq<Round>, r: Round)
    requires RoundOf(rounds, r.matchId, r.roundNumber).None?
    ensures RoundOf(rounds + [r], r.matchId, r.roundNumber) == Some(|rounds|)
  {
    var rs := rounds + [r];
    assert rs[|rounds|] == r;
    assert forall j :: 0 <= j < |rounds| ==> rs[j] == rounds[j];
  }

  /** Re-entry never creates a second round: once start_round has led into a
      round, start_round again, by anyone and with any form, changes nothing
      and leads into the same round, with phase 'self' for the parity chooser
      (who, when the round was just created, is its creator) and phase
      'opponent' for everyone else. */
  lemma StartRoundIdempotent(cfg: Config, db: Db, mid: nat, u: UserId, slug: Option<string>, sample: seq<nat>,
                             v: UserId, form: Form<string>, sample': seq<nat>)
    requires mid < |db.matches| ==> SampleFits(cfg, db, mid, sample)
    requires StartRound(cfg, db, mid, u, Post(slug), sample).1.ToPlayRound?
    requires var db' := StartRound(cfg, db, mid, u, Post(slug), sample).0;
      mid < |db'.matches| ==> SampleFits(cfg, db', mid, sample')
    ensures var (db', o) := StartRound(cfg, db, mid, u, Post(slug), sample);
      var m := db.matches[mid];
      StartRound(cfg, db', mid, v, form, sample')
        == (db', ToPlayRound(o.roundId, if Some(v) == ParityChooser(m, m.currentRound) then "self" else "opponent"))
  {
    var (db', o) := StartRound(cfg, db, mid, u, Post(slug), sample);
    var m := db.matches[mid];
    var n := m.currentRound;
    match RoundOf(db.rounds, mid, n)
    case Some(r) =>
      assert db' == db && o.roundId == r;
    case None =>
      var cid := CategoryBySlug(db.categories, slug).value;
      assert (db', o) == CreateRound(db, mid, u, cid);
      RoundOfAppended(db.rounds, Round(mid, n, u, cid));
      assert db'.rounds == db.rounds + [Round(mid, n, u, cid)];
      assert db'.matches == db.matches;
  }

  /** The topic offer shown to the chooser holds only categories that no
      round of this match has used, holds no category twice, and has
      min(number of unused categories, CHOICE_COUNT) entries; it is all of
      them, in primary-key order, when they do not exceed CHOICE_COUNT. */
  lemma StartRoundOffer(cfg: Config, db: Db, mid: nat, u: UserId, form: Form<string>, sample: seq<nat>)
    requires mid < |db.matches| ==> SampleFits(cfg, db, mid, sample)
    ensures var o := StartRound(cfg, db, mid, u, form, sample).1;
      o.ChooseCategory? ==>
        var avail := AvailableFor(db, mid);
        && mid < |db.matches|
        && o.roundNumber == db.matches[mid].currentRound
        && (forall x :: x in avail <==>
              0 <= x < |db.categories| &&
              forall j :: 0 <= j < |db.rounds| && db.rounds[j].matchId == mid ==> db.rounds[j].categoryId != x)
        && (forall x :: x in o.options ==> x in avail)
        && NoDups(o.options)
        && |o.options| == Min(|avail|, cfg.choiceCount)
        && (|avail| <= cfg.choiceCount ==> o.options == avail)
  {
    var o := StartRound(cfg, db, mid, u, form, sample).1;
    if o.ChooseCategory? {
      var used := UsedCategories(db.rounds, mid);
      var avail := AvailableFor(db, mid);
      forall x ensures x in avail <==>
        0 <= x < |db.categories| &&
        forall j :: 0 <= j < |db.rounds| && db.rounds[j].matchId == mid ==> db.rounds[j].categoryId != x
      {
        if x in avail {
          forall j | 0 <= j < |db.rounds| && db.rounds[j].matchId == mid ensures db.rounds[j].categoryId != x {
            assert db.rounds[j].categoryId in used;
          }
        }
      }
    }
  }
}

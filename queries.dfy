/** The read-only queries the views run against the tables: `.first()` over a
    filter, the rows of one owner in primary-key order, counts, and the pools
    that the random draws come from.
 */
module Queries {
  import opened Models

  function Min(a: int, b: int): int
  {
    if a <= b then a else b
  }

  predicate NoDups<T(==)>(s: seq<T>)
  {
    forall i, j :: 0 <= i < j < |s| ==> s[i] != s[j]
  }

  /** Position of the first row of `s` that satisfies `p`: the row that
      `.filter(p).first()` returns, since an unordered queryset is ordered by
      primary key when `.first()` is taken. */
  function FindFirst<T>(s: seq<T>, p: T -> bool): (r: Option<nat>)
    ensures r.Some? ==> r.value < |s| && p(s[r.value])
    ensures r.Some? ==> forall j :: 0 <= j < r.value ==> !p(s[j])
    ensures r.None? ==> forall j :: 0 <= j < |s| ==> !p(s[j])
  {
    if |s| == 0 then None
    else if p(s[0]) then Some(0)
    else
      match FindFirst(s[1..], p)
      case None =>
        assert forall j :: 1 <= j < |s| ==> s[j] == s[1..][j - 1];
        None
      case Some(k) =>
        assert forall j :: 1 <= j <= k ==> s[j] == s[1..][j - 1];
        Some(k + 1)
  }

  /** Primary keys of the rows of `s` that satisfy `p`, in primary-key order:
      the rows of a filtered queryset. */
  function IdsWhere<T>(s: seq<T>, p: T -> bool): (r: seq<nat>)
    ensures forall k :: 0 <= k < |r| ==> r[k] < |s| && p(s[r[k]])
    ensures forall i :: 0 <= i < |s| && p(s[i]) ==> i in r
    ensures forall k, k' :: 0 <= k < k' < |r| ==> r[k] < r[k']
    decreases |s|
  {
    if |s| == 0 then []
    else
      var init := s[..|s| - 1];
      assert forall i :: 0 <= i < |init| ==> init[i] == s[i];
      IdsWhere(init, p) + (if p(s[|s| - 1]) then [|s| - 1] else [])
  }

  lemma IdsWhereSnoc<T>(s: seq<T>, x: T, p: T -> bool)
    ensures IdsWhere(s + [x], p) == IdsWhere(s, p) + (if p(x) then [|s|] else [])
  {
    assert (s + [x])[..|s|] == s;
  }

  /** Appending rows adds to a filter exactly the appended rows that pass it. */
  lemma {:induction false} IdsWhereConcat<T>(s: seq<T>, t: seq<T>, p: T -> bool)
    ensures |IdsWhere(s + t, p)| == |IdsWhere(s, p)| + |IdsWhere(t, p)|
    decreases |t|
  {
    if |t| == 0 {
      assert s + t == s;
    } else {
      var init, x := t[..|t| - 1], t[|t| - 1];
      assert t == init + [x];
      assert s + t == (s + init) + [x];
      IdsWhereSnoc(s + init, x, p);
      IdsWhereSnoc(init, x, p);
      IdsWhereConcat(s, init, p);
    }
  }

  /** A filter keeps at most every row. */
  lemma {:induction false} IdsWhereBound<T>(s: seq<T>, p: T -> bool)
    ensures |IdsWhere(s, p)| <= |s|
    decreases |s|
  {
    if |s| > 0 {
      IdsWhereBound(s[..|s| - 1], p);
    }
  }

  /** A filter keeps every row exactly when every row passes. */
  lemma {:induction false} IdsWhereAll<T>(s: seq<T>, p: T -> bool)
    ensures |IdsWhere(s, p)| == |s| <==> forall i :: 0 <= i < |s| ==> p(s[i])
    decreases |s|
  {
    if |s| > 0 {
      var init, x := s[..|s| - 1], s[|s| - 1];
      assert IdsWhere(s, p) == IdsWhere(init, p) + (if p(x) then [|init|] else []);
      IdsWhereBound(init, p);
      IdsWhereAll(init, p);
      if |IdsWhere(s, p)| == |s| {
        assert p(x) && |IdsWhere(init, p)| == |init|;
        forall i | 0 <= i < |s| ensures p(s[i]) {
          if i < |init| {
            assert init[i] == s[i];
          }
        }
      }
    }
  }

  /** A filter keeps no row exactly when no row passes. */
  lemma {:induction false} IdsWhereNone<T>(s: seq<T>, p: T -> bool)
    ensures |IdsWhere(s, p)| == 0 <==> forall i :: 0 <= i < |s| ==> !p(s[i])
    decreases |s|
  {
    if |s| > 0 {
      var init, x := s[..|s| - 1], s[|s| - 1];
      IdsWhereSnoc(init, x, p);
      assert s == init + [x];
      IdsWhereNone(init, p);
      if forall i :: 0 <= i < |s| ==> !p(s[i]) {
        forall i | 0 <= i < |init| ensures !p(init[i]) {
          assert init[i] == s[i];
        }
      }
    }
  }

  /** A filter keeps at most every row; it keeps every row exactly when every
      row passes, and none exactly when no row passes. */
  lemma IdsWhereCount<T>(s: seq<T>, p: T -> bool)
    ensures |IdsWhere(s, p)| <= |s|
    ensures |IdsWhere(s, p)| == |s| <==> forall i :: 0 <= i < |s| ==> p(s[i])
    ensures |IdsWhere(s, p)| == 0 <==> forall i :: 0 <= i < |s| ==> !p(s[i])
  {
    IdsWhereBound(s, p);
    IdsWhereAll(s, p);
    IdsWhereNone(s, p);
  }

  /** Rewriting one row changes a filter's size by what that row contributes
      before and after. */
  lemma {:induction false} IdsWhereUpdate<T>(s: seq<T>, i: nat, x: T, p: T -> bool)
    requires i < |s|
    ensures |IdsWhere(s[i := x], p)|
         == |IdsWhere(s, p)| - (if p(s[i]) then 1 else 0) + (if p(x) then 1 else 0)
    decreases |s|
  {
    var init, last := s[..|s| - 1], s[|s| - 1];
    assert s == init + [last];
    IdsWhereSnoc(init, last, p);
    if i == |s| - 1 {
      assert s[i := x] == init + [x];
      IdsWhereSnoc(init, x, p);
    } else {
      assert s[i := x] == init[i := x] + [last];
      IdsWhereSnoc(init[i := x], last, p);
      IdsWhereUpdate(init, i, x, p);
    }
  }

  /** A stronger filter keeps no more rows than a weaker one, and as many
      exactly when the two agree on every row. */
  lemma {:induction false} IdsWhereMono<T>(s: seq<T>, p: T -> bool, q: T -> bool)
    requires forall i :: 0 <= i < |s| && p(s[i]) ==> q(s[i])
    ensures |IdsWhere(s, p)| <= |IdsWhere(s, q)|
    ensures |IdsWhere(s, p)| == |IdsWhere(s, q)| <==> forall i :: 0 <= i < |s| && q(s[i]) ==> p(s[i])
    decreases |s|
  {
    if |s| > 0 {
      var init, x := s[..|s| - 1], s[|s| - 1];
      assert IdsWhere(s, p) == IdsWhere(init, p) + (if p(x) then [|init|] else []);
      assert IdsWhere(s, q) == IdsWhere(init, q) + (if q(x) then [|init|] else []);
      assert forall i :: 0 <= i < |init| ==> init[i] == s[i];
      IdsWhereMono(init, p, q);
      if |IdsWhere(s, p)| == |IdsWhere(s, q)| {
        assert p(x) == q(x) && |IdsWhere(init, p)| == |IdsWhere(init, q)|;
        forall i | 0 <= i < |s| && q(s[i]) ensures p(s[i]) {
          if i < |init| {
            assert q(init[i]);
          }
        }
      }
    }
  }

  // ---- Matches ----

  predicate Active(m: GameMatch)
  {
    m.status == Waiting || m.status == InRound
  }

  function Players(m: GameMatch): set<UserId>
  {
    {m.player1} + (if m.player2.Some? then {m.player2.value} else {})
  }

  /** `Q(player1=user) | Q(player2=user)` */
  predicate Involves(m: GameMatch, u: UserId)
  {
    u in Players(m)
  }

  /** The first WAITING or IN_ROUND match of `u` (game/views.py:39-42, 62-65). */
  function ActiveMatchOf(ms: seq<GameMatch>, u: UserId): Option<nat>
  {
    FindFirst(ms, (m: GameMatch) => Active(m) && Involves(m, u))
  }

  /** The first WAITING match whose player1 is not `u` (game/views.py:46). */
  function WaitingMatchFor(ms: seq<GameMatch>, u: UserId): Option<nat>
  {
    FindFirst(ms, (m: GameMatch) => m.status == Waiting && m.player1 != u)
  }

  /** The player who picks the topic of round `n`: player1 on odd rounds,
      player2 (possibly unset) on even ones. */
  function ParityChooser(m: GameMatch, n: int): Option<UserId>
  {
    if n % 2 == 1 then Some(m.player1) else m.player2
  }

  // ---- Rounds and topics ----

  /** The round of match `mid` numbered `n`, if one exists. */
  function RoundOf(rounds: seq<Round>, mid: nat, n: int): Option<nat>
  {
    FindFirst(rounds, (r: Round) => r.matchId == mid && r.roundNumber == n)
  }

  /** `match.rounds`, in primary-key order. */
  function RoundIdsOf(rounds: seq<Round>, mid: nat): seq<nat>
  {
    IdsWhere(rounds, (r: Round) => r.matchId == mid)
  }

  /** `match.rounds.values_list('category_id')` as a set. */
  function UsedCategories(rounds: seq<Round>, mid: nat): set<nat>
  {
    set j | 0 <= j < |rounds| && rounds[j].matchId == mid :: rounds[j].categoryId
  }

  /** `Category.objects.exclude(id__in=used)`: the ids below `n` outside
      `used`, in primary-key order. */
  function UnusedIds(n: nat, used: set<nat>): (r: seq<nat>)
    ensures forall k :: 0 <= k < |r| ==> r[k] < n && r[k] !in used
    ensures forall i :: 0 <= i < n && i !in used ==> i in r
    ensures forall k, k' :: 0 <= k < k' < |r| ==> r[k] < r[k']
  {
    if n == 0 then [] else UnusedIds(n - 1, used) + (if n - 1 !in used then [n - 1] else [])
  }

  /** `sample` is what `random.sample(pool, k)` may return: `k` distinct
      members of `pool`. */
  predicate IsSample(sample: seq<nat>, pool: seq<nat>, k: nat)
  {
    |sample| == k && NoDups(sample) && forall x :: x in sample ==> x in pool
  }

  /** The topic offer: every available category when there are at most
      `choiceCount` of them, otherwise the injected random sample. */
  function Offer(available: seq<nat>, choiceCount: nat, sample: seq<nat>): seq<nat>
    requires |available| > choiceCount ==> IsSample(sample, available, choiceCount)
  {
    if |available| > choiceCount then sample else available
  }

  /** `Category.objects.get(slug=slug)`; a missing form field matches no row. */
  function CategoryBySlug(categories: seq<Category>, slug: Option<string>): Option<nat>
  {
    match slug
    case None => None
    case Some(s) => FindFirst(categories, (c: Category) => c.slug == s)
  }

  // ---- Sessions, questions and answer logs ----

  /** `RoundSession.objects.get(round=rid, user=u)` */
  function SessionOf(sessions: seq<RoundSession>, rid: nat, u: UserId): Option<nat>
  {
    FindFirst(sessions, (s: RoundSession) => s.roundId == rid && s.user == u)
  }

  function InSession(sid: nat): AnswerLog -> bool
  {
    (l: AnswerLog) => l.sessionId == sid
  }

  function CorrectInSession(sid: nat): AnswerLog -> bool
  {
    (l: AnswerLog) => l.sessionId == sid && l.isCorrect
  }

  /** `session.answers.all()`, in primary-key order. */
  function SessionLogIds(logs: seq<AnswerLog>, sid: nat): seq<nat>
  {
    IdsWhere(logs, InSession(sid))
  }

  /** The number of logs of session `sid` marked correct. */
  function CountCorrect(logs: seq<AnswerLog>, sid: nat): nat
  {
    |IdsWhere(logs, CorrectInSession(sid))|
  }

  predicate AllAnswered(logs: seq<AnswerLog>, sid: nat)
  {
    forall i :: 0 <= i < |logs| && logs[i].sessionId == sid ==> logs[i].selectedChoice.Some?
  }

  /** Position, within `ids`, of the first log with no selected choice. */
  function FirstUnanswered(logs: seq<AnswerLog>, ids: seq<nat>): Option<nat>
  {
    FindFirst(ids, (i: nat) => i < |logs| && logs[i].selectedChoice.None?)
  }

  /** `category.question_set.filter(approved=True)`, in primary-key order. */
  function ApprovedPool(questions: seq<Question>, cid: nat): seq<nat>
  {
    IdsWhere(questions, (q: Question) => q.categoryId == cid && q.approved)
  }

  /** `question.choices.all()`, in primary-key order. */
  function ChoicesOf(choices: seq<Choice>, qid: nat): seq<nat>
  {
    IdsWhere(choices, (c: Choice) => c.questionId == qid)
  }

  /** The answer logs the seeding loop creates for session `sid`, one per
      drawn question, in draw order. */
  function SeedLogs(sid: nat, drawn: seq<nat>): (r: seq<AnswerLog>)
    ensures |r| == |drawn|
    ensures forall k :: 0 <= k < |r| ==> r[k] == NewAnswerLog(sid, drawn[k])
  {
    if |drawn| == 0 then [] else SeedLogs(sid, drawn[..|drawn| - 1]) + [NewAnswerLog(sid, drawn[|drawn| - 1])]
  }
}

/**
  Pact completeness: a running average that is rounded after every session. Answered sessions bring their
  own score, skipped ones a fixed one.
 */
module Pact {
  import opened Rounding

  const SKIP_SCORE: int := 50
  const PACT_COMPLETE_SESSION_MIN: nat := 5
  const PACT_COMPLETE_COMPLETENESS_MIN: int := 70

  type Score = s: int | 0 <= s <= 100

  const CONNECTIVES: seq<string> := ["因为", "所以", "结果", "例如", "当时"]

  /** Which characters are white space and which are digits; the character database decides. */
  datatype Characters = Characters(isSpace: char -> bool, isDigit: char -> bool)

  // ---------- one answer ----------

  function Leading(c: Characters, s: string): (n: nat)
    ensures n <= |s| && forall i | 0 <= i < n :: c.isSpace(s[i])
    ensures n < |s| ==> !c.isSpace(s[n])
  {
    if s == "" || !c.isSpace(s[0]) then 0 else 1 + Leading(c, s[1..])
  }

  function Trailing(c: Characters, s: string): (n: nat)
    ensures n <= |s| && forall i | |s| - n <= i < |s| :: c.isSpace(s[i])
    ensures n < |s| ==> !c.isSpace(s[|s| - 1 - n])
  {
    if s == "" || !c.isSpace(s[|s| - 1]) then 0 else 1 + Trailing(c, s[..|s| - 1])
  }

  function Strip(c: Characters, s: string): string {
    if Leading(c, s) + Trailing(c, s) >= |s| then "" else s[Leading(c, s)..|s| - Trailing(c, s)]
  }

  predicate StandsAt(part: string, s: string, i: nat) {
    i + |part| <= |s| && s[i..i + |part|] == part
  }

  predicate PartOf(part: string, s: string) {
    exists i | 0 <= i <= |s| :: StandsAt(part, s, i)
  }

  predicate HasDigit(c: Characters, s: string) {
    exists i | 0 <= i < |s| :: c.isDigit(s[i])
  }

  predicate HasConnective(s: string) {
    exists i | 0 <= i < |CONNECTIVES| :: PartOf(CONNECTIVES[i], s)
  }

  method ScoreAnswerText(c: Characters, text: string) returns (score: Score)
    ensures score == AnswerScore(c, text)
  {
    var stripped := Strip(c, text);
    score := 50;
    if |stripped| >= 8 {
      score := score + 10;
    }
    if |stripped| >= 16 {
      score := score + 10;
    }
    if HasDigit(c, stripped) {
      score := score + 15;
    }
    if HasConnective(stripped) {
      score := score + 10;
    }
    if |stripped| >= 24 {
      score := score + 5;
    }
    score := if score < 100 then score else 100;
  }

  function LengthPoints(length: nat): int {
    if length >= 24 then 25 else if length >= 16 then 20 else if length >= 8 then 10 else 0
  }

  /** The cap at 100 never cuts anything: every part of the scale has its own reason, and full marks need all. */
  function AnswerScore(c: Characters, text: string): (score: Score)
    ensures 50 <= score
    ensures var s := Strip(c, text); score == 100 <==> |s| >= 24 && HasDigit(c, s) && HasConnective(s)
  {
    var s := Strip(c, text);
    50 + LengthPoints(|s|) + (if HasDigit(c, s) then 15 else 0) + (if HasConnective(s) then 10 else 0)
  }

  lemma Slices(s: string, j: nat, n: nat, i: nat, m: nat)
    requires i + m <= n && j + n <= |s|
    ensures s[j..j + n][i..i + m] == s[j + i..j + i + m]
  {
    var p, q := s[j..j + n][i..i + m], s[j + i..j + i + m];
    assert |p| == |q|;
    forall k | 0 <= k < |p| ensures p[k] == q[k] {
      assert s[j..j + n][i + k] == s[j + (i + k)];
    }
  }

  /** A stretch of a text in the middle stands in every stretch of the whole that reaches around it. */
  lemma StretchStands(before: string, text: string, after: string, lo: nat, hi: nat, from: nat, end: nat)
    requires lo <= hi <= |text| && from <= |before| + lo && |before| + hi <= end <= |before + text + after|
    ensures PartOf(text[lo..hi], (before + text + after)[from..end])
  {
    var whole := before + text + after;
    var i, n := |before| + lo - from, hi - lo;
    Slices(whole, from, end - from, i, n);
    Slices(whole, |before|, |text|, lo, n);
    assert whole[|before|..|before| + |text|] == text;
    assert StandsAt(text[lo..hi], whole[from..end], i);
  }

  /** The part of a text between white space is still there, and between white space, in any longer text. */
  lemma StripGrows(c: Characters, before: string, text: string, after: string)
    ensures PartOf(Strip(c, text), Strip(c, before + text + after))
  {
    var whole := before + text + after;
    var lo, hi := Leading(c, text), |text| - Trailing(c, text);
    if lo >= hi {
      assert StandsAt("", Strip(c, whole), 0);
    } else {
      assert whole[|before| + lo] == text[lo] && whole[|before| + hi - 1] == text[hi - 1];
      hide Leading, Trailing, PartOf;
      StretchStands(before, text, after, lo, hi, Leading(c, whole), |whole| - Trailing(c, whole));
    }
  }

  lemma PartOfTransitive(a: string, b: string, d: string)
    requires PartOf(a, b) && PartOf(b, d)
    ensures PartOf(a, d)
  {
    var i :| 0 <= i <= |b| && StandsAt(a, b, i);
    var j :| 0 <= j <= |d| && StandsAt(b, d, j);
    Slices(d, j, |b|, i, |a|);
    assert StandsAt(a, d, j + i);
  }

  /** Writing more, before or after, never lowers the score. */
  lemma MoreTextNeverLowers(c: Characters, before: string, text: string, after: string)
    ensures AnswerScore(c, text) <= AnswerScore(c, before + text + after)
  {
    var s, w := Strip(c, text), Strip(c, before + text + after);
    StripGrows(c, before, text, after);
    hide Strip;
    var i :| 0 <= i <= |w| && StandsAt(s, w, i);
    if HasDigit(c, s) {
      var j :| 0 <= j < |s| && c.isDigit(s[j]);
      assert w[i + j] == s[j];
    }
    if HasConnective(s) {
      var k :| 0 <= k < |CONNECTIVES| && PartOf(CONNECTIVES[k], s);
      PartOfTransitive(CONNECTIVES[k], s, w);
    }
    hide PartOf, HasDigit, HasConnective;
  }

  function AnswerSum(c: Characters, answers: seq<string>): (sum: nat)
    ensures 50 * |answers| <= sum <= 100 * |answers|
  {
    if answers == [] then 0 else AnswerScore(c, answers[0]) + AnswerSum(c, answers[1..])
  }

  function SessionScore(c: Characters, answers: seq<string>): (r: Score)
    ensures answers != [] ==> r >= 50
  {
    if answers == [] then 0
    else
      RoundWithin(AnswerSum(c, answers), |answers|, 50, 100);
      RoundHalfEven(AnswerSum(c, answers), |answers|)
  }

  lemma {:induction false} SumAdds(c: Characters, a: seq<string>, b: seq<string>)
    ensures AnswerSum(c, a + b) == AnswerSum(c, a) + AnswerSum(c, b)
  {
    if a == [] {
      assert a + b == b;
    } else {
      assert (a + b)[1..] == a[1..] + b;
      SumAdds(c, a[1..], b);
    }
  }

  /** The sum takes every answer once, wherever it stands. */
  lemma SumTakes(c: Characters, a: seq<string>, i: nat)
    requires i < |a|
    ensures AnswerSum(c, a) == AnswerScore(c, a[i]) + AnswerSum(c, a[..i] + a[i + 1..])
  {
    assert a == a[..i] + ([a[i]] + a[i + 1..]);
    SumAdds(c, a[..i], [a[i]] + a[i + 1..]);
    SumAdds(c, [a[i]], a[i + 1..]);
    SumAdds(c, a[..i], a[i + 1..]);
    assert [a[i]][1..] == [];
  }

  lemma Without(a: seq<string>, i: nat)
    requires i < |a|
    ensures multiset(a[..i] + a[i + 1..]) == multiset(a) - multiset{a[i]}
  {
    assert a == a[..i] + [a[i]] + a[i + 1..];
  }

  lemma FirstElsewhere(a: seq<string>, b: seq<string>) returns (i: nat)
    requires a != [] && multiset(a) == multiset(b)
    ensures i < |b| && b[i] == a[0] && multiset(a[1..]) == multiset(b[..i] + b[i + 1..])
  {
    assert a[0] in multiset(a) && a[0] in b;
    i :| 0 <= i < |b| && b[i] == a[0];
    Without(a, 0);
    assert a[..0] + a[1..] == a[1..];
    Without(b, i);
  }

  lemma {:induction false} SumOfSame(c: Characters, a: seq<string>, b: seq<string>)
    requires multiset(a) == multiset(b)
    ensures AnswerSum(c, a) == AnswerSum(c, b) && |a| == |b|
  {
    hide AnswerScore;
    assert |multiset(a)| == |a| && |multiset(b)| == |b|;
    if a != [] {
      var i := FirstElsewhere(a, b);
      SumOfSame(c, a[1..], b[..i] + b[i + 1..]);
      SumTakes(c, b, i);
    }
  }

  /**
    The score of a session is the integer nearest to the mean of its answers' scores, ties to even, and it does
    not depend on their order. The sum in the mean is that of the scores, one by one.
   */
  lemma SessionScoreIsMean(c: Characters, answers: seq<string>, reordered: seq<string>)
    requires answers != [] && multiset(answers) == multiset(reordered)
    ensures var n, r := |answers|, SessionScore(c, answers);
      && -n <= 2 * (n * r - AnswerSum(c, answers)) <= n
      && (2 * (n * r - AnswerSum(c, answers)) == n || 2 * (n * r - AnswerSum(c, answers)) == -n ==> r % 2 == 0)
    ensures SessionScore(c, reordered) == SessionScore(c, answers)
    ensures forall i | 0 <= i < |answers| :: AnswerSum(c, answers) == AnswerScore(c, answers[i]) + AnswerSum(c, answers[..i] + answers[i + 1..])
  {
    SumOfSame(c, answers, reordered);
    forall i | 0 <= i < |answers| ensures AnswerSum(c, answers) == AnswerScore(c, answers[i]) + AnswerSum(c, answers[..i] + answers[i + 1..]) {
      SumTakes(c, answers, i);
    }
    hide AnswerScore, AnswerSum;
  }

  /** A rounded quotient stays between integers that bound the quotient. */
  lemma RoundWithin(n: int, d: int, low: int, high: int)
    requires d > 0 && low * d <= n <= high * d
    ensures low <= RoundHalfEven(n, d) <= high
  {
    var r := RoundHalfEven(n, d);
    if r < low {
      Steps(d, low, r);
    } else if r > high {
      Steps(d, r, high);
    }
  }

  // ---------- one session ----------

  function NextCompleteness(previous: int, completedBefore: nat, scored: int): int {
    RoundHalfEven(previous * completedBefore + scored, completedBefore + 1)
  }

  function NextSkipCompleteness(previous: int, completedSessions: nat, skippedBefore: nat): int {
    NextCompleteness(previous, completedSessions + skippedBefore, SKIP_SCORE)
  }

  lemma NextWithin(previous: int, count: nat, scored: int, low: int, high: int)
    requires low <= previous <= high && low <= scored <= high
    ensures low <= NextCompleteness(previous, count, scored) <= high
  {
    assert low * count <= previous * count <= high * count;
    assert low * (count + 1) == low * count + low && high * (count + 1) == high * count + high;
    RoundWithin(previous * count + scored, count + 1, low, high);
  }

  // ---------- a whole pact ----------

  datatype Session = Answered(score: Score) | Skipped

  datatype State = State(completeness: int, completed: nat, skipped: nat)

  const NEW: State := State(0, 0, 0)

  function Step(s: State, session: Session): State {
    match session
    case Answered(score) => State(NextCompleteness(s.completeness, s.completed, score), s.completed + 1, s.skipped)
    case Skipped => State(NextSkipCompleteness(s.completeness, s.completed, s.skipped), s.completed, s.skipped + 1)
  }

  function Run(sessions: seq<Session>): State {
    if sessions == [] then NEW else Step(Run(sessions[..|sessions| - 1]), sessions[|sessions| - 1])
  }

  function Points(session: Session): int {
    if session.Answered? then session.score else SKIP_SCORE
  }

  function Total(sessions: seq<Session>): int {
    if sessions == [] then 0 else Total(sessions[..|sessions| - 1]) + Points(sessions[|sessions| - 1])
  }

  lemma {:induction false} RunCounts(sessions: seq<Session>)
    ensures var s := Run(sessions);
      s.completed + s.skipped == |sessions| && (s.skipped > 0 <==> exists i :: 0 <= i < |sessions| && sessions[i].Skipped?)
  {
    if sessions != [] {
      RunCounts(sessions[..|sessions| - 1]);
    }
  }

  /**
    Completeness never leaves the range of the points that were given, in particular [0, 100]; a pact whose
    answers all score at least 70 and that skipped nothing has the completeness its completion asks for.
   */
  lemma {:induction false} CompletenessWithin(sessions: seq<Session>, low: int, high: int)
    requires sessions != []
    requires forall i | 0 <= i < |sessions| :: low <= Points(sessions[i]) <= high
    ensures low <= Run(sessions).completeness <= high
  {
    var before, last := sessions[..|sessions| - 1], sessions[|sessions| - 1];
    var s := Run(before);
    RunCounts(before);
    var count := if last.Answered? then s.completed else s.completed + s.skipped;
    if before != [] {
      assert forall i | 0 <= i < |before| :: before[i] == sessions[i];
      CompletenessWithin(before, low, high);
      NextWithin(s.completeness, count, Points(last), low, high);
    } else {
      OnlyScore(Points(last));
    }
  }

  lemma OnlyScore(scored: int)
    ensures NextCompleteness(0, 0, scored) == scored
  {
    RoundingIsUnique(scored, 1, scored);
  }

  predicate MeetsCompleteRule(s: State) {
    s.completed >= PACT_COMPLETE_SESSION_MIN && s.completeness >= PACT_COMPLETE_COMPLETENESS_MIN
  }

  /**
    Five or more sessions that all score at least 70 complete a pact; one in which no points above 69 were
    given is not complete, however many sessions it has.
   */
  lemma CompleteRule(sessions: seq<Session>)
    ensures |sessions| >= PACT_COMPLETE_SESSION_MIN
            && (forall i | 0 <= i < |sessions| :: sessions[i].Answered? && sessions[i].score >= PACT_COMPLETE_COMPLETENESS_MIN)
        ==> MeetsCompleteRule(Run(sessions))
    ensures sessions != [] && (forall i | 0 <= i < |sessions| :: Points(sessions[i]) < PACT_COMPLETE_COMPLETENESS_MIN)
        ==> !MeetsCompleteRule(Run(sessions))
  {
    hide Run;
    RunCounts(sessions);
    if sessions != [] && forall i | 0 <= i < |sessions| :: Points(sessions[i]) >= PACT_COMPLETE_COMPLETENESS_MIN {
      CompletenessWithin(sessions, PACT_COMPLETE_COMPLETENESS_MIN, 100);
    }
    if sessions != [] && forall i | 0 <= i < |sessions| :: Points(sessions[i]) < PACT_COMPLETE_COMPLETENESS_MIN {
      CompletenessWithin(sessions, 0, PACT_COMPLETE_COMPLETENESS_MIN - 1);
    }
  }

  /** Every answer comes before every skip. */
  predicate AnswersFirst(sessions: seq<Session>) {
    forall i, j | 0 <= i < j < |sessions| :: sessions[i].Skipped? ==> sessions[j].Skipped?
  }

  function Distance(a: int, b: int): nat {
    if a < b then b - a else a - b
  }

  // ---------- drift ----------

  /** How many of the earlier sessions a step weighs: a skip all of them, an answer only the answered ones. */
  function Weight(s: State, session: Session): nat {
    if session.Answered? then s.completed else s.completed + s.skipped
  }

  /** How far completeness can move in a step that weighs that many sessions. */
  function FarthestMove(weight: nat): nat {
    (100 + (weight + 1) / 2) / (weight + 1)
  }

  /** Half a step of rounding, and the farthest move once for each earlier session that is not weighed. */
  function Slack(sessions: seq<Session>): nat {
    if sessions == [] then 0
    else
      var before, last := sessions[..|sessions| - 1], sessions[|sessions| - 1];
      Slack(before) + StepSlack(Run(before), last)
  }

  function StepSlack(s: State, session: Session): nat {
    var w := Weight(s, session);
    (w + 1) / 2 + (s.completed + s.skipped - w) * FarthestMove(w)
  }

  /**
    Drift, for answers and skips in any order: completeness times the number of sessions is within the slack
    of the points given. Only answers after skips cost more than rounding.
   */
  lemma {:induction false} DriftWithin(sessions: seq<Session>)
    ensures Distance(|sessions| * Run(sessions).completeness, Total(sessions)) <= Slack(sessions)
  {
    hide *;
    if sessions == [] {
      NothingDrifts(sessions);
    } else {
      var before := sessions[..|sessions| - 1];
      DriftWithin(before);
      LastStep(sessions);
      StateBounds(before);
      StepDrifts(Run(before), sessions[|sessions| - 1], Total(before));
    }
  }

  lemma NothingDrifts(sessions: seq<Session>)
    requires sessions == []
    ensures Distance(|sessions| * Run(sessions).completeness, Total(sessions)) == 0 && Slack(sessions) == |sessions| * |sessions| / 4
  {
  }

  lemma LastStep(sessions: seq<Session>)
    requires sessions != []
    ensures var before, last := sessions[..|sessions| - 1], sessions[|sessions| - 1];
      && Run(sessions) == Step(Run(before), last) && Total(sessions) == Total(before) + Points(last)
      && Slack(sessions) == Slack(before) + StepSlack(Run(before), last)
      && |sessions| == |before| + 1
  {
    hide Step, StepSlack, Points;
  }

  lemma StateBounds(sessions: seq<Session>)
    ensures var s := Run(sessions); 0 <= s.completeness <= 100 && s.completed + s.skipped == |sessions|
  {
    RunCounts(sessions);
    if sessions != [] {
      CompletenessWithin(sessions, 0, 100);
    }
    hide Run;
  }

  lemma StepDrifts(s: State, session: Session, total: int)
    requires 0 <= s.completeness <= 100
    ensures var k := s.completed + s.skipped;
      Distance((k + 1) * Step(s, session).completeness, total + Points(session))
        <= Distance(k * s.completeness, total) + StepSlack(s, session)
  {
    hide RoundHalfEven, Distance, FarthestMove;
    var w := Weight(s, session);
    var next := Step(s, session).completeness;
    RoundedNear(s.completeness * w + Points(session), w + 1);
    assert next == RoundHalfEven(s.completeness * w + Points(session), w + 1);
    MoveDrifts(w, s.completed + s.skipped - w, s.completeness, next, Points(session), total);
  }

  lemma RoundedNear(n: int, d: int)
    requires d > 0
    ensures -d <= 2 * (d * RoundHalfEven(n, d) - n) <= d
  {
  }

  /** How far completeness moves, when w sessions are weighed. */
  lemma MoveIsShort(w: nat, now: int, next: int, points: int)
    requires 0 <= now <= 100 && 0 <= points <= 100
    requires -(w + 1) <= 2 * ((w + 1) * next - (now * w + points)) <= w + 1
    ensures next - now <= FarthestMove(w) && now - next <= FarthestMove(w)
  {
    var move := next - now;
    assert (w + 1) * next == (w + 1) * now + (w + 1) * move && (w + 1) * now == now * w + now;
    assert (w + 1) * -move == -((w + 1) * move);
    AtMost(w + 1, move, 100 + (w + 1) / 2);
    AtMost(w + 1, -move, 100 + (w + 1) / 2);
  }

  lemma DriftSplits(w: nat, more: nat, now: int, next: int, points: int, total: int)
    ensures (w + more + 1) * next - (total + points)
         == ((w + more) * now - total) + ((w + 1) * next - (now * w + points)) + more * (next - now)
  {
    assert (w + more + 1) * next == (w + 1) * next + more * next;
    assert more * next == more * now + more * (next - now);
    assert (w + more) * now == now * w + more * now;
  }

  lemma Bounded(more: nat, move: int, most: int)
    requires -most <= move <= most
    ensures -(more * most) <= more * move <= more * most
  {
    TimesMonotone(more, move, most);
    TimesMonotone(more, -move, most);
    assert more * -move == -(more * move);
  }

  lemma ThreeParts(a: int, b: int, rounded: int, moved: int, half: int, far: int)
    requires b == a + rounded + moved && -half <= rounded <= half && -far <= moved <= far
    ensures Distance(b, 0) <= Distance(a, 0) + half + far
  {
  }

  /** One step in numbers: w sessions are weighed and more are not. */
  lemma MoveDrifts(w: nat, more: nat, now: int, next: int, points: int, total: int)
    requires 0 <= now <= 100 && 0 <= points <= 100
    requires -(w + 1) <= 2 * ((w + 1) * next - (now * w + points)) <= w + 1
    ensures Distance((w + more + 1) * next, total + points)
         <= Distance((w + more) * now, total) + (w + 1) / 2 + more * FarthestMove(w)
  {
    MoveIsShort(w, now, next, points);
    hide FarthestMove;
    DriftSplits(w, more, now, next, points, total);
    Bounded(more, next - now, FarthestMove(w));
    var rounded, moved := (w + 1) * next - (now * w + points), more * (next - now);
    var was, will := (w + more) * now - total, (w + more + 1) * next - (total + points);
    ThreeParts(was, will, rounded, moved, (w + 1) / 2, more * FarthestMove(w));
  }

  lemma AtMost(d: int, x: int, b: int)
    requires d > 0
    ensures d * x <= b ==> x <= b / d
  {
    TimesMonotone(d, b / d + 1, x);
    assert d * (b / d + 1) == d * (b / d) + d;
  }

  /** With the answers before the skips the slack is that of rounding alone, a quarter of the square. */
  lemma {:induction false} OrderedSlack(sessions: seq<Session>)
    requires AnswersFirst(sessions)
    ensures Slack(sessions) == |sessions| * |sessions| / 4
  {
    hide *;
    if sessions == [] {
      NothingDrifts(sessions);
    } else {
      StillFirst(sessions);
      OrderedSlack(sessions[..|sessions| - 1]);
      LastStep(sessions);
      NoneLeftOut(sessions);
      HalfSquares(|sessions|);
    }
  }

  lemma StillFirst(sessions: seq<Session>)
    requires sessions != [] && AnswersFirst(sessions)
    ensures AnswersFirst(sessions[..|sessions| - 1])
  {
  }

  lemma NoneLeftOut(sessions: seq<Session>)
    requires sessions != [] && AnswersFirst(sessions)
    ensures StepSlack(Run(sessions[..|sessions| - 1]), sessions[|sessions| - 1]) == |sessions| / 2
  {
    hide *;
    WeighsAll(sessions);
    FullSlack(Run(sessions[..|sessions| - 1]), sessions[|sessions| - 1]);
  }

  lemma WeighsAll(sessions: seq<Session>)
    requires sessions != [] && AnswersFirst(sessions)
    ensures var s := Run(sessions[..|sessions| - 1]);
      s.completed + s.skipped == |sessions| - 1 == Weight(s, sessions[|sessions| - 1])
  {
    var before, last := sessions[..|sessions| - 1], sessions[|sessions| - 1];
    RunCounts(before);
    hide Run;
    if last.Answered? {
      forall i | 0 <= i < |before| ensures before[i].Answered? {
        assert before[i] == sessions[i];
      }
    }
  }

  lemma FullSlack(s: State, session: Session)
    requires Weight(s, session) == s.completed + s.skipped
    ensures StepSlack(s, session) == (s.completed + s.skipped + 1) / 2
  {
    hide FarthestMove;
  }

  /**
    So with the answers first, completeness times the number k of sessions is within k*k/4 of the points
    given. After seven sessions that is 12/7, less than two points off the true average.
   */
  lemma DriftIsBounded(sessions: seq<Session>)
    requires AnswersFirst(sessions)
    ensures Distance(|sessions| * Run(sessions).completeness, Total(sessions)) <= |sessions| * |sessions| / 4
  {
    hide *;
    DriftWithin(sessions);
    OrderedSlack(sessions);
  }

  lemma HalfSquares(k: int)
    requires k >= 1
    ensures k * k / 4 == (k - 1) * (k - 1) / 4 + k / 2
  {
    var h := k / 2;
    var q := h * h;
    if k % 2 == 0 {
      EvenSquares(h, k);
    } else {
      OddSquares(h, k);
    }
  }

  lemma EvenSquares(h: int, k: int)
    requires k == 2 * h
    ensures k * k == 4 * (h * h) && (k - 1) * (k - 1) == 4 * (h * h) - 4 * h + 1
  {
  }

  lemma OddSquares(h: int, k: int)
    requires k == 2 * h + 1
    ensures k * k == 4 * (h * h) + 4 * h + 1 && (k - 1) * (k - 1) == 4 * (h * h)
  {
  }

  /** Scores 0, 1, 1, 2, 2, 3, …: each is just too small to move a completeness of zero. */
  function Creeping(k: nat): seq<Session>
    requires k <= 200
  {
    seq(k, i requires 0 <= i < k => Answered((i + 1) / 2))
  }

  /** The bound cannot be lowered for any number of sessions: these scores reach it. */
  lemma {:induction false} DriftIsReached(k: nat)
    requires k <= 200
    ensures Run(Creeping(k)) == State(0, k, 0) && Total(Creeping(k)) == k * k / 4
  {
    if k > 0 {
      var sessions := Creeping(k);
      assert sessions[..k - 1] == Creeping(k - 1);
      DriftIsReached(k - 1);
      RoundingIsUnique(k / 2, k, 0);
      HalfSquares(k);
    }
  }

  // ---------- answers after a skip ----------

  /**
    A skip weighs the answers and the skips before it, an answer only the answers: after skips alone the
    first answer's score replaces everything, however many skips there were.
   */
  lemma AnswerForgetsSkips(skips: nat, score: Score)
    ensures Run(seq(skips, i => Skipped) + [Answered(score)]).completeness == score
    ensures Total(seq(skips, i => Skipped) + [Answered(score)]) == skips * SKIP_SCORE + score
  {
    var before := seq(skips, i => Skipped);
    var sessions := before + [Answered(score)];
    assert sessions[..|sessions| - 1] == before;
    OnlySkips(skips);
    assert Run(before).completeness * 0 + score == score;
    OnlyScore(score);
  }

  lemma {:induction false} OnlySkips(skips: nat)
    ensures Run(seq(skips, i => Skipped)).completed == 0
    ensures Total(seq(skips, i => Skipped)) == skips * SKIP_SCORE
  {
    if skips > 0 {
      var sessions := seq(skips, i => Skipped);
      assert sessions[..skips - 1] == seq(skips - 1, i => Skipped);
      OnlySkips(skips - 1);
    }
  }

  /**
    The average over all sessions is what an answer makes of the earlier completeness, for every score, if and
    only if no session was skipped before it. (A pact has at most one session a day for seven days.)
   */
  lemma AnswerAveragesAllIff(previous: Score, completed: nat, skipped: nat)
    requires completed <= 30
    ensures (forall score: Score :: NextCompleteness(previous, completed, score) == NextCompleteness(previous, completed + skipped, score))
       <==> skipped == 0
  {
    if skipped > 0 {
      var step := 3 * (completed + 1) / 2 + 1;
      var score := if previous <= 50 then previous + step else previous - step;
      WeightsDiffer(previous, completed, skipped, score - previous);
      assert NextCompleteness(previous, completed, score) != NextCompleteness(previous, completed + skipped, score);
    }
  }

  /** A score that moves the average by just over one and a half alone moves it by less with more weight on the past. */
  lemma WeightsDiffer(previous: int, completed: nat, skipped: nat, move: int)
    requires skipped > 0
    requires var step := 3 * (completed + 1) / 2 + 1; move == step || move == -step
    ensures NextCompleteness(previous, completed, previous + move) != NextCompleteness(previous, completed + skipped, previous + move)
  {
    var far := Moved(previous, completed, move);
    var near := Moved(previous, completed + skipped, move);
    var n, m := completed + 1, completed + skipped + 1;
    hide RoundHalfEven, NextCompleteness;
    if move > 0 {
      FarOrNear(n, m, far, near, n * far, m * near);
    } else {
      Negated(n, far);
      Negated(m, near);
      FarOrNear(n, m, -far, -near, -(n * far), -(m * near));
    }
  }

  lemma Negated(n: int, x: int)
    ensures n * -x == -(n * x)
  {
  }

  /** How far a score at a distance of move takes the completeness. */
  lemma Moved(previous: int, count: nat, move: int) returns (shift: int)
    ensures NextCompleteness(previous, count, previous + move) == previous + shift
    ensures -(count + 1) <= 2 * ((count + 1) * shift - move) <= count + 1
  {
    var n := count + 1;
    shift := NextCompleteness(previous, count, previous + move) - previous;
    assert previous * count + (previous + move) == previous * n + move;
    hide RoundHalfEven, NextCompleteness;
    assert n * (previous + shift) == n * previous + n * shift;
  }

  lemma FarOrNear(n: int, m: int, far: int, near: int, farther: int, nearer: int)
    requires 1 <= n < m && farther == n * far && nearer == m * near
    requires -n <= 2 * (farther - (3 * n / 2 + 1))
    requires 2 * (nearer - (3 * n / 2 + 1)) <= m
    ensures far >= 2 > near
  {
    TimesMonotone(n, far, 1);
    TimesMonotone(m, 2, near);
  }

  lemma TimesMonotone(n: int, a: int, b: int)
    ensures n > 0 && a <= b ==> n * a <= n * b
  {
  }

  /**
    What a skip does to completeness: it pulls it toward 50 and lowers it only from above, and only when the
    way down is more than half a session's share.
   */
  lemma SkipLowersIff(previous: Score, completed: nat, skipped: nat)
    ensures var n := completed + skipped + 1;
      var next := NextSkipCompleteness(previous, completed, skipped);
      && (previous <= SKIP_SCORE ==> previous <= next <= SKIP_SCORE)
      && (previous >= SKIP_SCORE ==> SKIP_SCORE <= next <= previous)
      && (next < previous <==>
           2 * (previous - SKIP_SCORE) > n || (2 * (previous - SKIP_SCORE) == n && previous % 2 == 1))
  {
    var count := completed + skipped;
    if previous <= SKIP_SCORE {
      NextWithin(previous, count, SKIP_SCORE, previous, SKIP_SCORE);
    } else {
      NextWithin(previous, count, SKIP_SCORE, SKIP_SCORE, previous);
      StaysIff(previous, count);
    }
  }

  lemma StaysIff(previous: int, count: nat)
    requires previous > SKIP_SCORE
    requires NextCompleteness(previous, count, SKIP_SCORE) <= previous
    ensures NextCompleteness(previous, count, SKIP_SCORE) == previous
       <==> 2 * (previous - SKIP_SCORE) < count + 1 || (2 * (previous - SKIP_SCORE) == count + 1 && previous % 2 == 0)
  {
    var n, total := count + 1, previous * count + SKIP_SCORE;
    assert n * previous - total == previous - SKIP_SCORE;
    if 2 * (previous - SKIP_SCORE) < n || (2 * (previous - SKIP_SCORE) == n && previous % 2 == 0) {
      RoundingIsUnique(total, n, previous);
    }
  }
}

/** The learning dashboard's derived values: duration labels, the average quiz score and the
    distribution of sessions over categories. The session list itself is never changed. */
module Results {
  import opened Common

  datatype SessionType = Summary | Flashcards | Quiz | Explanation

  datatype StudySession = StudySession(
    id: string,
    sessionType: SessionType,
    title: string,
    date: string,
    duration: int,
    score: Option<int>,
    totalQuestions: Option<int>,
    difficulty: Difficulty,
    category: string,
    completed: bool)

  // ---------------------------------------------------------------------------------------------
  // Duration labels

  lemma DigitsHaveNoLetter(s: string, c: char)
    requires AllDigits(s) && !IsDigit(c)
    ensures c !in s
  {
  }

  lemma IntStringHasNoLetter(i: int, c: char)
    requires !IsDigit(c) && c != '-'
    ensures c !in IntToString(i)
  {
    if i < 0 {
      DigitsHaveNoLetter(NatToString(-i), c);
      assert IntToString(i) == ['-'] + NatToString(-i);
    } else {
      DigitsHaveNoLetter(NatToString(i), c);
    }
  }

  /** `formatDuration`: whole minutes `Math.floor(seconds / 60)`, shown as "Xh Ym" once they make
      at least one hour and as "Ym" otherwise. The label mentions hours exactly when the duration
      is at least an hour. */
  function FormatDuration(seconds: int): (s: string)
    ensures |s| > 0 && s[|s| - 1] == 'm'
    ensures 'h' in s <==> seconds >= 3600
  {
    var minutes := seconds / 60;
    var hours := minutes / 60;
    if hours > 0 then
      var s := IntToString(hours) + "h " + IntToString(JsRem(minutes, 60)) + "m";
      assert s[|IntToString(hours)|] == 'h';
      s
    else
      IntStringHasNoLetter(minutes, 'h');
      IntToString(minutes) + "m"
  }

  /** In the hour branch the minutes shown are below 60 and, with the hours, add up to the whole
      minutes of the duration. */
  lemma HourBranchSplitsMinutes(seconds: int)
    requires seconds >= 3600
    ensures var minutes := seconds / 60;
            var shown := JsRem(minutes, 60);
            && 0 <= shown < 60
            && (minutes / 60) * 60 + shown == minutes
            && FormatDuration(seconds) == NatToString(minutes / 60) + "h " + NatToString(shown) + "m"
  {
  }

  /** The first position of c in s, or -1. */
  function IndexOf(s: string, c: char): (k: int)
    ensures -1 <= k < |s|
    ensures k == -1 <==> c !in s
    ensures k >= 0 ==> s[k] == c && c !in s[..k]
  {
    if s == [] then -1
    else if s[0] == c then 0
    else
      var k := IndexOf(s[1..], c);
      if k == -1 then -1
      else
        assert s[..k + 1] == [s[0]] + s[1..][..k];
        k + 1
  }

  lemma IndexOfAfterPrefix(p: string, c: char, rest: string)
    requires c !in p
    ensures IndexOf(p + [c] + rest, c) == |p|
  {
    var s := p + [c] + rest;
    assert s[|p|] == c;
  }

  predicate IsIntString(s: string) {
    |s| > 0 && (s[0] == '-' ==> AllDigits(s[1..])) && (s[0] != '-' ==> AllDigits(s))
  }

  /** Reads a duration label back as a number of whole minutes; None when it is not of the form
      "Ym" or "Xh Ym". */
  function ParseDuration(s: string): (r: Option<int>)
    ensures r.Some? ==> |s| > 0 && s[|s| - 1] == 'm'
  {
    if |s| == 0 || s[|s| - 1] != 'm' then None
    else
      var body := s[..|s| - 1];
      var k := IndexOf(body, 'h');
      if k == -1 then
        if IsIntString(body) then Some(ParseInt(body)) else None
      else if k + 1 < |body| && body[k + 1] == ' ' && IsIntString(body[..k]) && AllDigits(body[k + 2..]) then
        Some(ParseInt(body[..k]) * 60 + ParseNat(body[k + 2..]))
      else None
  }

  /** The label of a duration reads back as its whole minutes, so two durations get the same
      label exactly when they have the same whole minutes. */
  lemma {:induction false} ParseFormatDuration(seconds: int)
    ensures ParseDuration(FormatDuration(seconds)) == Some(seconds / 60)
  {
    var minutes := seconds / 60;
    var hours := minutes / 60;
    var s := FormatDuration(seconds);
    var body := s[..|s| - 1];
    if hours > 0 {
      var hs, ms := IntToString(hours), IntToString(JsRem(minutes, 60));
      assert body == hs + ['h'] + ([' '] + ms);
      IntStringHasNoLetter(hours, 'h');
      IndexOfAfterPrefix(hs, 'h', [' '] + ms);
      assert body[..|hs|] == hs;
      assert body[|hs| + 2..] == ms;
      ParseIntToString(hours);
      ParseNatToString(JsRem(minutes, 60));
    } else {
      assert body == IntToString(minutes);
      IntStringHasNoLetter(minutes, 'h');
      ParseIntToString(minutes);
    }
  }

  lemma FormatDurationSameMinutes(a: int, b: int)
    ensures FormatDuration(a) == FormatDuration(b) <==> a / 60 == b / 60
  {
    ParseFormatDuration(a);
    ParseFormatDuration(b);
  }

  // ---------------------------------------------------------------------------------------------
  // Average quiz score

  predicate IsScoredQuiz(s: StudySession) {
    s.sessionType == Quiz && s.score.Some?
  }

  /** `quizSessions`: the quiz sessions that carry a score, in their original order. */
  function QuizSessions(sessions: seq<StudySession>): (qs: seq<StudySession>)
    ensures |qs| <= |sessions|
    ensures forall x :: x in qs ==> x in sessions && IsScoredQuiz(x)
    ensures forall x :: x in sessions && IsScoredQuiz(x) ==> x in qs
  {
    if sessions == [] then []
    else if IsScoredQuiz(sessions[0]) then [sessions[0]] + QuizSessions(sessions[1..])
    else QuizSessions(sessions[1..])
  }

  /** Filtering distributes over concatenation: the kept sessions keep their relative order. */
  lemma {:induction false} QuizSessionsAppend(a: seq<StudySession>, b: seq<StudySession>)
    ensures QuizSessions(a + b) == QuizSessions(a) + QuizSessions(b)
  {
    if a != [] {
      assert (a + b)[1..] == a[1..] + b;
      QuizSessionsAppend(a[1..], b);
    } else {
      assert a + b == b;
    }
  }

  /** `s.score || 0`. */
  function ScoreOrZero(s: StudySession): int {
    if s.score.Some? then s.score.value else 0
  }

  /** The `reduce` of the scores. */
  function ScoreSum(qs: seq<StudySession>): int {
    if qs == [] then 0 else ScoreOrZero(qs[0]) + ScoreSum(qs[1..])
  }

  lemma {:induction false} ScoreSumBounds(qs: seq<StudySession>, lo: int, hi: int)
    requires forall k :: 0 <= k < |qs| ==> lo <= ScoreOrZero(qs[k]) <= hi
    ensures |qs| * lo <= ScoreSum(qs) <= |qs| * hi
  {
    if qs != [] {
      ScoreSumBounds(qs[1..], lo, hi);
      assert |qs| * lo == (|qs| - 1) * lo + lo;
      assert |qs| * hi == (|qs| - 1) * hi + hi;
    }
  }

  predicate ScoresArePercentages(sessions: seq<StudySession>) {
    forall k :: 0 <= k < |sessions| && sessions[k].score.Some? ==> 0 <= sessions[k].score.value <= 100
  }

  /** `averageQuizScore`: 0 without scored quizzes, otherwise the rounded mean of their scores,
      which stays a percentage when every score is one. */
  function AverageQuizScore(sessions: seq<StudySession>): (avg: int)
    ensures QuizSessions(sessions) == [] ==> avg == 0
    ensures ScoresArePercentages(sessions) ==> 0 <= avg <= 100
  {
    var qs := QuizSessions(sessions);
    if |qs| > 0 then
      AverageBounds(sessions);
      RoundDiv(ScoreSum(qs), |qs|)
    else 0
  }

  lemma AverageBounds(sessions: seq<StudySession>)
    requires QuizSessions(sessions) != []
    ensures var qs := QuizSessions(sessions);
            ScoresArePercentages(sessions) ==> 0 <= RoundDiv(ScoreSum(qs), |qs|) <= 100
  {
    var qs := QuizSessions(sessions);
    if ScoresArePercentages(sessions) {
      forall k | 0 <= k < |qs| ensures 0 <= ScoreOrZero(qs[k]) <= 100 {
        assert qs[k] in sessions;
      }
      ScoreSumBounds(qs, 0, 100);
      RoundDivBetween(ScoreSum(qs), |qs|, 0, 100);
    }
  }

  /** When every scored quiz has the same score v, the average is v. */
  lemma AverageOfEqualScores(sessions: seq<StudySession>, v: int)
    requires QuizSessions(sessions) != []
    requires forall k :: 0 <= k < |sessions| && IsScoredQuiz(sessions[k]) ==> sessions[k].score.value == v
    ensures AverageQuizScore(sessions) == v
  {
    var qs := QuizSessions(sessions);
    forall k | 0 <= k < |qs| ensures ScoreOrZero(qs[k]) == v {
      assert qs[k] in sessions;
      var j :| 0 <= j < |sessions| && sessions[j] == qs[k];
    }
    EqualScoresSum(qs, v);
    RoundDivExact(v, |qs|);
  }

  lemma {:induction false} EqualScoresSum(qs: seq<StudySession>, v: int)
    requires forall k :: 0 <= k < |qs| ==> ScoreOrZero(qs[k]) == v
    ensures ScoreSum(qs) == v * |qs|
  {
    if qs != [] {
      EqualScoresSum(qs[1..], v);
      assert v * |qs| == v * (|qs| - 1) + v;
    }
  }

  // ---------------------------------------------------------------------------------------------
  // Categories

  /** The position at which a value first occurs. */
  function FirstIndex(xs: seq<string>, x: string): (k: nat)
    requires x in xs
    ensures k < |xs| && xs[k] == x && x !in xs[..k]
  {
    if xs[0] == x then 0
    else
      var k := 1 + FirstIndex(xs[1..], x);
      assert xs[..k] == [xs[0]] + xs[1..][..k - 1];
      k
  }

  /** Any position holding the value with no earlier occurrence is the first one. */
  lemma FirstIndexIs(xs: seq<string>, x: string, k: nat)
    requires k < |xs| && xs[k] == x && x !in xs[..k]
    ensures FirstIndex(xs, x) == k
  {
    var m := FirstIndex(xs, x);
    assert forall i :: 0 <= i < k ==> xs[..k][i] == xs[i];
    assert forall i :: 0 <= i < m ==> xs[..m][i] == xs[i];
  }

  /** Appending a value moves no first occurrence, and a new value first occurs at the end. */
  lemma FirstIndexSnoc(init: seq<string>, last: string)
    ensures forall y :: y in init ==> FirstIndex(init + [last], y) == FirstIndex(init, y)
    ensures last !in init ==> FirstIndex(init + [last], last) == |init|
  {
    var xs := init + [last];
    forall y | y in init ensures FirstIndex(xs, y) == FirstIndex(init, y) {
      var k := FirstIndex(init, y);
      assert xs[..k] == init[..k];
      FirstIndexIs(xs, y, k);
    }
    if last !in init {
      assert xs[..|init|] == init;
      FirstIndexIs(xs, last, |init|);
    }
  }

  /** `Array.from(new Set(xs))`: each value once, in order of first appearance. */
  function Dedup(xs: seq<string>): (d: seq<string>)
    ensures forall i, j :: 0 <= i < j < |d| ==> d[i] != d[j]
    ensures forall x :: x in d <==> x in xs
    ensures forall i, j :: 0 <= i < j < |d| ==> FirstIndex(xs, d[i]) < FirstIndex(xs, d[j])
  {
    if xs == [] then []
    else
      var init := xs[..|xs| - 1];
      var last := xs[|xs| - 1];
      var d := Dedup(init);
      assert xs == init + [last];
      FirstIndexSnoc(init, last);
      if last in d then d else d + [last]
  }

  function CategoryNames(sessions: seq<StudySession>): (names: seq<string>)
    ensures |names| == |sessions|
    ensures forall k :: 0 <= k < |sessions| ==> names[k] == sessions[k].category
  {
    seq(|sessions|, k requires 0 <= k < |sessions| => sessions[k].category)
  }

  /** The categories listed on the dashboard: every session's category, each exactly once. */
  function Categories(sessions: seq<StudySession>): (cs: seq<string>)
    ensures forall i, j :: 0 <= i < j < |cs| ==> cs[i] != cs[j]
    ensures forall k :: 0 <= k < |sessions| ==> sessions[k].category in cs
    ensures forall c :: c in cs ==> exists k :: 0 <= k < |sessions| && sessions[k].category == c
  {
    var names := CategoryNames(sessions);
    var cs := Dedup(names);
    assert forall k :: 0 <= k < |sessions| ==> names[k] in names;
    cs
  }

  /** `sessions.filter((s) => s.category === category).length`. */
  function CategoryCount(sessions: seq<StudySession>, c: string): (n: nat)
    ensures n <= |sessions|
    ensures n == 0 <==> forall k :: 0 <= k < |sessions| ==> sessions[k].category != c
    ensures n == |sessions| <==> forall k :: 0 <= k < |sessions| ==> sessions[k].category == c
  {
    if sessions == [] then 0
    else CategoryCount(sessions[..|sessions| - 1], c) + (if sessions[|sessions| - 1].category == c then 1 else 0)
  }

  /** The count and the rounded percentage shown for one category. */
  function CategoryShare(sessions: seq<StudySession>, c: string): (share: (nat, int))
    requires |sessions| > 0
    ensures share.0 <= |sessions| && 0 <= share.1 <= 100
    ensures share.0 == |sessions| ==> share.1 == 100
    ensures share.0 == 0 ==> share.1 == 0
    ensures share.0 == CategoryCount(sessions, c)
    ensures (forall k :: 0 <= k < |sessions| ==> sessions[k].category == c) ==> share.1 == 100
    ensures (forall k :: 0 <= k < |sessions| ==> sessions[k].category != c) ==> share.1 == 0
  {
    var n := CategoryCount(sessions, c);
    (n, Percentage(n, |sessions|))
  }

  function SumCounts(sessions: seq<StudySession>, cs: seq<string>): nat {
    if cs == [] then 0 else CategoryCount(sessions, cs[0]) + SumCounts(sessions, cs[1..])
  }

  function Occurrences(cs: seq<string>, x: string): nat {
    if cs == [] then 0 else (if cs[0] == x then 1 else 0) + Occurrences(cs[1..], x)
  }

  lemma {:induction false} SumCountsEmpty(cs: seq<string>)
    ensures SumCounts([], cs) == 0
  {
    if cs != [] {
      SumCountsEmpty(cs[1..]);
    }
  }

  lemma {:induction false} SumCountsSnoc(init: seq<StudySession>, s: StudySession, cs: seq<string>)
    ensures SumCounts(init + [s], cs) == SumCounts(init, cs) + Occurrences(cs, s.category)
  {
    if cs != [] {
      SumCountsSnoc(init, s, cs[1..]);
      assert (init + [s])[..|init|] == init;
    }
  }

  lemma {:induction false} OccursOnce(cs: seq<string>, x: string)
    requires forall i, j :: 0 <= i < j < |cs| ==> cs[i] != cs[j]
    requires x in cs
    ensures Occurrences(cs, x) == 1
  {
    if cs[0] == x {
      OccursNever(cs[1..], x);
    } else {
      OccursOnce(cs[1..], x);
    }
  }

  lemma {:induction false} OccursNever(cs: seq<string>, x: string)
    requires x !in cs
    ensures Occurrences(cs, x) == 0
  {
    if cs != [] {
      OccursNever(cs[1..], x);
    }
  }

  /** Over a duplicate-free list that covers every session's category, the counts add up to the
      number of sessions. */
  lemma {:induction false} SumCountsCover(sessions: seq<StudySession>, cs: seq<string>)
    requires forall i, j :: 0 <= i < j < |cs| ==> cs[i] != cs[j]
    requires forall k :: 0 <= k < |sessions| ==> sessions[k].category in cs
    ensures SumCounts(sessions, cs) == |sessions|
  {
    if sessions == [] {
      SumCountsEmpty(cs);
    } else {
      var init := sessions[..|sessions| - 1];
      var last := sessions[|sessions| - 1];
      assert sessions == init + [last];
      SumCountsCover(init, cs);
      SumCountsSnoc(init, last, cs);
      OccursOnce(cs, last.category);
    }
  }

  /** The per-category counts on the dashboard add up to the number of sessions. */
  lemma CategoryCountsSum(sessions: seq<StudySession>)
    ensures SumCounts(sessions, Categories(sessions)) == |sessions|
  {
    SumCountsCover(sessions, Categories(sessions));
  }
}

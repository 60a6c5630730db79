/**
 The dashboard arithmetic: each statistic compares a reporting period with
 the period of the same length just before it, and reports whole-number
 percentages rounded the way JavaScript's `Math.round` does. Times are
 integer milliseconds; ratios are exact rationals.
 */
module Analytics {
  import opened Wrappers
  import Collections

  /** A closed interval of instants, `start <= t <= end`, as the `gte`/`lte` filters select. */
  datatype Period = Period(start: int, end: int)

  predicate InPeriod(p: Period, t: int) {
    p.start <= t <= p.end
  }

  /**
   `getPreviousPeriod`: starts one duration before the current start and
   ends one millisecond before it.
   */
  function PreviousPeriod(p: Period): (q: Period)
    ensures q.end + 1 == p.start
    ensures p.start - q.start == p.end - p.start
  {
    var duration := p.end - p.start;
    Period(p.start - duration, p.start - 1)
  }

  /**
   The two periods never overlap and leave no gap: an instant is in one of
   them exactly when it lies between the previous start and the current end.
   */
  lemma PeriodsTile(p: Period, t: int)
    ensures !(InPeriod(PreviousPeriod(p), t) && InPeriod(p, t))
    ensures InPeriod(PreviousPeriod(p), t) || InPeriod(p, t) <==> PreviousPeriod(p).start <= t <= p.end
  {
  }

  /** `Math.round`: the nearest integer, halves rounded up. */
  function Round(x: real): (r: int)
    ensures r as real - 0.5 <= x < r as real + 0.5
  {
    (x + 0.5).Floor
  }

  /** Rounding is monotone. */
  lemma RoundMonotone(x: real, y: real)
    requires x <= y
    ensures Round(x) <= Round(y)
  {
  }

  /** A value already whole is its own rounding. */
  lemma RoundWhole(n: int)
    ensures Round(n as real) == n
  {
  }

  /** `calculatePercentageChange`: 0 against an empty previous period, else the rounded relative change. */
  function PercentageChange(current: nat, previous: nat): (r: int)
    ensures previous == 0 ==> r == 0
    ensures previous > 0 ==>
      r as real - 0.5 <= (current as real - previous as real) / previous as real * 100.0 < r as real + 0.5
  {
    if previous == 0 then 0
    else Round((current as real - previous as real) / previous as real * 100.0)
  }

  /** The change follows the direction of the counts, and is never below -100. */
  lemma PercentageChangeSign(current: nat, previous: nat)
    requires previous > 0
    ensures current == previous ==> PercentageChange(current, previous) == 0
    ensures current > previous ==> PercentageChange(current, previous) >= 0
    ensures current < previous ==> PercentageChange(current, previous) <= 0
    ensures PercentageChange(current, previous) >= -100
  {
    var x := (current as real - previous as real) / previous as real * 100.0;
    assert x >= -100.0 by {
      assert (current as real - previous as real) / previous as real >= -1.0;
    }
    if current > previous {
      assert x > 0.0;
    } else if current < previous {
      assert x < 0.0;
    }
  }

  /** A whole-number percentage of `part` in `whole`, rounded; 0 when `whole` is 0. */
  function RoundedShare(part: nat, whole: nat): (r: int)
    ensures whole == 0 ==> r == 0
    ensures whole > 0 ==> r as real - 0.5 <= part as real / whole as real * 100.0 < r as real + 0.5
  {
    if whole == 0 then 0 else Round(part as real / whole as real * 100.0)
  }

  /** An online test whose `finishedAt` is set, as the `filter((test) => test.finishedAt)` keeps it. */
  predicate Finished(finishedAt: Option<int>) {
    finishedAt.Some?
  }

  /** The number of online tests in the period that have finished. */
  function Completed(finishedAt: seq<Option<int>>): (n: nat)
    ensures n == Collections.Count(finishedAt, Finished)
    ensures n == |Collections.Filter(finishedAt, Finished)|
  {
    Collections.FilterLength(finishedAt, Finished);
    if finishedAt == [] then 0
    else (if finishedAt[0].Some? then 1 else 0) + Completed(finishedAt[1..])
  }

  /**
   The completion rate of the online tests started in a period, given the
   finish time of each (`None` while unfinished): the rounded share of
   finished ones, 0 for an empty period.
   */
  function CompletionRate(finishedAt: seq<Option<int>>): (r: int)
    ensures finishedAt != [] ==>
      var share := Collections.Count(finishedAt, Finished) as real / |finishedAt| as real * 100.0;
      r as real - 0.5 <= share < r as real + 0.5
    ensures 0 <= r <= 100
    ensures finishedAt == [] ==> r == 0
    ensures finishedAt != [] && (forall i :: 0 <= i < |finishedAt| ==> finishedAt[i].Some?) ==> r == 100
    ensures (forall i :: 0 <= i < |finishedAt| ==> finishedAt[i].None?) ==> r == 0
  {
    var whole := |finishedAt|;
    var part := Completed(finishedAt);
    if whole == 0 then RoundedShare(part, whole)
    else
      ShareBounds(part, whole);
      AllOrNoneFinished(finishedAt);
      RoundedShare(part, whole)
  }

  /** Every test finished gives a full count, none finished an empty one. */
  lemma AllOrNoneFinished(finishedAt: seq<Option<int>>)
    ensures (forall i :: 0 <= i < |finishedAt| ==> finishedAt[i].Some?) ==> Completed(finishedAt) == |finishedAt|
    ensures (forall i :: 0 <= i < |finishedAt| ==> finishedAt[i].None?) ==> Completed(finishedAt) == 0
  {
    assert forall i :: 0 <= i < |finishedAt| ==> (Finished(finishedAt[i]) <==> finishedAt[i].Some?);
  }

  lemma ShareBounds(part: nat, whole: nat)
    requires part <= whole && whole > 0
    ensures 0 <= RoundedShare(part, whole) <= 100
    ensures part == whole ==> RoundedShare(part, whole) == 100
    ensures part == 0 ==> RoundedShare(part, whole) == 0
  {
    var x := part as real / whole as real * 100.0;
    assert 0.0 <= x <= 100.0 by {
      assert part as real / whole as real <= 1.0;
    }
    if part == whole {
      var w := whole as real;
      assert w > 0.0;
      assert w / w == 1.0;
      assert x == 100.0;
    }
    RoundMonotone(0.0, x);
    RoundMonotone(x, 100.0);
    RoundWhole(0);
    RoundWhole(100);
  }

  /**
   The change reported for a rate or an average: the difference in points,
   forced to 0 when the previous value is 0.
   */
  function PointsChange(current: int, previous: int): (r: int)
    ensures previous == 0 ==> r == 0
    ensures previous != 0 ==> previous + r == current
  {
    if previous != 0 then current - previous else 0
  }

  // ----- stored results -----

  /** A JSON value as the database returns it. Objects keep their key order. */
  datatype Json =
    | Null
    | Bool(b: bool)
    | Num(n: real)
    | Str(s: string)
    | Arr(items: seq<Json>)
    | Obj(fields: seq<(string, Json)>)

  /** JavaScript truthiness of a JSON value. */
  predicate Truthy(v: Json) {
    match v
    case Null => false
    case Bool(b) => b
    case Num(n) => n != 0.0
    case Str(s) => s != ""
    case _ => true
  }

  /** `typeof v === 'object' && v !== null`: objects and arrays. */
  predicate IsObject(v: Json) {
    v.Arr? || v.Obj?
  }

  /** `key in v` for an object's own keys; an array has only index keys. */
  predicate HasKey(v: Json, key: string) {
    v.Obj? && exists i :: 0 <= i < |v.fields| && v.fields[i].0 == key
  }

  function Field(fields: seq<(string, Json)>, key: string): (r: Option<Json>)
    ensures r.Some? <==> exists i :: 0 <= i < |fields| && fields[i].0 == key
  {
    if fields == [] then None
    else if fields[0].0 == key then Some(fields[0].1)
    else Field(fields[1..], key)
  }

  /** `Object.values(v)`. */
  function Values(v: Json): (r: seq<Json>)
    requires IsObject(v)
    ensures v.Arr? ==> r == v.items
    ensures v.Obj? ==> |r| == |v.fields| && forall i :: 0 <= i < |r| ==> r[i] == v.fields[i].1
  {
    if v.Arr? then v.items else seq(|v.fields|, i requires 0 <= i < |v.fields| => v.fields[i].1)
  }

  /**
   A parsed value `parseResults` accepts: a truthy object with `results`
   and `lastUpdated` keys and an object under `results`.
   */
  predicate StoredResults(p: Json) {
    && Truthy(p) && HasKey(p, "results") && HasKey(p, "lastUpdated")
    && IsObject(Field(p.fields, "results").value)
  }

  /** What `parseResults` sees after the optional `JSON.parse`. */
  function Parsed(v: Json, parse: string -> Option<Json>): Option<Json> {
    if v.Str? then parse(v.s) else Some(v)
  }

  /**
   `parseResults`: a falsy value is no result; a string goes through
   `JSON.parse`, whose outcome `parse` supplies (`None` when it throws); the
   value must be an object with `results` and `lastUpdated` keys and an
   object under `results`. The result is that inner object.
   */
  function ParseResults(v: Json, parse: string -> Option<Json>): (r: Option<Json>)
    ensures r.Some? ==> IsObject(r.value)
    ensures r.Some? ==> Truthy(v)
    ensures r.Some? && !v.Str? ==> HasKey(v, "results") && HasKey(v, "lastUpdated") && Field(v.fields, "results") == r
    ensures !Truthy(v) ==> r.None?
    ensures r.Some? <==> Truthy(v) && Parsed(v, parse).Some? && StoredResults(Parsed(v, parse).value)
    ensures r.Some? ==> r == Some(Field(Parsed(v, parse).value.fields, "results").value)
  {
    if !Truthy(v) then None
    else
      var parsed := Parsed(v, parse);
      if parsed.None? || !Truthy(parsed.value) || !IsObject(parsed.value) then None
      else if !HasKey(parsed.value, "results") || !HasKey(parsed.value, "lastUpdated") then None
      else
        var inner := Field(parsed.value.fields, "results").value;
        if !IsObject(inner) then None else Some(inner)
  }

  /**
   `calculateParticipantScore` on a stored participant result: no score when
   it has no questions, otherwise the percentage answered correctly.
   */
  function ScoreOf(entry: Json): (r: Option<real>)
    ensures r.Some? <==>
      && entry.Obj?
      && Field(entry.fields, "totalQuestions").Some? && Field(entry.fields, "totalQuestions").value.Num?
      && Field(entry.fields, "correctAnswersCount").Some? && Field(entry.fields, "correctAnswersCount").value.Num?
      && Field(entry.fields, "totalQuestions").value.n != 0.0
    ensures r.Some? ==>
      && entry.Obj?
      && Field(entry.fields, "totalQuestions").Some? && Field(entry.fields, "totalQuestions").value.Num?
      && Field(entry.fields, "correctAnswersCount").Some? && Field(entry.fields, "correctAnswersCount").value.Num?
      && var total := Field(entry.fields, "totalQuestions").value.n;
      && var correct := Field(entry.fields, "correctAnswersCount").value.n;
      && total != 0.0 && r.value * total == correct * 100.0
  {
    if !entry.Obj? then None
    else match (Field(entry.fields, "correctAnswersCount"), Field(entry.fields, "totalQuestions"))
      case (Some(Num(correct)), Some(Num(total))) =>
        if total == 0.0 then None else Some(correct / total * 100.0)
      case _ => None
  }

  /** A score lies between 0 and 100 when the correct count lies between 0 and the total. */
  lemma ScoreBounds(correct: real, total: real)
    requires 0.0 <= correct <= total && total != 0.0
    ensures var r := ScoreOf(Obj([("correctAnswersCount", Num(correct)), ("totalQuestions", Num(total))]));
      r.Some? && 0.0 <= r.value <= 100.0
  {
    var e := Obj([("correctAnswersCount", Num(correct)), ("totalQuestions", Num(total))]);
    assert Field(e.fields, "correctAnswersCount") == Some(Num(correct));
    assert Field(e.fields, "totalQuestions") == Some(Num(total));
    assert correct / total <= 1.0;
  }

  function Sum(xs: seq<real>): real {
    if xs == [] then 0.0 else xs[0] + Sum(xs[1..])
  }

  /** A participant result that yields a score. */
  predicate HasScore(entry: Json) {
    ScoreOf(entry).Some?
  }

  /** The values a test contributes: one score per participant that has one, in the participants' order. */
  function Scores(entries: seq<Json>): (r: seq<real>)
    ensures |r| == Collections.Count(entries, HasScore)
    ensures |entries| == 1 ==> r == if HasScore(entries[0]) then [ScoreOf(entries[0]).value] else []
  {
    if entries == [] then []
    else (if HasScore(entries[0]) then [ScoreOf(entries[0]).value] else []) + Scores(entries[1..])
  }

  /** One participant ahead of the rest contributes their score, if any, ahead of theirs. */
  lemma ScoresCons(x: Json, rest: seq<Json>)
    ensures Scores([x] + rest) == (if HasScore(x) then [ScoreOf(x).value] else []) + Scores(rest)
  {
    assert ([x] + rest)[0] == x && ([x] + rest)[1..] == rest;
  }

  /** Scoring keeps the participants' order: it distributes over concatenation. */
  lemma {:induction false} ScoresAppend(a: seq<Json>, b: seq<Json>)
    ensures Scores(a + b) == Scores(a) + Scores(b)
  {
    if a != [] {
      assert a == [a[0]] + a[1..];
      assert a + b == [a[0]] + (a[1..] + b);
      ScoresCons(a[0], a[1..] + b);
      ScoresCons(a[0], a[1..]);
      ScoresAppend(a[1..], b);
      Collections.AppendAssoc(if HasScore(a[0]) then [ScoreOf(a[0]).value] else [], Scores(a[1..]), Scores(b));
    } else {
      assert a + b == b;
    }
  }

  /**
   The mean score of one test's participants, or none when the results do
   not parse or no participant has a score.
   */
  function TestScore(results: Json, parse: string -> Option<Json>): (r: Option<real>)
    ensures r.Some? <==>
      ParseResults(results, parse).Some? && Scores(Values(ParseResults(results, parse).value)) != []
    ensures r.Some? ==>
      var scores := Scores(Values(ParseResults(results, parse).value));
      r.value == Sum(scores) / |scores| as real
  {
    var parsed := ParseResults(results, parse);
    if parsed.None? then None
    else
      var scores := Scores(Values(parsed.value));
      if scores == [] then None
      else
        Some(Sum(scores) / |scores| as real)
  }

  /** A test whose stored results give it a mean. */
  function HasMean(parse: string -> Option<Json>): Json -> bool {
    (results: Json) => TestScore(results, parse).Some?
  }

  /** The test means of the tests finished in a period, tests without one dropped, in the tests' order. */
  function TestScores(tests: seq<Json>, parse: string -> Option<Json>): (r: seq<real>)
    ensures |r| == Collections.Count(tests, HasMean(parse))
    ensures |tests| == 1 ==> r == if TestScore(tests[0], parse).Some? then [TestScore(tests[0], parse).value] else []
  {
    if tests == [] then []
    else MeanOf(tests[0], parse) + TestScores(tests[1..], parse)
  }

  /** The mean a test contributes, as a list of at most one value. */
  function MeanOf(results: Json, parse: string -> Option<Json>): (r: seq<real>)
    ensures |r| == if HasMean(parse)(results) then 1 else 0
  {
    if HasMean(parse)(results) then [TestScore(results, parse).value] else []
  }

  /** One test ahead of the rest contributes its mean ahead of theirs. */
  lemma TestScoresCons(x: Json, rest: seq<Json>, parse: string -> Option<Json>)
    ensures TestScores([x] + rest, parse) == MeanOf(x, parse) + TestScores(rest, parse)
  {
    assert ([x] + rest)[0] == x && ([x] + rest)[1..] == rest;
  }

  /** Averaging keeps the tests' order: the means distribute over concatenation. */
  lemma {:induction false} TestScoresAppend(a: seq<Json>, b: seq<Json>, parse: string -> Option<Json>)
    ensures TestScores(a + b, parse) == TestScores(a, parse) + TestScores(b, parse)
  {
    if a != [] {
      assert a == [a[0]] + a[1..];
      assert a + b == [a[0]] + (a[1..] + b);
      TestScoresCons(a[0], a[1..] + b, parse);
      TestScoresCons(a[0], a[1..], parse);
      TestScoresAppend(a[1..], b, parse);
      Collections.AppendAssoc(MeanOf(a[0], parse), TestScores(a[1..], parse), TestScores(b, parse));
    } else {
      assert a + b == b;
    }
  }

  /** `calculateAverage`: the rounded mean of the test means, 0 when there are none. */
  function CalculateAverage(tests: seq<Json>, parse: string -> Option<Json>): (r: int)
    ensures TestScores(tests, parse) == [] ==> r == 0
    ensures TestScores(tests, parse) != [] ==>
      var scores := TestScores(tests, parse);
      r as real - 0.5 <= Sum(scores) / |scores| as real < r as real + 0.5
  {
    var scores := TestScores(tests, parse);
    if scores == [] then 0 else Round(Sum(scores) / |scores| as real)
  }

  /** Values within bounds have a sum within the matching bounds. */
  lemma {:induction false} SumBounds(xs: seq<real>, lo: real, hi: real)
    requires forall i :: 0 <= i < |xs| ==> lo <= xs[i] <= hi
    ensures |xs| as real * lo <= Sum(xs) <= |xs| as real * hi
  {
    if xs != [] {
      SumBounds(xs[1..], lo, hi);
    }
  }

  /** The mean of values between 0 and 100 lies between 0 and 100, and so does its rounding. */
  lemma MeanBounds(xs: seq<real>)
    requires xs != []
    requires forall i :: 0 <= i < |xs| ==> 0.0 <= xs[i] <= 100.0
    ensures 0.0 <= Sum(xs) / |xs| as real <= 100.0
    ensures 0 <= Round(Sum(xs) / |xs| as real) <= 100
  {
    SumBounds(xs, 0.0, 100.0);
    var m := Sum(xs) / |xs| as real;
    QuotientBounds(Sum(xs), |xs| as real);
    RoundWithin(m);
  }

  lemma QuotientBounds(total: real, n: real)
    requires n > 0.0 && 0.0 <= total <= n * 100.0
    ensures 0.0 <= total / n <= 100.0
  {
    assert (total / n) * n == total;
  }

  lemma RoundWithin(m: real)
    requires 0.0 <= m <= 100.0
    ensures 0 <= Round(m) <= 100
  {
    RoundMonotone(0.0, m);
    RoundMonotone(m, 100.0);
    RoundWhole(0);
    RoundWhole(100);
  }

  /** An average over tests whose means lie between 0 and 100 is itself between 0 and 100. */
  lemma AverageBounds(tests: seq<Json>, parse: string -> Option<Json>)
    requires forall i :: 0 <= i < |TestScores(tests, parse)| ==> 0.0 <= TestScores(tests, parse)[i] <= 100.0
    ensures 0 <= CalculateAverage(tests, parse) <= 100
  {
    if TestScores(tests, parse) != [] {
      MeanBounds(TestScores(tests, parse));
    }
  }
}

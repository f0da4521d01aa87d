/**
 * The values the practice engine works with: facts, the per-fact mastery
 * record a player keeps between sessions, the session-scoped cards built
 * from them, and the attempt records a session logs.
 */
module Cards {
  import opened Wrappers

  /** A multiplication fact `a × b`; the store keys it by the string "a|b". */
  datatype Fact = Fact(a: int, b: int)

  /** How a session was requested: one table, or the whole 10×10 grid. */
  datatype Mode = Single | Mixed

  /** The mastery record kept per fact: current streak and lifetime misses. */
  datatype Stats = Stats(streak: int, misses: int)

  /** The record a fact has before it was ever attempted. */
  const NO_STATS := Stats(0, 0)

  /** Looks a fact up in a player's mastery map, defaulting to `NO_STATS`. */
  function StatsOf(m: map<Fact, Stats>, f: Fact): Stats
  {
    if f in m then m[f] else NO_STATS
  }

  /** A card's `lastResult`: unset, "correct" or "wrong". */
  datatype Mark = Unmarked | MarkedCorrect | MarkedWrong

  /** A session-scoped card; clones are independent copies of it. */
  datatype Card = Card(a: int, b: int, streak: int, dueWeight: int, seen: int, lastResult: Mark)

  function FactOf(c: Card): Fact
  {
    Fact(c.a, c.b)
  }

  /**
   * The requeue-depth heuristic a card is built with: five minus the
   * streak, plus one for a fact that was ever missed, never below one.
   */
  function DueWeight(s: Stats): (w: int)
    ensures w >= 1
    ensures w >= 5 - s.streak
    ensures s.misses > 0 ==> w >= 6 - s.streak
    ensures w == 1 || w == 5 - s.streak + (if s.misses > 0 then 1 else 0)
    ensures s.streak >= 0 ==> w <= 6
  {
    Max(1, 5 - s.streak + (if s.misses > 0 then 1 else 0))
  }

  /** The card a fact becomes when a deck is built from a player's mastery map. */
  function CardFor(f: Fact, m: map<Fact, Stats>): (c: Card)
    ensures FactOf(c) == f
    ensures c.seen == 0
    ensures c.streak == StatsOf(m, f).streak
    ensures c.dueWeight == DueWeight(StatsOf(m, f))
    ensures c.lastResult == MarkedWrong <==> StatsOf(m, f).misses > 0
    ensures c.lastResult != MarkedCorrect
  {
    var s := StatsOf(m, f);
    Card(f.a, f.b, s.streak, DueWeight(s), 0, if s.misses > 0 then MarkedWrong else Unmarked)
  }

  /** The classification of one attempt. */
  datatype Outcome = Correct | Wrong | Timeout

  /**
   * The value handed to the engine as the submitted answer: `null` (the
   * expiry path), an integer, or any other number (a fraction, NaN, an
   * infinity), none of which is strictly equal to an integer product.
   */
  datatype Submitted = Absent | Numeric(n: int) | NotInteger

  function CorrectAnswer(c: Card): int
  {
    c.a * c.b
  }

  /**
   * An expired attempt is a timeout whatever was submitted; otherwise the
   * attempt is correct exactly when the submission is the product.
   */
  function Classify(c: Card, answer: Submitted, expired: bool): (r: Outcome)
    ensures r == Timeout <==> expired
    ensures r == Correct <==> !expired && answer == Numeric(c.a * c.b)
    ensures r == Wrong <==> !expired && answer != Numeric(c.a * c.b)
  {
    if expired then Timeout
    else if answer == Numeric(CorrectAnswer(c)) then Correct
    else Wrong
  }

  /** The card after an attempt: a correct one extends the streak, any other resets it. */
  function Resolved(c: Card, r: Outcome): (c': Card)
    ensures FactOf(c') == FactOf(c) && c'.dueWeight == c.dueWeight && c'.seen == c.seen
    ensures r == Correct ==> c'.streak == c.streak + 1 && c'.lastResult == MarkedCorrect
    ensures r != Correct ==> c'.streak == 0 && c'.lastResult == MarkedWrong
  {
    if r == Correct then c.(streak := c.streak + 1, lastResult := MarkedCorrect)
    else c.(streak := 0, lastResult := MarkedWrong)
  }

  /** One entry of a session's attempt log. */
  datatype Attempt = Attempt(a: int, b: int, answer: Submitted, correctAnswer: int, result: Outcome, durationMs: int)

  function KeyOf(at: Attempt): Fact
  {
    Fact(at.a, at.b)
  }

  /**
   * Time taken on an attempt: `now` minus the start stamp, where a missing
   * (or zero, hence falsy) stamp falls back to `now`, and never negative.
   */
  function Duration(now: int, start: Option<int>): (d: int)
    ensures d >= 0
    ensures start.Some? && start.value != 0 && start.value <= now ==> d == now - start.value
    ensures start.None? || start.value == 0 || start.value >= now ==> d == 0
  {
    var from := if start.None? || start.value == 0 then now else start.value;
    Max(0, now - from)
  }

  /** Number of correct attempts in a log. */
  function CorrectCount(h: seq<Attempt>): (n: nat)
    ensures n <= |h|
  {
    if h == [] then 0
    else CorrectCount(h[..|h| - 1]) + (if h[|h| - 1].result == Correct then 1 else 0)
  }
}

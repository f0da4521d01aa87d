/**
 * The session state machine as functions on a snapshot of the session's
 * fields. `Sessions.Session` runs the same transitions in place and is
 * proved to agree with these definitions; the lemmas below state what the
 * transitions guarantee.
 */
module Engine {
  import opened Wrappers
  import opened Cards
  import opened Shuffle
  import opened Requeue
  import opened Players
  import opened Input

  /** Questions per session. */
  const DEFAULT_TARGET := 15
  /** Countdown length used when the configured one is 0. */
  const DEFAULT_TIMER_SECONDS := 15

  /** What a session fixes when it starts. */
  datatype Config = Config(mode: Mode, table: int, targetQuestions: int, timerEnabled: bool, timerSeconds: int)

  /**
   * The session's mutable fields. `expiryAt` is the deadline of the armed
   * expiry timer (`None`: no timer armed); `active` is false once
   * `endSession` has discarded the session.
   */
  datatype SessionState = SessionState(
    queue: seq<Card>,
    asked: nat,
    correct: nat,
    incorrect: nat,
    history: seq<Attempt>,
    current: Option<Card>,
    currentDone: bool,
    currentStart: Option<int>,
    expiryAt: Option<int>,
    active: bool)

  /** A transition's result: the session and the store's player list. */
  datatype Step = Step(session: SessionState, players: seq<Player>)

  /** `(timerSeconds || DEFAULT_TIMER_SECONDS) * 1000`. */
  function CountdownMs(timerSeconds: int): int
  {
    (if timerSeconds == 0 then DEFAULT_TIMER_SECONDS else timerSeconds) * 1000
  }

  /** `startCountdown`: an expiry is armed exactly when the timer is enabled. */
  function Countdown(cfg: Config, now: int): (e: Option<int>)
    ensures e.Some? <==> cfg.timerEnabled
    ensures e.Some? ==> e.value == now + CountdownMs(cfg.timerSeconds)
  {
    if cfg.timerEnabled then Some(now + CountdownMs(cfg.timerSeconds)) else None
  }

  /**
   * What every reachable session satisfies: the counters agree with the
   * log, every logged attempt is well formed, and an expiry is only ever
   * armed for a presented card of a timed session.
   */
  predicate Inv(cfg: Config, s: SessionState)
  {
    s.asked == |s.history| &&
    s.correct == CorrectCount(s.history) &&
    s.asked == s.correct + s.incorrect &&
    (forall k :: 0 <= k < |s.history| ==>
       s.history[k].durationMs >= 0 && s.history[k].correctAnswer == s.history[k].a * s.history[k].b) &&
    (s.expiryAt.Some? ==> cfg.timerEnabled && s.current.Some?)
  }

  /** A card is on screen and may still be answered. */
  predicate Pending(s: SessionState)
  {
    s.active && s.current.Some? && !s.currentDone
  }

  /** The session object `startSession` creates around a deck. */
  function Initial(deck: seq<Card>): (s: SessionState)
    ensures s.queue == deck && s.active && s.history == [] && s.current.None? && s.expiryAt.None?
  {
    SessionState(deck, 0, 0, 0, [], None, false, None, None, true)
  }

  lemma InitialInv(cfg: Config, deck: seq<Card>)
    ensures Inv(cfg, Initial(deck))
  {
  }

  /** Does `nextCard` go on to present a card (rather than end the session)? */
  predicate Continues(cfg: Config, s: SessionState)
  {
    s.active && s.asked < cfg.targetQuestions && |s.queue| > 0
  }

  /** The random draws `nextCard` consumes: those of the tail shuffle, if it presents a card. */
  function NextDraws(cfg: Config, s: SessionState): nat
  {
    if Continues(cfg, s) then TailLen(|s.queue|) else 0
  }

  /** `player.lastSession` as written by `endSession`. */
  function Record(cfg: Config, s: SessionState, now: int): SessionRecord
  {
    SessionRecord(s.asked, s.correct, s.incorrect, cfg.mode, cfg.table, now)
  }

  /**
   * `endSession`: with an active player, cancel the timers and fold the
   * log into that player's record; in every case discard the session.
   */
  function EndSpec(cfg: Config, s: SessionState, players: seq<Player>, activeId: Option<string>, now: int): (r: Step)
    ensures !r.session.active
    ensures r.players == Finished(players, activeId, s.history, Record(cfg, s, now))
    ensures r.session.(active := true, expiryAt := s.expiryAt) == s.(active := true)
    ensures r.session.expiryAt == if FindPlayer(players, activeId).Some? then None else s.expiryAt
  {
    if FindPlayer(players, activeId).Some? then
      Step(s.(active := false, expiryAt := None), Finished(players, activeId, s.history, Record(cfg, s, now)))
    else
      Step(s.(active := false), players)
  }

  /**
   * `nextCard`: end the session once the target is reached or the queue
   * is empty; otherwise reshuffle the tail, shift the front card off the
   * queue, count it as seen once more and arm its countdown.
   */
  function NextCardSpec(cfg: Config, s: SessionState, players: seq<Player>, activeId: Option<string>, picks: seq<nat>, now: int): Step
    requires ValidPicks(NextDraws(cfg, s), picks)
  {
    if !s.active then Step(s, players)
    else if s.asked >= cfg.targetQuestions || |s.queue| == 0 then EndSpec(cfg, s, players, activeId, now)
    else
      var q := TailShuffled(s.queue, picks);
      TailShuffledKeeps(s.queue, picks);
      var card := q[0].(seen := q[0].seen + 1);
      Step(s.(queue := q[1..], current := Some(card), currentDone := false,
              currentStart := Some(now), expiryAt := Countdown(cfg, now)), players)
  }

  /**
   * The bookkeeping of `finalizeAttempt` up to the history push: cancel the
   * countdown, mark the card done, classify the answer and log the attempt.
   */
  function Logged(s: SessionState, answer: Submitted, expired: bool, now: int): SessionState
    requires Pending(s)
  {
    var c := s.current.value;
    var att := Attempt(c.a, c.b, answer, CorrectAnswer(c), Classify(c, answer, expired), Duration(now, s.currentStart));
    s.(expiryAt := None, currentDone := true, asked := s.asked + 1, history := s.history + [att])
  }

  /**
   * The `if (result === "correct")` branch pair of `finalizeAttempt`: count the
   * outcome, update the card and requeue it; the clone decision reads the
   * already incremented `asked`.
   */
  function Resolve(cfg: Config, s: SessionState, r: Outcome): SessionState
    requires s.current.Some?
  {
    var c' := Resolved(s.current.value, r);
    if r == Correct then
      s.(correct := s.correct + 1, current := Some(c'), queue := AfterCorrect(s.queue, c', s.asked, cfg.targetQuestions))
    else
      s.(incorrect := s.incorrect + 1, current := Some(c'), queue := AfterMiss(s.queue, c'))
  }

  /**
   * The logging and requeueing of `finalizeAttempt` together with the
   * `currentDone = false` every follow-up starts with.
   */
  function Recorded(cfg: Config, s: SessionState, answer: Submitted, expired: bool, now: int): SessionState
    requires Pending(s)
  {
    Resolve(cfg, Logged(s, answer, expired, now), Classify(s.current.value, answer, expired)).(currentDone := false)
  }

  /** The random draws of the follow-up: only a correct answer goes on to `nextCard`. */
  function FollowUpDraws(cfg: Config, s: SessionState, r: Outcome): nat
  {
    if r == Correct then NextDraws(cfg, s) else 0
  }

  /**
   * The closing three-way branch of `finalizeAttempt`, once the attempt is recorded: advance
   * (correct), re-arm the countdown for a retry (wrong) or stay on the card
   * with no countdown (timeout).
   */
  function FollowUpSpec(cfg: Config, s: SessionState, players: seq<Player>, activeId: Option<string>,
                        r: Outcome, expired: bool, now: int, picks: seq<nat>): Step
    requires ValidPicks(FollowUpDraws(cfg, s, r), picks)
  {
    if r == Correct then NextCardSpec(cfg, s, players, activeId, picks, now)
    else if !expired then Step(s.(currentStart := Some(now), expiryAt := Countdown(cfg, now)), players)
    else Step(s, players)
  }

  /** The random draws `finalizeAttempt` consumes. */
  function FinalizeDraws(cfg: Config, s: SessionState, answer: Submitted, expired: bool): nat
  {
    if Pending(s)
    then FollowUpDraws(cfg, Recorded(cfg, s, answer, expired, now := 0), Classify(s.current.value, answer, expired))
    else 0
  }

  /** `finalizeAttempt`: a no-op unless a card is pending; otherwise record the attempt and follow up. */
  function FinalizeSpec(cfg: Config, s: SessionState, players: seq<Player>, activeId: Option<string>,
                        answer: Submitted, expired: bool, now: int, picks: seq<nat>): Step
    requires ValidPicks(FinalizeDraws(cfg, s, answer, expired), picks)
  {
    if !Pending(s) then Step(s, players)
    else
      var s1 := Recorded(cfg, s, answer, expired, now);
      var r := Classify(s.current.value, answer, expired);
      assert FollowUpDraws(cfg, s1, r) == FinalizeDraws(cfg, s, answer, expired);
      FollowUpSpec(cfg, s1, players, activeId, r, expired, now, picks)
  }

  /** The draws of `handleSubmit`: none for a rejected submission. */
  function SubmitDraws(cfg: Config, s: SessionState, raw: string, parsed: Submitted): nat
  {
    if Trim(raw) == [] then 0 else FinalizeDraws(cfg, s, parsed, false)
  }

  /**
   * `handleSubmit`: ignore it unless a card is pending, reject white-space
   * input, otherwise finalize with `parsed`, the host's `Number(raw)`.
   */
  function SubmitSpec(cfg: Config, s: SessionState, players: seq<Player>, activeId: Option<string>,
                      raw: string, parsed: Submitted, now: int, picks: seq<nat>): Step
    requires ValidPicks(SubmitDraws(cfg, s, raw, parsed), picks)
  {
    if !Pending(s) || Trim(raw) == [] then Step(s, players)
    else FinalizeSpec(cfg, s, players, activeId, parsed, false, now, picks)
  }

  // ---------------------------------------------------------------------
  // Properties of the transitions
  // ---------------------------------------------------------------------

  lemma CorrectCountAppend(h: seq<Attempt>, at: Attempt)
    ensures CorrectCount(h + [at]) == CorrectCount(h) + (if at.result == Correct then 1 else 0)
  {
    assert (h + [at])[..|h|] == h;
  }

  lemma EndKeepsInv(cfg: Config, s: SessionState, players: seq<Player>, activeId: Option<string>, now: int)
    requires Inv(cfg, s)
    ensures Inv(cfg, EndSpec(cfg, s, players, activeId, now).session)
  {
  }

  lemma NextCardKeepsInv(cfg: Config, s: SessionState, players: seq<Player>, activeId: Option<string>, picks: seq<nat>, now: int)
    requires Inv(cfg, s) && ValidPicks(NextDraws(cfg, s), picks)
    ensures Inv(cfg, NextCardSpec(cfg, s, players, activeId, picks, now).session)
  {
  }

  lemma RecordedKeepsInv(cfg: Config, s: SessionState, answer: Submitted, expired: bool, now: int)
    requires Inv(cfg, s) && Pending(s)
    ensures Inv(cfg, Recorded(cfg, s, answer, expired, now))
  {
    var c := s.current.value;
    var r := Classify(c, answer, expired);
    var att := Attempt(c.a, c.b, answer, CorrectAnswer(c), r, Duration(now, s.currentStart));
    CorrectCountAppend(s.history, att);
  }

  /** `asked == correct + incorrect == |history|` survives every attempt. */
  lemma FinalizeKeepsInv(cfg: Config, s: SessionState, players: seq<Player>, activeId: Option<string>,
                         answer: Submitted, expired: bool, now: int, picks: seq<nat>)
    requires Inv(cfg, s) && ValidPicks(FinalizeDraws(cfg, s, answer, expired), picks)
    ensures Inv(cfg, FinalizeSpec(cfg, s, players, activeId, answer, expired, now, picks).session)
  {
    if Pending(s) {
      RecordedKeepsInv(cfg, s, answer, expired, now);
      var s1 := Recorded(cfg, s, answer, expired, now);
      if Classify(s.current.value, answer, expired) == Correct {
        NextCardKeepsInv(cfg, s1, players, activeId, picks, now);
      }
    }
  }

  /** A pending card is finalized by recording the attempt and following up on its outcome. */
  lemma FinalizeUnfolds(cfg: Config, s: SessionState, players: seq<Player>, activeId: Option<string>,
                        answer: Submitted, expired: bool, now: int, picks: seq<nat>)
    requires Pending(s) && ValidPicks(FinalizeDraws(cfg, s, answer, expired), picks)
    ensures var s1 := Recorded(cfg, s, answer, expired, now);
            var r := Classify(s.current.value, answer, expired);
            ValidPicks(FollowUpDraws(cfg, s1, r), picks) &&
            FinalizeSpec(cfg, s, players, activeId, answer, expired, now, picks) ==
            FollowUpSpec(cfg, s1, players, activeId, r, expired, now, picks)
  {
  }

  /** The follow-up keeps the invariant of a session whose card is still on screen. */
  lemma FollowUpKeepsInv(cfg: Config, s: SessionState, players: seq<Player>, activeId: Option<string>,
                         r: Outcome, expired: bool, now: int, picks: seq<nat>)
    requires Inv(cfg, s) && s.current.Some? && ValidPicks(FollowUpDraws(cfg, s, r), picks)
    ensures Inv(cfg, FollowUpSpec(cfg, s, players, activeId, r, expired, now, picks).session)
  {
    if r == Correct {
      NextCardKeepsInv(cfg, s, players, activeId, picks, now);
    }
  }

  lemma SubmitKeepsInv(cfg: Config, s: SessionState, players: seq<Player>, activeId: Option<string>,
                       raw: string, parsed: Submitted, now: int, picks: seq<nat>)
    requires Inv(cfg, s) && ValidPicks(SubmitDraws(cfg, s, raw, parsed), picks)
    ensures Inv(cfg, SubmitSpec(cfg, s, players, activeId, raw, parsed, now, picks).session)
  {
    if Pending(s) && Trim(raw) != [] {
      FinalizeKeepsInv(cfg, s, players, activeId, parsed, false, now, picks);
    }
  }

  /** Nothing happens to a session with no pending card (none shown, already resolved, or ended). */
  lemma FinalizeNoOp(cfg: Config, s: SessionState, players: seq<Player>, activeId: Option<string>,
                     answer: Submitted, expired: bool, now: int, picks: seq<nat>)
    requires !Pending(s) && ValidPicks(FinalizeDraws(cfg, s, answer, expired), picks)
    ensures FinalizeSpec(cfg, s, players, activeId, answer, expired, now, picks) == Step(s, players)
  {
  }

  /** White-space input changes nothing; otherwise a pending card is finalized with the parsed value. */
  lemma SubmitValidates(cfg: Config, s: SessionState, players: seq<Player>, activeId: Option<string>,
                        raw: string, parsed: Submitted, now: int, picks: seq<nat>)
    requires ValidPicks(SubmitDraws(cfg, s, raw, parsed), picks)
    ensures (forall i :: 0 <= i < |raw| ==> IsJsSpace(raw[i])) ==>
              SubmitSpec(cfg, s, players, activeId, raw, parsed, now, picks) == Step(s, players)
    ensures (exists i :: 0 <= i < |raw| && !IsJsSpace(raw[i])) ==>
              SubmitDraws(cfg, s, raw, parsed) == FinalizeDraws(cfg, s, parsed, false) &&
              SubmitSpec(cfg, s, players, activeId, raw, parsed, now, picks) ==
              FinalizeSpec(cfg, s, players, activeId, parsed, false, now, picks)
  {
    TrimEmpty(raw);
  }

  /**
   * One resolution logs exactly one attempt, with a non-negative duration,
   * and counts it exactly once: as correct or as incorrect.
   */
  lemma FinalizeLogsOnce(cfg: Config, s: SessionState, players: seq<Player>, activeId: Option<string>,
                         answer: Submitted, expired: bool, now: int, picks: seq<nat>)
    requires Pending(s) && ValidPicks(FinalizeDraws(cfg, s, answer, expired), picks)
    ensures var s' := FinalizeSpec(cfg, s, players, activeId, answer, expired, now, picks).session;
            var c := s.current.value;
            var r := Classify(c, answer, expired);
            |s'.history| == |s.history| + 1 &&
            s'.history == s.history + [Attempt(c.a, c.b, answer, c.a * c.b, r, Duration(now, s.currentStart))] &&
            s'.history[|s.history|].durationMs >= 0 &&
            s'.asked == s.asked + 1 &&
            s'.correct == s.correct + (if r == Correct then 1 else 0) &&
            s'.incorrect == s.incorrect + (if r == Correct then 0 else 1) &&
            !s'.currentDone
  {
  }

  /**
   * A correct answer extends the card's streak and requeues it through
   * `AfterCorrect` (a clone exactly when the new streak is below 3 and the
   * incremented count is below the target), then hands over to `nextCard`.
   */
  lemma FinalizeCorrectAdvances(cfg: Config, s: SessionState, players: seq<Player>, activeId: Option<string>,
                                answer: Submitted, now: int, picks: seq<nat>)
    requires Pending(s) && answer == Numeric(s.current.value.a * s.current.value.b)
    requires ValidPicks(FinalizeDraws(cfg, s, answer, false), picks)
    ensures var c := s.current.value;
            var c' := c.(streak := c.streak + 1, lastResult := MarkedCorrect);
            var s1 := Recorded(cfg, s, answer, false, now);
            s1.queue == AfterCorrect(s.queue, c', s.asked + 1, cfg.targetQuestions) &&
            s1.current == Some(c') && s1.asked == s.asked + 1 && s1.history[|s.history|].result == Correct &&
            s1.active && s1.expiryAt.None? &&
            ValidPicks(NextDraws(cfg, s1), picks) &&
            FinalizeSpec(cfg, s, players, activeId, answer, false, now, picks) == NextCardSpec(cfg, s1, players, activeId, picks, now)
  {
    var s1 := Recorded(cfg, s, answer, false, now);
    assert NextDraws(cfg, s1) == FinalizeDraws(cfg, s, answer, false);
  }

  /**
   * A wrong answer resets the streak, puts two clones back near the front,
   * and keeps the same card pending with a fresh countdown when timed.
   */
  lemma FinalizeWrongRetries(cfg: Config, s: SessionState, players: seq<Player>, activeId: Option<string>,
                             answer: Submitted, now: int, picks: seq<nat>)
    requires Pending(s) && answer != Numeric(s.current.value.a * s.current.value.b)
    requires ValidPicks(FinalizeDraws(cfg, s, answer, false), picks)
    ensures var c := s.current.value;
            var c' := c.(streak := 0, lastResult := MarkedWrong);
            var r := FinalizeSpec(cfg, s, players, activeId, answer, false, now, picks);
            r.players == players &&
            r.session.history[|s.history|].result == Wrong &&
            r.session.current == Some(c') && Pending(r.session) &&
            r.session.queue == AfterMiss(s.queue, c') && |r.session.queue| == |s.queue| + 2 &&
            r.session.queue[Min(2, |s.queue|)] == c' && r.session.queue[Min(4, |s.queue| + 1)] == c' &&
            r.session.currentStart == Some(now) &&
            (r.session.expiryAt.Some? <==> cfg.timerEnabled)
  {
  }

  /**
   * An expired attempt is a timeout, never correct: the streak resets, two
   * clones go back, and the same card stays on screen with no countdown
   * armed, so the expiry cannot fire twice.
   */
  lemma FinalizeTimeoutFreezes(cfg: Config, s: SessionState, players: seq<Player>, activeId: Option<string>,
                               answer: Submitted, now: int, picks: seq<nat>)
    requires Pending(s) && ValidPicks(FinalizeDraws(cfg, s, answer, true), picks)
    ensures var c := s.current.value;
            var c' := c.(streak := 0, lastResult := MarkedWrong);
            var r := FinalizeSpec(cfg, s, players, activeId, answer, true, now, picks);
            r.players == players &&
            r.session.history[|s.history|].result == Timeout &&
            r.session.correct == s.correct &&
            r.session.current == Some(c') && Pending(r.session) &&
            r.session.queue == AfterMiss(s.queue, c') &&
            r.session.expiryAt.None? &&
            r.session.currentStart == s.currentStart
  {
  }

  /** `nextCard` ends the session exactly when the target is reached or the queue is empty. */
  lemma NextCardEnds(cfg: Config, s: SessionState, players: seq<Player>, activeId: Option<string>, picks: seq<nat>, now: int)
    requires s.active && ValidPicks(NextDraws(cfg, s), picks)
    ensures var r := NextCardSpec(cfg, s, players, activeId, picks, now);
            (!r.session.active <==> s.asked >= cfg.targetQuestions || |s.queue| == 0) &&
            (!r.session.active ==> r.players == Finished(players, activeId, s.history, Record(cfg, s, now)))
  {
  }

  /**
   * Otherwise it removes exactly one card from the queue, presents it with
   * its `seen` count one higher, and leaves counters, log and store alone.
   */
  lemma NextCardPresents(cfg: Config, s: SessionState, players: seq<Player>, activeId: Option<string>, picks: seq<nat>, now: int)
    requires Continues(cfg, s) && ValidPicks(NextDraws(cfg, s), picks)
    ensures var r := NextCardSpec(cfg, s, players, activeId, picks, now);
            var s' := r.session;
            s'.active && Pending(s') && r.players == players &&
            |s'.queue| == |s.queue| - 1 &&
            s'.current.Some? &&
            multiset(s'.queue) + multiset{s'.current.value.(seen := s'.current.value.seen - 1)} == multiset(s.queue) &&
            s'.asked == s.asked && s'.correct == s.correct && s'.incorrect == s.incorrect &&
            s'.history == s.history &&
            s'.currentStart == Some(now) && (s'.expiryAt.Some? <==> cfg.timerEnabled)
    ensures var s' := NextCardSpec(cfg, s, players, activeId, picks, now).session;
            s'.expiryAt == Countdown(cfg, now) &&
            (|s.queue| > TAIL_WINDOW ==>
               s'.current == Some(s.queue[0].(seen := s.queue[0].seen + 1)) &&
               forall k :: 0 <= k < |s.queue| - 1 - TAIL_WINDOW ==> s'.queue[k] == s.queue[k + 1])
  {
    TailShuffledKeeps(s.queue, picks);
    var q := TailShuffled(s.queue, picks);
    assert q == [q[0]] + q[1..];
    var s' := NextCardSpec(cfg, s, players, activeId, picks, now).session;
    assert s'.current == Some(q[0].(seen := q[0].seen + 1));
  }

  /** An ended session ignores every later `nextCard`, submission and expiry. */
  lemma EndedIsFinal(cfg: Config, s: SessionState, players: seq<Player>, activeId: Option<string>, picks: seq<nat>,
                     answer: Submitted, expired: bool, raw: string, now: int)
    requires !s.active
    ensures NextDraws(cfg, s) == 0 && FinalizeDraws(cfg, s, answer, expired) == 0 && SubmitDraws(cfg, s, raw, answer) == 0
    ensures NextCardSpec(cfg, s, players, activeId, [], now) == Step(s, players)
    ensures FinalizeSpec(cfg, s, players, activeId, answer, expired, now, []) == Step(s, players)
    ensures SubmitSpec(cfg, s, players, activeId, raw, answer, now, []) == Step(s, players)
  {
  }

  /**
   * Retries are not bounded by the question target: a miss with the target
   * already reached counts one more question and leaves the card pending.
   */
  lemma RetryPassesTarget(cfg: Config, s: SessionState, players: seq<Player>, activeId: Option<string>,
                          answer: Submitted, expired: bool, now: int, picks: seq<nat>)
    requires Pending(s) && s.asked >= cfg.targetQuestions
    requires expired || answer != Numeric(s.current.value.a * s.current.value.b)
    requires ValidPicks(FinalizeDraws(cfg, s, answer, expired), picks)
    ensures var s' := FinalizeSpec(cfg, s, players, activeId, answer, expired, now, picks).session;
            s'.asked > cfg.targetQuestions && Pending(s')
  {
  }
}

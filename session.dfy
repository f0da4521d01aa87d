/**
 * The live session object. Its methods change its fields in place, as the
 * engine's functions do on the `session` object, and each is proved to
 * perform exactly the transition `Engine` defines for it.
 */
module Sessions {
  import opened Wrappers
  import opened Cards
  import opened Shuffle
  import opened Requeue
  import opened Mastery
  import opened Players
  import opened Deck
  import opened Engine

  class Session {
    const mode: Mode
    const table: int
    const targetQuestions: int
    const timerEnabled: bool
    const timerSeconds: int

    var queue: seq<Card>
    var asked: nat
    var correct: nat
    var incorrect: nat
    var history: seq<Attempt>
    var current: Option<Card>
    var currentDone: bool
    var currentStart: Option<int>
    /** The deadline of the armed expiry timer; `None` when no timer is armed. */
    var expiryAt: Option<int>
    /** False once `endSession` has discarded the session. */
    var active: bool

    function Cfg(): Config
    {
      Config(mode, table, targetQuestions, timerEnabled, timerSeconds)
    }

    function State(): SessionState
      reads this
    {
      SessionState(queue, asked, correct, incorrect, history, current, currentDone, currentStart, expiryAt, active)
    }

    ghost predicate Valid()
      reads this
    {
      Inv(Cfg(), State())
    }

    /** The object literal of `startSession`. */
    constructor (mode: Mode, table: int, deck: seq<Card>, timerEnabled: bool, timerSeconds: int)
      ensures Cfg() == Config(mode, table, DEFAULT_TARGET, timerEnabled, timerSeconds)
      ensures State() == Initial(deck)
      ensures Valid()
    {
      this.mode := mode;
      this.table := table;
      this.targetQuestions := DEFAULT_TARGET;
      this.timerEnabled := timerEnabled;
      this.timerSeconds := timerSeconds;
      queue := deck;
      asked, correct, incorrect := 0, 0, 0;
      history := [];
      current := None;
      currentDone := false;
      currentStart := None;
      expiryAt := None;
      active := true;
    }

    /** `startCountdown`, reduced to whether and when the expiry is armed. */
    method StartCountdown(now: int)
      modifies this`expiryAt
      ensures expiryAt == Countdown(Cfg(), now)
    {
      expiryAt := None;
      if !timerEnabled {
        return;
      }
      var totalMs := (if timerSeconds == 0 then DEFAULT_TIMER_SECONDS else timerSeconds) * 1000;
      expiryAt := Some(now + totalMs);
    }

    /** `clearCountdown`. */
    method ClearCountdown()
      modifies this`expiryAt
      ensures expiryAt == None
    {
      expiryAt := None;
    }

    /** `shuffleTail(queue, 4)`. */
    method ShuffleTail(picks: seq<nat>)
      requires ValidPicks(TailLen(|queue|), picks)
      modifies this`queue
      ensures queue == TailShuffled(old(queue), picks)
    {
      if |queue| <= 2 {
        return;
      }
      var q := queue;
      var t := Min(TAIL_WINDOW, |q|);
      var tail := new Card[t](i requires 0 <= i < t => q[|q| - t + i]);
      assert tail[..] == q[|q| - t..];
      queue := q[..|q| - t];
      ShuffleArray(tail, picks);
      queue := queue + tail[..];
    }

    /** `maybeReinsertCard`. */
    method MaybeReinsertCard(card: Card)
      modifies this`queue
      ensures queue == AfterCorrect(old(queue), card, asked, targetQuestions)
    {
      var needsMore := card.streak < 3 && asked < targetQuestions;
      if !needsMore {
        return;
      }
      var insertAt := Min(|queue|, 3 * |queue| / 5 + 1);
      queue := queue[..insertAt] + [card] + queue[insertAt..];
    }

    /** `requeueMiss`. */
    method RequeueMiss(card: Card)
      modifies this`queue
      ensures queue == AfterMiss(old(queue), card)
    {
      var firstSpot := Min(2, |queue|);
      queue := queue[..firstSpot] + [card] + queue[firstSpot..];
      var secondSpot := Min(4, |queue|);
      queue := queue[..secondSpot] + [card] + queue[secondSpot..];
    }

    /** `endSession`, without the summary panel and the write to storage. */
    method EndSession(store: Store, now: int)
      requires Valid() && active
      modifies this, store`players
      ensures Step(State(), store.players) == EndSpec(Cfg(), old(State()), old(store.players), store.activePlayerId, now)
      ensures Valid()
    {
      EndKeepsInv(Cfg(), State(), store.players, store.activePlayerId, now);
      var found := FindPlayer(store.players, store.activePlayerId);
      if found.Some? {
        var i := found.value;
        ClearCountdown();
        var player := store.players[i];
        var factStreaks := UpdatePlayerStats(player.factStreaks, history);
        var rec := SessionRecord(asked, correct, incorrect, mode, table, now);
        store.players := store.players[i := player.(factStreaks := factStreaks, lastSession := Some(rec))];
      }
      active := false;
    }

    /** `nextCard`. */
    method NextCard(store: Store, picks: seq<nat>, now: int)
      requires Valid() && ValidPicks(NextDraws(Cfg(), State()), picks)
      modifies this, store`players
      ensures Step(State(), store.players) ==
              NextCardSpec(Cfg(), old(State()), old(store.players), store.activePlayerId, picks, now)
      ensures Valid()
    {
      NextCardKeepsInv(Cfg(), State(), store.players, store.activePlayerId, picks, now);
      if !active {
        return;
      }
      if asked >= targetQuestions || |queue| == 0 {
        EndSession(store, now);
        return;
      }
      ShuffleTail(picks);
      var card := queue[0];
      queue := queue[1..];
      currentDone := false;
      currentStart := Some(now);
      current := Some(card.(seen := card.seen + 1));
      StartCountdown(now);
    }

    /** The bookkeeping of `finalizeAttempt` up to the history push: cancel the countdown, classify and log. */
    method LogAttempt(answer: Submitted, expired: bool, now: int) returns (result: Outcome)
      requires Pending(State())
      modifies this`expiryAt, this`currentDone, this`asked, this`history
      ensures result == Classify(old(current.value), answer, expired)
      ensures State() == Logged(old(State()), answer, expired, now)
    {
      ClearCountdown();
      currentDone := true;
      var card := current.value;
      var correctAnswer := card.a * card.b;
      result := Classify(card, answer, expired);
      var durationMs := Duration(now, currentStart);
      asked := asked + 1;
      history := history + [Attempt(card.a, card.b, answer, correctAnswer, result, durationMs)];
    }

    /** The correct / missed branches of `finalizeAttempt`: count the outcome, update the card, requeue it. */
    method ResolveCard(result: Outcome)
      requires current.Some?
      modifies this`correct, this`incorrect, this`current, this`queue
      ensures State() == Resolve(Cfg(), old(State()), result)
    {
      ghost var s0 := State();
      var card := current.value;
      if result == Correct {
        correct := correct + 1;
        card := card.(streak := card.streak + 1, lastResult := MarkedCorrect);
        current := Some(card);
        MaybeReinsertCard(card);
        assert State() == s0.(correct := s0.correct + 1, current := Some(card), queue := queue);
      } else {
        incorrect := incorrect + 1;
        card := card.(streak := 0, lastResult := MarkedWrong);
        current := Some(card);
        RequeueMiss(card);
        assert State() == s0.(incorrect := s0.incorrect + 1, current := Some(card), queue := queue);
      }
    }

    /** `finalizeAttempt({ submittedAnswer: answer, expired })`. */
    method FinalizeAttempt(store: Store, answer: Submitted, expired: bool, now: int, picks: seq<nat>)
      requires Valid() && ValidPicks(FinalizeDraws(Cfg(), State(), answer, expired), picks)
      modifies this, store`players
      ensures Step(State(), store.players) ==
              FinalizeSpec(Cfg(), old(State()), old(store.players), store.activePlayerId, answer, expired, now, picks)
      ensures Valid()
    {
      if !active || current.None? || currentDone {
        return;
      }
      ghost var s1 := Recorded(Cfg(), State(), answer, expired, now);
      FinalizeUnfolds(Cfg(), State(), store.players, store.activePlayerId, answer, expired, now, picks);
      RecordedKeepsInv(Cfg(), State(), answer, expired, now);
      var result := LogAttempt(answer, expired, now);
      ResolveCard(result);
      assert State().(currentDone := false) == s1;
      FollowUp(store, result, expired, now, picks);
    }

    /** The closing advance / retry / freeze branch of `finalizeAttempt`, with the card marked done. */
    method FollowUp(store: Store, result: Outcome, expired: bool, now: int, picks: seq<nat>)
      requires currentDone && current.Some? && Inv(Cfg(), State().(currentDone := false))
      requires ValidPicks(FollowUpDraws(Cfg(), State().(currentDone := false), result), picks)
      modifies this, store`players
      ensures Step(State(), store.players) ==
              FollowUpSpec(Cfg(), old(State()).(currentDone := false), old(store.players), store.activePlayerId,
                           result, expired, now, picks)
      ensures Valid()
    {
      FollowUpKeepsInv(Cfg(), State().(currentDone := false), store.players, store.activePlayerId,
                       result, expired, now, picks);
      if result == Correct {
        currentDone := false;
        NextCard(store, picks, now);
      } else if !expired {
        currentDone := false;
        currentStart := Some(now);
        StartCountdown(now);
      } else {
        currentDone := false;
      }
    }

    /** `handleSubmit`; `parsed` is the host's `Number(raw.trim())`. */
    method HandleSubmit(store: Store, raw: string, parsed: Submitted, now: int, picks: seq<nat>)
      requires Valid() && ValidPicks(SubmitDraws(Cfg(), State(), raw, parsed), picks)
      modifies this, store`players
      ensures Step(State(), store.players) ==
              SubmitSpec(Cfg(), old(State()), old(store.players), store.activePlayerId, raw, parsed, now, picks)
      ensures Valid()
    {
      if !active || current.None? || currentDone {
        return;
      }
      var trimmed := Input.Trim(raw);
      if trimmed == "" {
        return;
      }
      FinalizeAttempt(store, parsed, false, now, picks);
    }

    /** The expiry callback armed by `startCountdown`. */
    method OnExpiry(store: Store, now: int)
      requires Valid() && expiryAt.Some? && now >= expiryAt.value
      modifies this, store`players
      ensures Step(State(), store.players) ==
              FinalizeSpec(Cfg(), old(State()), old(store.players), store.activePlayerId, Absent, true, now, [])
      ensures Valid()
    {
      FinalizeAttempt(store, Absent, true, now, []);
    }
  }

  /** The `buildDeck` call of `startSession` and the `shuffleArray(deck)` after it. */
  method ShuffledDeck(mode: Mode, table: int, m: map<Fact, Stats>, deckPicks: seq<nat>, shufflePicks: seq<nat>)
    returns (cards: seq<Card>)
    requires DeckPicks(mode, deckPicks)
    requires ValidPicks(DeckSize(mode), shufflePicks)
    ensures |DeckSpec(mode, table, m, deckPicks)| == DeckSize(mode)
    ensures cards == Shuffled(DeckSpec(mode, table, m, deckPicks), shufflePicks)
    ensures multiset(cards) == multiset(DeckSpec(mode, table, m, deckPicks))
  {
    var deck := BuildDeck(mode, table, m, deckPicks);
    var arr := new Card[|deck|](i requires 0 <= i < |deck| => deck[i]);
    assert arr[..] == deck;
    ShuffleArray(arr, shufflePicks);
    cards := arr[..];
  }

  /**
   * `startSession`: without an active player nothing starts; otherwise the
   * deck is built, shuffled once more, wrapped in a fresh session and the
   * first card is drawn.
   */
  method StartSession(store: Store, mode: Mode, table: int, deckPicks: seq<nat>, shufflePicks: seq<nat>,
                      firstPicks: seq<nat>, now: int) returns (session: Option<Session>)
    requires DeckPicks(mode, deckPicks)
    requires ValidPicks(DeckSize(mode), shufflePicks)
    requires ValidPicks(TAIL_WINDOW, firstPicks)
    modifies store`players
    ensures store.players == old(store.players)
    ensures session.None? <==> store.GetActivePlayer().None?
    ensures session.Some? ==>
              var s := session.value;
              var deck := DeckSpec(mode, table, store.GetActivePlayer().value.factStreaks, deckPicks);
              fresh(s) && s.Valid() && Pending(s.State()) &&
              s.Cfg() == Config(mode, table, DEFAULT_TARGET, store.timerEnabled, store.timerSeconds) &&
              |deck| == DeckSize(mode) && ValidPicks(|deck|, shufflePicks) &&
              s.State() == NextCardSpec(s.Cfg(), Initial(Shuffled(deck, shufflePicks)), store.players,
                                        store.activePlayerId, firstPicks, now).session
  {
    var player := store.GetActivePlayer();
    if player.None? {
      return None;
    }
    var cards := ShuffledDeck(mode, table, player.value.factStreaks, deckPicks, shufflePicks);
    var s := new Session(mode, table, cards, store.timerEnabled, store.timerSeconds);
    NextCardPresents(s.Cfg(), Initial(cards), store.players, store.activePlayerId, firstPicks, now);
    s.NextCard(store, firstPicks, now);
    session := Some(s);
  }
}

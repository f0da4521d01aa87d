# Multiplication practice engine — a Dafny model

`script.js` runs times-table drill sessions in the browser. This project models its
practice-session engine without the page around it. The engine has five parts:

- **Deck building.** `buildDeck` deals either the ten facts of one table, or twenty
  facts of the shuffled 10×10 grid. Each fact becomes a card whose streak, due
  weight and last result are derived from the player's stored mastery record.
- **Shuffles.** `shuffleArray` is an in-place Fisher–Yates loop. `shuffleTail`
  reshuffles the last four queue entries before each card is drawn.
- **The session state machine.**
  - `nextCard` ends the session or presents the front card.
  - `finalizeAttempt` resolves the pending card: it classifies the answer, updates
    the counters and the attempt log, requeues clones and then advances, retries
    or freezes.
  - `handleSubmit` rejects answers that are white space only.
- **Countdown arming.** `startCountdown` and `clearCountdown` are reduced to an
  optional deadline.
- **End of session.** `endSession` and `updatePlayerStats` fold the attempt log into
  the active player's per-fact `(streak, misses)` map and store a last-session record.

Layout:

- `wrappers.dfy`: `Option`, `Min`, `Max`.
- `cards.dfy` (module `Cards`): facts, stats, cards, attempts, classification.
- `shuffle.dfy` (module `Shuffle`): the Fisher–Yates loop on an `array`, and its
  specification `Shuffled` on sequences.
- `deck.dfy` (module `Deck`): `BuildDeck` with its nested loops.
- `requeue.dfy` (module `Requeue`): the `splice`/`shift`/`push` rearrangements of
  the queue, as functions on sequences.
- `mastery.dfy` (module `Mastery`): the fold of the log into the mastery map, and
  the `forEach` loop that computes it.
- `players.dfy` (module `Players`): the player list, `getActivePlayer`, and the
  `Store` class.
- `input.dfy` (module `Input`): `String.prototype.trim`.
- `engine.dfy` (module `Engine`): the session's fields as a `SessionState` value.
  Every transition is a function on that value, and the lemmas state what the
  transitions guarantee.
- `session.dfy` (module `Sessions`): the `Session` class. Its fields are the
  session object's fields, and its methods update them in place. Each method
  `ensures` that the new state is exactly the `Engine` transition applied to the
  old state.

Randomness and time are parameters:

- **`Math.random`.** Every shuffle takes `picks`, the sequence of swap partners the
  loop would have drawn. `picks[k]` is the `j` drawn for `i = n-1-k`, so
  `0 <= j <= i`. `ValidPicks(n, picks)` demands exactly the `n-1` draws a shuffle
  of `n` elements makes. Each session method requires exactly the draws it
  consumes (`NextDraws`, `FinalizeDraws`, `SubmitDraws`).
- **`Date.now()` and `new Date()`.** These become the parameter `now`, in
  milliseconds.
- **`Number(raw)`.** The caller supplies the parsed value as a `Submitted`.

Guarantees proved about the model, in the system's terms:

- **Counters.** `asked == correct + incorrect == |history|` holds in every reachable
  session, and `correct` equals the number of correct log entries.
- **One attempt per call.** One call of `finalizeAttempt` logs exactly one attempt.
  A call is a no-op when no card is pending or the session has ended. After a wrong
  answer or a timeout the same card stays pending, so a later submission (or the
  re-armed expiry) logs a further attempt on it.
- **Requeue placement.**
  - A correct answer grows the queue by one exactly when the new streak is below 3
    and the incremented `asked` is below the target. The clone goes at
    `min(len, floor(0.6·len)+1)`.
  - A miss adds two clones, at `min(2, len)` and `min(4, len+1)`.
  - Every other entry keeps its relative order, and the multiset grows by exactly
    the clones.
- **Follow-up after a resolution.**
  - A correct answer advances.
  - A wrong answer re-arms the countdown (when the timer is enabled) on the same card.
  - A timeout stays on the card with nothing armed.
- **Session end.** `nextCard` ends the session exactly when `asked >= targetQuestions`
  or the queue is empty. A miss never ends the session. After the end, every call
  is a no-op.
- **Shuffles.** Both shuffles are permutations. `shuffleTail` leaves queues of at
  most two alone and never moves entries before the last four.
- **Mastery fold.** The fold adds exactly one miss per non-correct attempt, so
  misses never decrease. It leaves facts that were never attempted alone. The
  streak counts the correct attempts after the last miss.

Behaviour of `script.js` worth noting:

- A miss inserts two clones of the card.
- The clone after a correct answer goes at `min(len, floor(0.6·len)+1)`. No answer
  changes a card's `dueWeight`.
- An expired attempt is always a timeout, even when the staged value is correct.
- A wrong answer after the target was reached is retried and counted, so `asked` can
  exceed `targetQuestions` (`Engine.RetryPassesTarget`).
- `startSession` shuffles the built deck a second time.

## Model

| member | source | states |
|---|---|---|
| Cards.StatsOf | script.js:164 | the stored record of a fact, or `(0, 0)` for a fact never attempted; `Cards.CardFor` states what a card takes from it |
| Cards.CorrectAnswer | script.js:287 | the product `a * b`; `Cards.Classify` states how it decides the outcome |
| Cards.DueWeight | script.js:165 | the due weight is at least 1 and at least `5 - streak` (`6 - streak` after a miss); it is 1 or the unclamped formula, and at most 6 when the streak is non-negative |
| Cards.CardFor | script.js:162-174 | a built card has the fact's operands, `seen = 0`, the stored streak and due weight, and is marked wrong exactly when the fact has misses (never marked correct) |
| Cards.Classify | script.js:287-289 | timeout exactly when expired; correct exactly when not expired and the submission is the product; wrong otherwise |
| Cards.Resolved | script.js:306-318 | the resolved card keeps its fact, weight and `seen`; correct extends the streak and marks it correct, anything else zeroes it and marks it wrong |
| Cards.Duration | script.js:290 | the duration is never negative, is `now - start` for a real earlier start, and 0 when the start is missing, zero or in the future |
| Deck.Row | script.js:150-152 | single-table mode lists `(i+1, table)` at position `i`, ten facts |
| Deck.GridFacts | script.js:154-158 | the nested loops list each fact with operands in 1..10 exactly once, and no other |
| Deck.CardsFor | script.js:162-174 | the `.map` keeps the length and turns the fact at each position into its card |
| Deck.DeckSpec | script.js:147-175 | the deck `buildDeck` deals: the table's row, or the first twenty facts of the shuffled grid, turned into cards; `Deck.BuildDeck` is proved equal to it and states its size and contents |
| Deck.BuildDeck | script.js:147-175 | the nested loops, shuffle and truncation deal `DeckSpec`: 10 or 20 cards, all `seen = 0`, built from the mastery map; `(1,table)…(10,table)` in single mode; distinct grid facts in mixed mode |
| Shuffle.Steps | script.js:178-181 | the array after the first `k` swaps of the loop; `Shuffle.StepsPermute` and `Shuffle.StepsKeepDistinct` state its properties |
| Shuffle.Shuffled | script.js:177-182 | the array after the whole loop; `Shuffle.ShuffledPermutes` states it is a permutation, and `Shuffle.ShuffleArray` is proved equal to it |
| Shuffle.SwapPermutes | script.js:180 | a swap keeps the multiset |
| Shuffle.SwapKeepsCount | script.js:180 | a swap keeps the number of occurrences of every value |
| Shuffle.SwapKeepsDistinct | script.js:180 | a swap keeps pairwise distinct elements distinct |
| Shuffle.CountIsMultiplicity | script.js:177-182 | counting occurrences agrees with the multiset |
| Shuffle.StepsKeepCount | script.js:178-181 | every prefix of the loop keeps the number of occurrences of every value |
| Shuffle.StepsPermute | script.js:178-181 | every prefix of the loop is a permutation |
| Shuffle.StepsKeepDistinct | script.js:178-181 | every prefix of the loop keeps distinct elements distinct |
| Shuffle.ShuffledPermutes | script.js:177-182 | the whole shuffle is a permutation: same multiset, same members, distinctness kept |
| Shuffle.ShuffleArray | script.js:177-182 | the in-place loop leaves the array equal to `Shuffled` of its old contents, a permutation of them |
| Requeue.Insert | script.js:269 | a zero-deletion splice grows the queue by one with the new entry at the given index |
| Requeue.InsertPlaces | script.js:269 | entries before the index stay, entries after it move back one, and the multiset gains exactly the new entry |
| Requeue.ReinsertIndex | script.js:268 | the clone index lies within the queue, after the front for a non-empty queue and before the end once it has three entries |
| Requeue.AfterCorrect | script.js:263-270 | the queue grows by one exactly when the streak is below 3 and questions remain; otherwise it is unchanged; the clone sits at the reinsertion index |
| Requeue.AfterCorrectPlaces | script.js:263-270 | around the clone the queue keeps its order, and its multiset grows by the clone alone |
| Requeue.AfterMiss | script.js:272-280 | the queue grows by exactly two, with the clone at `min(2,len)` and again at the later index `min(4,len+1)` |
| Requeue.AfterMissPlaces | script.js:272-280 | all other entries keep their order, shifted past the clones, and the multiset grows by exactly two copies |
| Requeue.TailLen | script.js:230-232 | nothing is reshuffled exactly when the queue has at most two entries, and never more than the queue holds |
| Requeue.TailShuffled | script.js:230-235 | the queue after `shuffleTail(queue, 4)`; `Requeue.TailShuffledKeeps` states its properties, and `Sessions.Session.ShuffleTail` is proved equal to it |
| Requeue.TailShuffledKeeps | script.js:230-235 | the tail shuffle keeps length and multiset, is the identity on queues of at most two, and keeps every entry before the last four |
| Requeue.CloneNotDrawnNext | script.js:221-222 | when a correct answer earns a clone and the queue held at least four cards, the next card drawn is the old front, not the clone |
| Mastery.Fold | script.js:360-373 | the mastery map after folding the log from left to right; `Mastery.FoldMisses`, `Mastery.FoldStreakNoMiss`, `Mastery.FoldStreakAfterMiss`, `Mastery.FoldUntouched` and `Mastery.FoldKeys` state its properties |
| Mastery.Apply | script.js:363-371 | folding one attempt adds its fact's key and changes no other entry |
| Mastery.UpdatePlayerStats | script.js:360-373 | the `forEach` computes the left fold of the whole log into the map |
| Mastery.FoldAppend | script.js:362-372 | folding a concatenated log is folding its parts in turn |
| Mastery.FoldMisses | script.js:367-370 | a fact's misses grow by exactly its number of non-correct attempts |
| Mastery.MissesNeverDecrease | script.js:369 | misses never decrease |
| Mastery.FoldUntouched | script.js:362-372 | a fact with no attempt keeps its entry, or stays absent |
| Mastery.FoldKeys | script.js:371 | the keys afterwards are the old keys plus every attempted fact |
| Mastery.FoldStreakNoMiss | script.js:365-366 | without a miss, a fact's streak grows by its number of correct attempts |
| Mastery.FoldStreakAfterMiss | script.js:365-370 | after the last miss on a fact, its streak counts only the correct attempts that follow |
| Players.FindPlayer | script.js:112 | the result is the first player whose id is the active id, or none when no player has it |
| Players.Finished | script.js:340-354 | `endSession` replaces only the active player, with the folded map and the new record; without an active player nobody changes |
| Players.Store.GetActivePlayer | script.js:111-113 | a player is returned exactly when one has the active id, and it is the first stored player with that id |
| Input.TrimStart | script.js:253 | the result is a suffix of the input that does not start with white space, and everything removed is white space |
| Input.TrimEnd | script.js:253 | the result is a prefix of the input that does not end with white space, and everything removed is white space |
| Input.Trim | script.js:253 | `raw.trim()`; `Input.TrimEmpty` states when it is empty |
| Input.TrimStartEmpty | script.js:253 | trimming the start leaves nothing exactly when every character is white space |
| Input.TrimEndEmpty | script.js:253 | trimming the end leaves nothing exactly when every character is white space |
| Input.TrimEmpty | script.js:253-254 | `trim()` yields the empty string exactly when the answer is white space only |
| Engine.Countdown | script.js:387-406 | an expiry is armed exactly when the timer is enabled, due `(timerSeconds or 15) * 1000` ms from now |
| Engine.Initial | script.js:192-206 | a new session holds the deck as its queue, is active, has an empty log, no current card and no countdown |
| Engine.InitialInv | script.js:192-206 | a new session satisfies the counter invariant |
| Engine.Inv | script.js:290-320 | the invariant of every reachable session: `asked == correct + incorrect` and `asked` equals the log's length, `correct` is the number of correct entries, every entry is well formed, and an expiry is armed only for a shown card of a timed session; the `…KeepsInv` lemmas state that every transition keeps it |
| Engine.Record | script.js:345-352 | the `lastSession` record `endSession` stores; `Engine.EndSpec` and `Players.Finished` state where it goes |
| Engine.EndSpec | script.js:340-358 | ending discards the session and writes `Finished` to the players; the countdown is cleared only when there is an active player; nothing else changes |
| Engine.NextCardSpec | script.js:215-228 | the transition of `nextCard`; `Engine.NextCardEnds`, `Engine.NextCardPresents` and `Engine.NextCardKeepsInv` state its properties |
| Engine.Logged | script.js:284-300 | the logging part of `finalizeAttempt`; `Engine.FinalizeLogsOnce` states its effect on the counters and the log |
| Engine.Resolve | script.js:301-320 | the requeueing part of `finalizeAttempt`; `Engine.FinalizeCorrectAdvances`, `Engine.FinalizeWrongRetries` and `Engine.FinalizeTimeoutFreezes` state its effect on the card and the queue |
| Engine.Recorded | script.js:284-323 | logging and requeueing together, with the card no longer marked done; `Engine.RecordedKeepsInv` states it keeps the invariant |
| Engine.FollowUpSpec | script.js:321-337 | the closing advance, retry or freeze of `finalizeAttempt`; `Engine.FollowUpKeepsInv` and the three `Finalize…` outcome lemmas state its properties |
| Engine.FinalizeSpec | script.js:282-338 | the transition of `finalizeAttempt`; `Engine.FinalizeNoOp`, `Engine.FinalizeLogsOnce`, `Engine.FinalizeKeepsInv` and the outcome lemmas state its properties |
| Engine.SubmitSpec | script.js:250-261 | the transition of `handleSubmit`; `Engine.SubmitValidates` and `Engine.SubmitKeepsInv` state its properties |
| Engine.EndKeepsInv | script.js:340-358 | ending keeps the counter invariant |
| Engine.NextCardKeepsInv | script.js:215-228 | `nextCard` keeps the counter invariant |
| Engine.RecordedKeepsInv | script.js:284-320 | recording an attempt keeps `asked == correct + incorrect` and `asked` equals the log's length and the correct count |
| Engine.FollowUpKeepsInv | script.js:321-337 | each of the three follow-ups keeps the invariant |
| Engine.FinalizeKeepsInv | script.js:282-338 | `finalizeAttempt` keeps the counter invariant |
| Engine.SubmitKeepsInv | script.js:250-261 | `handleSubmit` keeps the counter invariant |
| Engine.FinalizeUnfolds | script.js:284-337 | finalizing a pending card is the follow-up of its outcome applied to the recorded state, with the same random draws |
| Engine.FinalizeNoOp | script.js:283 | with no pending card (none shown, already resolved, or session over) finalizing changes nothing |
| Engine.SubmitValidates | script.js:252-260 | white-space-only input changes nothing; any other input finalizes the card with the parsed value |
| Engine.FinalizeLogsOnce | script.js:290-320 | one resolution appends exactly the attempt record, with non-negative duration, raises `asked` by one and exactly one of `correct`/`incorrect`, and leaves the card undone |
| Engine.FinalizeCorrectAdvances | script.js:301-324 | a correct answer extends the streak, requeues through `AfterCorrect` with the incremented count, disarms the countdown and hands over to `nextCard` |
| Engine.FinalizeWrongRetries | script.js:309-330 | a wrong answer zeroes the streak, puts two clones back at `min(2,len)` and `min(4,len+1)`, keeps the same card pending, restarts its clock and re-arms exactly when the timer is enabled |
| Engine.FinalizeTimeoutFreezes | script.js:309-337 | an expiry logs a timeout, never a correct answer, requeues two clones, and stays on the card with no countdown and the old start time |
| Engine.NextCardEnds | script.js:216-220 | `nextCard` ends the session exactly when the target is reached or the queue is empty, and then writes the end-of-session players |
| Engine.NextCardPresents | script.js:221-226 | otherwise one card leaves the queue and becomes current with `seen` one higher, pending, timed from now, with the deadline the countdown from now (none when the timer is off); for a queue longer than four the card drawn is the front card and the rest of the queue ahead of the reshuffled last four shifts up by one; `asked`, `correct`, `incorrect`, the log and the players are untouched |
| Engine.EndedIsFinal | script.js:355-356 | an ended session draws nothing and ignores `nextCard`, finalization and submission |
| Engine.RetryPassesTarget | script.js:309-330 | a miss once the target is reached still counts a question and keeps the card pending, so `asked` passes the target |
| Sessions.Session.constructor | script.js:192-206 | the fresh session is `Initial(deck)` with the default target and the store's timer settings |
| Sessions.Session.StartCountdown | script.js:387-406 | the armed deadline is `Countdown(now)` |
| Sessions.Session.ClearCountdown | script.js:409-415 | no expiry remains armed |
| Sessions.Session.ShuffleTail | script.js:230-235 | the queue becomes `TailShuffled` of the old queue |
| Sessions.Session.MaybeReinsertCard | script.js:263-270 | the queue becomes `AfterCorrect` of the old queue |
| Sessions.Session.RequeueMiss | script.js:272-280 | the queue becomes `AfterMiss` of the old queue |
| Sessions.Session.EndSession | script.js:340-358 | the session and players become `EndSpec` of the old ones, and the invariant holds |
| Sessions.Session.NextCard | script.js:215-228 | the session and players become `NextCardSpec` of the old ones, and the invariant holds |
| Sessions.Session.LogAttempt | script.js:284-300 | the result is the classification, and the state becomes `Logged` of the old state |
| Sessions.Session.ResolveCard | script.js:301-320 | the state becomes `Resolve` of the old state |
| Sessions.Session.FollowUp | script.js:321-337 | the session and players become `FollowUpSpec` of the recorded state, and the invariant holds |
| Sessions.Session.FinalizeAttempt | script.js:282-338 | the session and players become `FinalizeSpec` of the old ones, and the invariant holds |
| Sessions.Session.HandleSubmit | script.js:250-261 | the session and players become `SubmitSpec` of the old ones, and the invariant holds |
| Sessions.Session.OnExpiry | script.js:404-406 | the expiry callback, fired at or after the armed deadline, is `finalizeAttempt` with no answer and `expired` set |
| Sessions.ShuffledDeck | script.js:190-191 | the cards are the built deck shuffled once more, a permutation of it |
| Sessions.StartSession | script.js:184-213 | without an active player no session starts; otherwise a fresh, valid session presents its first card from the doubly shuffled deck, and the players are unchanged |

## Left out

- Rendering is not modelled: `showPanel`, `renderPrompt`, `renderSessionMeta`, `renderSummary`, `updatePlayerSelect`, feedback texts and the timer label. These are display only.
- `renderSummary`'s accuracy percentage is not modelled. It is floating-point rounding shown on screen.
- `loadStore`, `saveStore`, `localStorage` and JSON parsing are not modelled. The `Store` class stands for the store already in memory.
- `setActivePlayer` and `addPlayer` are not modelled. They drive the page and storage, and `addPlayer` builds its id from the clock and `Math.random`.
- `playSound` and the audio context are not modelled. They are a foreign API.
- The event listeners at the end of `script.js` are not modelled. They are page glue; `OnExpiry` stands for the expiry callback.
- The 200 ms `setInterval` tick and its remaining-seconds label are not modelled. An armed countdown is kept as its deadline `expiryAt`, and clearing it sets `None`.
- `Number(raw)` is not modelled. The caller passes its value as `Submitted`: `Absent`, an integer, or `NotInteger` for any non-integral number or NaN.
- `finishedAt` is not an ISO date string. It is the millisecond clock value `now`.
- `session = null` becomes `active := false`, and every entry point treats an inactive session as no session.
- Cards are values rather than shared objects. Every queue entry in the source is its own copy (`{ ...card }`), and the card being answered has already been shifted off the queue, so no update is seen through two references.
- The uniform distribution of the Fisher–Yates shuffle is not modelled. Only the permutations it can produce, given the draws, are.
- `Requeue.ReinsertIndex`: computes `floor(len * 0.6)` exactly as `3 * len / 5`. The double-precision product rounds to the same integer for every length a queue can reach.
- `Cards.StatsOf`: a stored stats entry always has both fields as integers. The `|| 0` fallbacks for missing fields are therefore not modelled.

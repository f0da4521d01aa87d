/**
 * How a session queue is rearranged: the clone put back after a correct
 * answer, the two clones put back after a miss, and the reshuffle of the
 * last few queue entries before each card is drawn. Each operation is a
 * `splice`, `shift` or `push` on the queue, written here on sequences.
 */
module Requeue {
  import opened Wrappers
  import opened Cards
  import opened Shuffle

  /** `queue.splice(i, 0, x)`. */
  function Insert<T>(q: seq<T>, i: nat, x: T): (r: seq<T>)
    requires i <= |q|
    ensures |r| == |q| + 1 && r[i] == x
  {
    q[..i] + [x] + q[i..]
  }

  /** The splice shifts the entries from `i` on one place back and adds one copy of `x`. */
  lemma InsertPlaces<T>(q: seq<T>, i: nat, x: T)
    requires i <= |q|
    ensures forall k :: 0 <= k < i ==> Insert(q, i, x)[k] == q[k]
    ensures forall k :: i < k < |q| + 1 ==> Insert(q, i, x)[k] == q[k - 1]
    ensures multiset(Insert(q, i, x)) == multiset(q) + multiset{x}
  {
    assert q == q[..i] + q[i..];
  }

  /** Where the clone of a correctly answered card goes: `min(len, floor(len * 0.6) + 1)`. */
  function ReinsertIndex(len: nat): (i: nat)
    ensures i <= len
    ensures len > 0 ==> i >= 1
    ensures len >= 3 ==> i < len
  {
    Min(len, 3 * len / 5 + 1)
  }

  /** A correct answer earns a clone while its streak is below 3 and questions remain. */
  predicate NeedsMore(c: Card, asked: int, target: int)
  {
    c.streak < 3 && asked < target
  }

  /** `maybeReinsertCard` on the queue; `asked` is the already incremented count. */
  function AfterCorrect(q: seq<Card>, c: Card, asked: int, target: int): (r: seq<Card>)
    ensures |r| == |q| + 1 <==> NeedsMore(c, asked, target)
    ensures !NeedsMore(c, asked, target) ==> r == q
    ensures NeedsMore(c, asked, target) ==> r[ReinsertIndex(|q|)] == c
  {
    if NeedsMore(c, asked, target) then Insert(q, ReinsertIndex(|q|), c) else q
  }

  /** Around the clone the queue keeps its order, and its contents grow by the clone alone. */
  lemma AfterCorrectPlaces(q: seq<Card>, c: Card, asked: int, target: int)
    ensures NeedsMore(c, asked, target) ==>
              var k := ReinsertIndex(|q|);
              var r := AfterCorrect(q, c, asked, target);
              (forall j :: 0 <= j < k ==> r[j] == q[j]) &&
              (forall j :: k < j < |r| ==> r[j] == q[j - 1])
    ensures multiset(AfterCorrect(q, c, asked, target)) ==
              multiset(q) + (if NeedsMore(c, asked, target) then multiset{c} else multiset{})
  {
    if NeedsMore(c, asked, target) {
      InsertPlaces(q, ReinsertIndex(|q|), c);
    }
  }

  /** Where the first clone of a missed card goes: `min(2, len)`. */
  function FirstMissSpot(len: nat): nat
  {
    Min(2, len)
  }

  /** Where the second clone goes, once the first is in: `min(4, len + 1)`. */
  function SecondMissSpot(len: nat): nat
  {
    Min(4, len + 1)
  }

  /** `requeueMiss` on the queue: two clones, one near the front and one just behind it. */
  function AfterMiss(q: seq<Card>, c: Card): (r: seq<Card>)
    ensures |r| == |q| + 2
    ensures FirstMissSpot(|q|) < SecondMissSpot(|q|)
    ensures r[FirstMissSpot(|q|)] == c && r[SecondMissSpot(|q|)] == c
  {
    var q1 := Insert(q, FirstMissSpot(|q|), c);
    InsertPlaces(q, FirstMissSpot(|q|), c);
    Insert(q1, Min(4, |q1|), c)
  }

  /** Apart from the two clones the queue keeps its order, and its contents grow by two copies of `c`. */
  lemma AfterMissPlaces(q: seq<Card>, c: Card)
    ensures var r := AfterMiss(q, c);
            (forall j :: 0 <= j < FirstMissSpot(|q|) ==> r[j] == q[j]) &&
            (forall j :: FirstMissSpot(|q|) < j < SecondMissSpot(|q|) ==> r[j] == q[j - 1]) &&
            (forall j :: SecondMissSpot(|q|) < j < |r| ==> r[j] == q[j - 2])
    ensures multiset(AfterMiss(q, c)) == multiset(q) + multiset{c, c}
  {
    var q1 := Insert(q, FirstMissSpot(|q|), c);
    InsertPlaces(q, FirstMissSpot(|q|), c);
    InsertPlaces(q1, Min(4, |q1|), c);
  }

  /** The window `shuffleTail` is called with. */
  const TAIL_WINDOW := 4

  /** How many trailing entries `shuffleTail` reshuffles: none for a queue of at most two. */
  function TailLen(len: nat): (t: nat)
    ensures t <= len
    ensures len <= 2 <==> t == 0
  {
    if len <= 2 then 0 else Min(TAIL_WINDOW, len)
  }

  /** `shuffleTail(queue, 4)`: splice off the last entries, shuffle them, push them back. */
  function TailShuffled(q: seq<Card>, picks: seq<nat>): (r: seq<Card>)
    requires ValidPicks(TailLen(|q|), picks)
  {
    var t := TailLen(|q|);
    if t == 0 then q else q[..|q| - t] + Shuffled(q[|q| - t..], picks)
  }

  /** The tail shuffle keeps the queue's length and contents and all but its last four entries. */
  lemma TailShuffledKeeps(q: seq<Card>, picks: seq<nat>)
    requires ValidPicks(TailLen(|q|), picks)
    ensures |TailShuffled(q, picks)| == |q|
    ensures multiset(TailShuffled(q, picks)) == multiset(q)
    ensures |q| <= 2 ==> TailShuffled(q, picks) == q
    ensures forall k :: 0 <= k < |q| - TAIL_WINDOW ==> TailShuffled(q, picks)[k] == q[k]
  {
    var t := TailLen(|q|);
    if t > 0 {
      var tail := q[|q| - t..];
      ShuffledPermutes(tail, picks);
      assert q == q[..|q| - t] + tail;
    }
  }

  /**
   * When a correct answer earns a clone and the queue held at least four
   * cards, the next card drawn is the old front: it lies outside the
   * reshuffled tail and the clone goes in behind it.
   */
  lemma CloneNotDrawnNext(q: seq<Card>, c: Card, asked: int, target: int, picks: seq<nat>)
    requires |q| >= 4 && NeedsMore(c, asked, target)
    requires ValidPicks(TailLen(|AfterCorrect(q, c, asked, target)|), picks)
    ensures TailShuffled(AfterCorrect(q, c, asked, target), picks)[0] == q[0]
  {
    var r := AfterCorrect(q, c, asked, target);
    TailShuffledKeeps(r, picks);
    AfterCorrectPlaces(q, c, asked, target);
    assert r[0] == q[0];
  }
}

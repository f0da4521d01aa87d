/**
 * `updatePlayerStats`: at the end of a session every attempt of the log is
 * folded, in order, into the player's per-fact `(streak, misses)` map.
 */
module Mastery {
  import opened Cards

  /** One attempt folded into the map: a correct one extends the streak, any other resets it and adds a miss. */
  function Apply(m: map<Fact, Stats>, at: Attempt): (m': map<Fact, Stats>)
    ensures m'.Keys == m.Keys + {KeyOf(at)}
    ensures forall f :: f in m && f != KeyOf(at) ==> m'[f] == m[f]
  {
    var s := StatsOf(m, KeyOf(at));
    m[KeyOf(at) := if at.result == Correct then s.(streak := s.streak + 1) else Stats(0, s.misses + 1)]
  }

  /** The map after folding the whole log from left to right. */
  function Fold(m: map<Fact, Stats>, h: seq<Attempt>): map<Fact, Stats>
  {
    if h == [] then m else Apply(Fold(m, h[..|h| - 1]), h[|h| - 1])
  }

  /** Non-correct attempts on `f` in the log. */
  function Misses(h: seq<Attempt>, f: Fact): nat
  {
    if h == [] then 0
    else Misses(h[..|h| - 1], f) + (if KeyOf(h[|h| - 1]) == f && h[|h| - 1].result != Correct then 1 else 0)
  }

  /** Correct attempts on `f` in the log. */
  function Corrects(h: seq<Attempt>, f: Fact): nat
  {
    if h == [] then 0
    else Corrects(h[..|h| - 1], f) + (if KeyOf(h[|h| - 1]) == f && h[|h| - 1].result == Correct then 1 else 0)
  }

  /** The `forEach` loop of `updatePlayerStats`, which rewrites the map entry by entry. */
  method UpdatePlayerStats(factStreaks: map<Fact, Stats>, history: seq<Attempt>) returns (m: map<Fact, Stats>)
    ensures m == Fold(factStreaks, history)
  {
    m := factStreaks;
    var i := 0;
    while i < |history|
      invariant 0 <= i <= |history|
      invariant m == Fold(factStreaks, history[..i])
    {
      var attempt := history[i];
      var key := KeyOf(attempt);
      var stats := StatsOf(m, key);
      if attempt.result == Correct {
        stats := stats.(streak := stats.streak + 1);
      } else {
        stats := stats.(streak := 0, misses := stats.misses + 1);
      }
      m := m[key := stats];
      assert history[..i + 1][..i] == history[..i];
      i := i + 1;
    }
    assert history[..i] == history;
  }

  /** Folding a concatenated log is folding its parts one after the other. */
  lemma {:induction false} FoldAppend(m: map<Fact, Stats>, h1: seq<Attempt>, h2: seq<Attempt>)
    ensures Fold(m, h1 + h2) == Fold(Fold(m, h1), h2)
  {
    if h2 == [] {
      assert h1 + h2 == h1;
    } else {
      var h, p := h1 + h2, h2[..|h2| - 1];
      assert h[..|h| - 1] == h1 + p;
      assert h[|h| - 1] == h2[|h2| - 1];
      calc {
        Fold(m, h);
        Apply(Fold(m, h1 + p), h2[|h2| - 1]);
        { FoldAppend(m, h1, p); }
        Apply(Fold(Fold(m, h1), p), h2[|h2| - 1]);
        Fold(Fold(m, h1), h2);
      }
    }
  }

  /** A fact's misses grow by exactly its number of non-correct attempts. */
  lemma {:induction false} FoldMisses(m: map<Fact, Stats>, h: seq<Attempt>, f: Fact)
    ensures StatsOf(Fold(m, h), f).misses == StatsOf(m, f).misses + Misses(h, f)
  {
    if h != [] {
      FoldMisses(m, h[..|h| - 1], f);
    }
  }

  /** Misses never decrease. */
  lemma MissesNeverDecrease(m: map<Fact, Stats>, h: seq<Attempt>, f: Fact)
    ensures StatsOf(Fold(m, h), f).misses >= StatsOf(m, f).misses
  {
    FoldMisses(m, h, f);
  }

  /** A fact with no attempt in the log keeps its entry, or its absence. */
  lemma {:induction false} FoldUntouched(m: map<Fact, Stats>, h: seq<Attempt>, f: Fact)
    requires forall i :: 0 <= i < |h| ==> KeyOf(h[i]) != f
    ensures f in Fold(m, h) <==> f in m
    ensures f in m ==> Fold(m, h)[f] == m[f]
  {
    if h != [] {
      FoldUntouched(m, h[..|h| - 1], f);
    }
  }

  /** The keys after the fold: the old keys and every fact attempted. */
  lemma {:induction false} FoldKeys(m: map<Fact, Stats>, h: seq<Attempt>)
    ensures Fold(m, h).Keys == m.Keys + set i | 0 <= i < |h| :: KeyOf(h[i])
  {
    if h != [] {
      var p := h[..|h| - 1];
      FoldKeys(m, p);
      var all, front := set i | 0 <= i < |h| :: KeyOf(h[i]), set i | 0 <= i < |p| :: KeyOf(p[i]);
      forall f
        ensures f in all <==> f in front || f == KeyOf(h[|h| - 1])
      {
        if f in all {
          var i :| 0 <= i < |h| && KeyOf(h[i]) == f;
          if i < |p| {
            assert KeyOf(p[i]) == f;
          }
        }
        if f in front {
          var i :| 0 <= i < |p| && KeyOf(p[i]) == f;
          assert KeyOf(h[i]) == f;
        }
      }
      assert all == front + {KeyOf(h[|h| - 1])};
    }
  }

  /** Without a miss on `f`, its streak grows by its number of correct attempts. */
  lemma {:induction false} FoldStreakNoMiss(m: map<Fact, Stats>, h: seq<Attempt>, f: Fact)
    requires Misses(h, f) == 0
    ensures StatsOf(Fold(m, h), f).streak == StatsOf(m, f).streak + Corrects(h, f)
  {
    if h != [] {
      FoldStreakNoMiss(m, h[..|h| - 1], f);
    }
  }

  /** After the last miss on `f`, its streak counts only the correct attempts that follow. */
  lemma FoldStreakAfterMiss(m: map<Fact, Stats>, h: seq<Attempt>, f: Fact, i: nat)
    requires i < |h| && KeyOf(h[i]) == f && h[i].result != Correct
    requires Misses(h[i + 1..], f) == 0
    ensures StatsOf(Fold(m, h), f).streak == Corrects(h[i + 1..], f)
  {
    assert h == h[..i + 1] + h[i + 1..];
    assert h[..i + 1][..i] == h[..i];
    FoldAppend(m, h[..i + 1], h[i + 1..]);
    var before := Fold(m, h[..i + 1]);
    assert StatsOf(before, f).streak == 0;
    FoldStreakNoMiss(before, h[i + 1..], f);
  }
}

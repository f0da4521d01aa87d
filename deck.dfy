/** `buildDeck`: the cards a session starts from. */
module Deck {
  import opened Cards
  import opened Shuffle

  /** One table: ten facts; the whole grid: trimmed to twenty for short sessions. */
  function DeckSize(mode: Mode): nat
  {
    if mode == Single then 10 else 20
  }

  /** The facts `(1, table) … (10, table)` in order. */
  function Row(table: int): (r: seq<Fact>)
    ensures |r| == 10
    ensures forall i :: 0 <= i < 10 ==> r[i] == Fact(i + 1, table)
  {
    seq(10, i => Fact(i + 1, table))
  }

  /** The first `n` facts of the 10×10 grid in the nested loops' order (a outer, b inner). */
  function GridPrefix(n: nat): (r: seq<Fact>)
    ensures |r| == n
  {
    seq(n, k => Fact(k / 10 + 1, k % 10 + 1))
  }

  function Grid(): seq<Fact>
  {
    GridPrefix(100)
  }

  /** The grid holds each fact with operands in 1..10 exactly once. */
  lemma GridFacts()
    ensures Distinct(Grid())
    ensures forall f: Fact :: f in Grid() <==> 1 <= f.a <= 10 && 1 <= f.b <= 10
  {
    var g := Grid();
    forall i, j | 0 <= i < j < 100
      ensures g[i] != g[j]
    {
      assert i == 10 * (i / 10) + i % 10;
      assert j == 10 * (j / 10) + j % 10;
    }
    forall f: Fact | 1 <= f.a <= 10 && 1 <= f.b <= 10
      ensures f in g
    {
      var k := 10 * (f.a - 1) + (f.b - 1);
      assert k / 10 == f.a - 1 && k % 10 == f.b - 1;
      assert g[k] == f;
    }
  }

  /** The `.map` that turns facts into cards. */
  function CardsFor(facts: seq<Fact>, m: map<Fact, Stats>): (deck: seq<Card>)
    ensures |deck| == |facts|
    ensures forall i :: 0 <= i < |facts| ==> deck[i] == CardFor(facts[i], m)
  {
    seq(|facts|, i requires 0 <= i < |facts| => CardFor(facts[i], m))
  }

  /** The draws `buildDeck` consumes: a full shuffle of the grid in mixed mode, none otherwise. */
  predicate DeckPicks(mode: Mode, picks: seq<nat>)
  {
    if mode == Single then picks == [] else ValidPicks(100, picks)
  }

  /** The deck `buildDeck` deals: the row of the table, or the first 20 facts of the shuffled grid. */
  function DeckSpec(mode: Mode, table: int, m: map<Fact, Stats>, picks: seq<nat>): seq<Card>
    requires DeckPicks(mode, picks)
  {
    if mode == Single then CardsFor(Row(table), m) else CardsFor(Shuffled(Grid(), picks)[..20], m)
  }

  method BuildDeck(mode: Mode, table: int, m: map<Fact, Stats>, picks: seq<nat>) returns (deck: seq<Card>)
    requires DeckPicks(mode, picks)
    ensures deck == DeckSpec(mode, table, m, picks)
    ensures |deck| == DeckSize(mode)
    ensures forall i :: 0 <= i < |deck| ==> deck[i] == CardFor(FactOf(deck[i]), m)
    ensures forall i :: 0 <= i < |deck| ==> deck[i].seen == 0
    ensures mode == Single ==> forall i :: 0 <= i < |deck| ==> FactOf(deck[i]) == Fact(i + 1, table)
    ensures mode == Mixed ==> forall i :: 0 <= i < |deck| ==> 1 <= deck[i].a <= 10 && 1 <= deck[i].b <= 10
    ensures mode == Mixed ==> forall i, j :: 0 <= i < j < |deck| ==> FactOf(deck[i]) != FactOf(deck[j])
  {
    var facts: seq<Fact> := [];
    if mode == Single {
      var a := 1;
      while a <= 10
        invariant 1 <= a <= 11
        invariant facts == Row(table)[..a - 1]
      {
        facts := facts + [Fact(a, table)];
        a := a + 1;
      }
      assert facts == Row(table);
    } else {
      var a := 1;
      while a <= 10
        invariant 1 <= a <= 11
        invariant facts == GridPrefix(10 * (a - 1))
      {
        var b := 1;
        while b <= 10
          invariant 1 <= b <= 11
          invariant facts == GridPrefix(10 * (a - 1) + b - 1)
        {
          ghost var k := 10 * (a - 1) + b - 1;
          assert k / 10 == a - 1 && k % 10 == b - 1;
          facts := facts + [Fact(a, b)];
          b := b + 1;
        }
        a := a + 1;
      }
      assert facts == Grid();
      var arr := new Fact[|facts|](i requires 0 <= i < |facts| => facts[i]);
      assert arr[..] == facts;
      ShuffleArray(arr, picks);
      facts := arr[..20];
      GridFacts();
      ShuffledPermutes(Grid(), picks);
      assert forall i :: 0 <= i < 20 ==> facts[i] in Shuffled(Grid(), picks);
    }
    deck := CardsFor(facts, m);
  }
}

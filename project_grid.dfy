/** The project cards of the gallery as the filter and the "Load more" pager see
    them. A card is a DOM element with a `data-project` attribute (its categories), the
    class "hidden" (set by the filter) and the class "pager-hidden" (set by the pager);
    `id` stands for the element's identity. The grid element is a `Gallery` whose
    `cards` are its `.project-card` children in document order. */
module ProjectGrid {
  import opened Wrappers
  import opened Text
  import Helpers

  datatype Card = Card(id: nat, project: Option<string>, hidden: bool, pagerHidden: bool)

  class Gallery {
    var cards: seq<Card>

    constructor (cards: seq<Card>)
      ensures this.cards == cards
    {
      this.cards := cards;
    }
  }

  /** `norm(c.dataset.project).split(/\s+/)`. The normalised value has no whitespace at
      either end, so the split yields its words; the one exception is the empty value,
      which splits into a single empty string. */
  function Categories(project: Option<string>): (cats: seq<string>)
    ensures Helpers.Norm(project) == [] ==> cats == [[]]
    ensures Helpers.Norm(project) != [] ==> cats == Tokens(Helpers.Norm(project))
  {
    var n := Helpers.Norm(project);
    if n == [] then [[]] else Tokens(n)
  }

  /** `v === "all" || cats.includes(v)`. */
  predicate Matches(v: string, c: Card) {
    v == "all" || v in Categories(c.project)
  }

  /** The cards without the class "hidden", in order (`visibleCards()`). */
  function Visible(cards: seq<Card>): (r: seq<Card>)
    ensures |r| <= |cards|
  {
    if cards == [] then []
    else (if cards[0].hidden then [] else [cards[0]]) + Visible(cards[1..])
  }

  function VisibleCount(cards: seq<Card>): nat {
    |Visible(cards)|
  }

  lemma {:induction false} VisibleAppend(a: seq<Card>, b: seq<Card>)
    ensures Visible(a + b) == Visible(a) + Visible(b)
  {
    if a == [] {
      assert a + b == b;
    } else {
      assert (a + b)[0] == a[0] && (a + b)[1..] == a[1..] + b;
      VisibleAppend(a[1..], b);
    }
  }

  /** The identities of the cards, in order. */
  function Ids(cards: seq<Card>): (ids: seq<nat>)
    ensures |ids| == |cards|
  {
    if cards == [] then [] else [cards[0].id] + Ids(cards[1..])
  }

  lemma {:induction false} IdsAppend(a: seq<Card>, b: seq<Card>)
    ensures Ids(a + b) == Ids(a) + Ids(b)
  {
    if a == [] {
      assert a + b == b;
    } else {
      assert (a + b)[0] == a[0] && (a + b)[1..] == a[1..] + b;
      IdsAppend(a[1..], b);
      assert [a[0].id] + (Ids(a[1..]) + Ids(b)) == ([a[0].id] + Ids(a[1..])) + Ids(b);
    }
  }

  /** A visible card is a card of the list without the class "hidden". */
  lemma {:induction false} VisibleMembers(cards: seq<Card>, c: Card)
    ensures c in Visible(cards) <==> c in cards && !c.hidden
  {
    if cards != [] {
      VisibleMembers(cards[1..], c);
      assert cards == [cards[0]] + cards[1..];
    }
  }

  /** No two cards are the same element. */
  predicate DistinctIds(cards: seq<Card>) {
    forall i, j :: 0 <= i < j < |cards| ==> cards[i].id != cards[j].id
  }
}

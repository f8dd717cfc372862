/** The "Load more" pager of the project gallery (src/js/modules/project-loader.js,
    `initProjectsLoadMore`); src/js/main.js lines 543-608 hold a verbatim copy. The
    pager shows the first `shownCount` cards that the filter left visible, marks every
    other card "pager-hidden", and shows its button while cards remain. */
module ProjectLoader {
  import opened ProjectGrid

  /** `perPage = 3`, the default and the value src/js/main.js passes. */
  const DefaultPerPage: int := 3

  function Min(a: int, b: int): int { if a <= b then a else b }
  function Max(a: int, b: int): int { if a <= b then b else a }

  /** The card at index k after `apply(limit)`: a visible card is shown exactly when
      fewer than `limit` visible cards precede it; a hidden card is always pager-hidden. */
  function LimitCard(cards: seq<Card>, k: nat, limit: int): Card
    requires k < |cards|
  {
    cards[k].(pagerHidden := cards[k].hidden || VisibleCount(cards[..k]) >= limit)
  }

  /** The cards after `apply(limit)`. */
  function Limited(cards: seq<Card>, limit: int): (r: seq<Card>)
    ensures |r| == |cards|
    ensures forall k :: 0 <= k < |r| ==> r[k].id == cards[k].id && r[k].hidden == cards[k].hidden
  {
    seq(|cards|, k requires 0 <= k < |cards| => LimitCard(cards, k, limit))
  }

  /** The number of cards without "pager-hidden". */
  function Displayed(cards: seq<Card>): nat
    decreases |cards|
  {
    if cards == [] then 0
    else Displayed(cards[..|cards| - 1]) + (if cards[|cards| - 1].pagerHidden then 0 else 1)
  }

  // ---------------------------------------------------------------------------
  // Properties of apply

  lemma {:induction false} LimitedSnoc(cards: seq<Card>, c: Card, limit: int)
    ensures Limited(cards + [c], limit) ==
      Limited(cards, limit) + [c.(pagerHidden := c.hidden || VisibleCount(cards) >= limit)]
  {
    var s := cards + [c];
    assert s[..|cards|] == cards;
    forall k | 0 <= k < |cards|
      ensures Limited(s, limit)[k] == Limited(cards, limit)[k]
    {
      assert s[..k] == cards[..k];
    }
  }

  /** `apply` changes nothing but the "pager-hidden" class. */
  lemma {:induction false} LimitedOnlyPagerHidden(cards: seq<Card>, limit: int)
    ensures |Limited(cards, limit)| == |cards|
    ensures forall k :: 0 <= k < |cards| ==>
      Limited(cards, limit)[k].(pagerHidden := cards[k].pagerHidden) == cards[k]
  {
  }

  /** After `apply`, every card the filter hid is pager-hidden too. */
  lemma {:induction false} LimitedHidesHidden(cards: seq<Card>, limit: int)
    ensures forall k :: 0 <= k < |cards| && cards[k].hidden ==> Limited(cards, limit)[k].pagerHidden
  {
  }

  /** `apply` leaves the number of visible cards alone. */
  lemma {:induction false} LimitedKeepsVisible(cards: seq<Card>, limit: int)
    ensures VisibleCount(Limited(cards, limit)) == VisibleCount(cards)
    decreases |cards|
  {
    if cards != [] {
      var n := |cards| - 1;
      var s, c := cards[..n], cards[n];
      assert cards == s + [c];
      LimitedKeepsVisible(s, limit);
      LimitedSnoc(s, c, limit);
      VisibleAppend(s, [c]);
      VisibleAppend(Limited(s, limit), [c.(pagerHidden := c.hidden || VisibleCount(s) >= limit)]);
    }
  }

  /** Exactly `min(limit, total)` cards are displayed, `total` being the number of
      visible cards (none for a negative limit). */
  lemma {:induction false} LimitedDisplayed(cards: seq<Card>, limit: int)
    ensures Displayed(Limited(cards, limit)) == Min(Max(limit, 0), VisibleCount(cards))
    decreases |cards|
  {
    if cards != [] {
      var n := |cards| - 1;
      var s, c := cards[..n], cards[n];
      assert cards == s + [c];
      LimitedDisplayed(s, limit);
      LimitedSnoc(s, c, limit);
      VisibleAppend(s, [c]);
      var l := Limited(cards, limit);
      assert l[..n] == Limited(s, limit);
    }
  }

  /** The j-th visible card is displayed exactly when j < limit: the displayed cards
      are a prefix of the visible ones. */
  lemma {:induction false} LimitedPrefix(cards: seq<Card>, limit: int)
    ensures var vis := Visible(Limited(cards, limit));
      forall j :: 0 <= j < |vis| ==> (vis[j].pagerHidden <==> j >= limit)
    decreases |cards|
  {
    if cards != [] {
      var n := |cards| - 1;
      var s, c := cards[..n], cards[n];
      assert cards == s + [c];
      LimitedPrefix(s, limit);
      LimitedKeepsVisible(s, limit);
      LimitedSnoc(s, c, limit);
      var c' := c.(pagerHidden := c.hidden || VisibleCount(s) >= limit);
      VisibleAppend(Limited(s, limit), [c']);
    }
  }

  // ---------------------------------------------------------------------------
  // The count `showMore` moves to

  /** `Math.min(total, shownCount + perPage)`. */
  function NextCount(shown: int, total: int, perPage: int): (r: int)
    ensures r <= total
    ensures perPage >= 0 ==> Min(shown, total) <= r
  {
    Min(total, shown + perPage)
  }

  /** `k` clicks of the button. */
  function Clicks(k: nat, shown: int, total: int, perPage: int): int {
    if k == 0 then shown else NextCount(Clicks(k - 1, shown, total, perPage), total, perPage)
  }

  /** Each click shows at least one more card until all are shown. */
  lemma {:induction false} ClicksProgress(k: nat, shown: int, total: int, perPage: int)
    requires perPage >= 1 && k >= 1
    ensures Min(total, shown + k) <= Clicks(k, shown, total, perPage) <= total
  {
    if k > 1 {
      ClicksProgress(k - 1, shown, total, perPage);
    }
  }

  /** Enough clicks show every visible card, and the button disappears. */
  lemma {:induction false} ClicksReachTotal(k: nat, shown: int, total: int, perPage: int)
    requires perPage >= 1 && k >= 1 && shown + k >= total
    ensures Clicks(k, shown, total, perPage) == total
  {
    ClicksProgress(k, shown, total, perPage);
  }

  /** Card k after the first loop of `apply`: only visible cards are touched. */
  function FirstPass(cards: seq<Card>, k: nat, limit: int): Card
    requires k < |cards|
  {
    if cards[k].hidden then cards[k] else LimitCard(cards, k, limit)
  }

  lemma {:induction false} CountStep(cards: seq<Card>, i: nat)
    requires i < |cards|
    ensures VisibleCount(cards[..i + 1]) == VisibleCount(cards[..i]) + (if cards[i].hidden then 0 else 1)
  {
    assert cards[..i + 1] == cards[..i] + [cards[i]];
    VisibleAppend(cards[..i], [cards[i]]);
  }

  // ---------------------------------------------------------------------------
  // The pager

  class Pager {
    const gallery: Gallery
    const perPage: int
    /** No element with id "load-more-projects" existed, so the pager made one. */
    const createdButton: bool
    var shownCount: int
    /** The button's display is "inline-block" rather than "none". */
    var buttonVisible: bool

    /** The tail of `initProjectsLoadMore` for an existing grid: create the button
        unless there is one, start at `perPage` and run `reset()`. */
    constructor (gallery: Gallery, perPage: int, buttonExists: bool)
      modifies gallery
      ensures this.gallery == gallery && this.perPage == perPage && createdButton == !buttonExists
      ensures shownCount == perPage && gallery.cards == Limited(old(gallery.cards), perPage)
      ensures !buttonVisible <==> shownCount >= VisibleCount(gallery.cards)
    {
      this.gallery := gallery;
      this.perPage := perPage;
      createdButton := !buttonExists;
      shownCount := perPage;
      buttonVisible := false;
      new;
      Reset();
    }

    /** `apply(limit)`: the first loop walks the visible cards with a counter, the
        second pager-hides every hidden card. */
    method Apply(limit: int)
      modifies gallery
      ensures gallery.cards == Limited(old(gallery.cards), limit)
    {
      var cards := gallery.cards;
      var shown := 0;
      var i := 0;
      while i < |cards|
        invariant 0 <= i <= |cards| && |gallery.cards| == |cards|
        invariant shown == VisibleCount(cards[..i])
        invariant forall k :: 0 <= k < i ==> gallery.cards[k] == FirstPass(cards, k, limit)
        invariant forall k :: i <= k < |cards| ==> gallery.cards[k] == cards[k]
      {
        CountStep(cards, i);
        if !cards[i].hidden {
          gallery.cards := gallery.cards[i := cards[i].(pagerHidden := shown >= limit)];
          shown := shown + 1;
        }
        i := i + 1;
      }
      var j := 0;
      while j < |cards|
        invariant 0 <= j <= |cards| && |gallery.cards| == |cards|
        invariant forall k :: 0 <= k < j ==> gallery.cards[k] == LimitCard(cards, k, limit)
        invariant forall k :: j <= k < |cards| ==> gallery.cards[k] == FirstPass(cards, k, limit)
      {
        if gallery.cards[j].hidden {
          gallery.cards := gallery.cards[j := gallery.cards[j].(pagerHidden := true)];
        }
        j := j + 1;
      }
    }

    /** `updateButton()`: hidden exactly when every visible card is within the count. */
    method UpdateButton()
      modifies this`buttonVisible
      ensures !buttonVisible <==> shownCount >= VisibleCount(gallery.cards)
    {
      var total := VisibleCount(gallery.cards);
      if shownCount >= total {
        buttonVisible := false;
      } else {
        buttonVisible := true;
      }
    }

    /** `reset()`: back to one page. */
    method Reset()
      modifies this, gallery
      ensures shownCount == perPage
      ensures gallery.cards == Limited(old(gallery.cards), perPage)
      ensures !buttonVisible <==> shownCount >= VisibleCount(gallery.cards)
    {
      shownCount := perPage;
      Apply(shownCount);
      UpdateButton();
    }

    /** `showMore()`, the button's click handler: one more page, never past the number
        of visible cards. */
    method ShowMore()
      modifies this, gallery
      ensures shownCount == NextCount(old(shownCount), VisibleCount(old(gallery.cards)), perPage)
      ensures shownCount <= VisibleCount(gallery.cards)
      ensures gallery.cards == Limited(old(gallery.cards), shownCount)
      ensures !buttonVisible <==> shownCount >= VisibleCount(gallery.cards)
    {
      var total := VisibleCount(gallery.cards);
      LimitedKeepsVisible(gallery.cards, Min(total, shownCount + perPage));
      shownCount := Min(total, shownCount + perPage);
      Apply(shownCount);
      UpdateButton();
    }
  }

  /** `initProjectsLoadMore(perPage)`: no grid, no pager. */
  method InitLoadMore(grid: Gallery?, perPage: int, buttonExists: bool) returns (p: Pager?)
    modifies grid
    ensures grid == null <==> p == null
    ensures p != null ==>
      && fresh(p) && p.gallery == grid && p.perPage == perPage && p.createdButton == !buttonExists
      && p.shownCount == perPage && grid.cards == Limited(old(grid.cards), perPage)
      && (!p.buttonVisible <==> p.shownCount >= VisibleCount(grid.cards))
  {
    if grid == null {
      return null;
    }
    p := new Pager(grid, perPage, buttonExists);
  }
}

/** The gallery rules as the two monolithic scripts wire them. src/main.js filters the
    card list it captured once at load (lines 118-138): cards added later are never
    filtered, and the captured cards are re-appended in load order rather than in
    their current order. src/js/main.js runs the initial filter before its pager
    exists and attaches the pager afterwards (lines 58, 184, 253-254). */
module MainCopies {
  import opened Wrappers
  import Helpers
  import opened ProjectGrid
  import opened ProjectLoader
  import opened ProjectFilters

  // ---------------------------------------------------------------------------
  // src/main.js: the captured card list

  /** The card with the given identity. */
  function Find(cards: seq<Card>, id: nat): (c: Card)
    requires id in Ids(cards)
    ensures c in cards && c.id == id
  {
    if cards[0].id == id then cards[0] else Find(cards[1..], id)
  }

  /** `cards` of src/main.js: distinct identities, all still in the grid. */
  predicate Captures(cards: seq<Card>, ids: seq<nat>) {
    && (forall k :: 0 <= k < |ids| ==> ids[k] in Ids(cards))
    && (forall j, k :: 0 <= j < k < |ids| ==> ids[j] != ids[k])
  }

  /** The captured elements in their current state, in capture order. */
  function Select(cards: seq<Card>, ids: seq<nat>): (r: seq<Card>)
    requires forall k :: 0 <= k < |ids| ==> ids[k] in Ids(cards)
    ensures |r| == |ids|
    ensures forall k :: 0 <= k < |ids| ==> r[k] == Find(cards, ids[k])
  {
    seq(|ids|, k requires 0 <= k < |ids| => Find(cards, ids[k]))
  }

  /** The cards of the grid that were not captured, in order. */
  function Others(cards: seq<Card>, ids: seq<nat>): (r: seq<Card>)
    ensures |r| <= |cards|
  {
    if cards == [] then []
    else (if cards[0].id in ids then [] else [cards[0]]) + Others(cards[1..], ids)
  }

  /** The grid after src/main.js's `applyFilter(val)` with `v = norm(val)`: the captured
      cards are marked and appended after the rest of the grid, matching ones first. */
  function LegacyFiltered(cards: seq<Card>, ids: seq<nat>, v: string): seq<Card>
    requires forall k :: 0 <= k < |ids| ==> ids[k] in Ids(cards)
  {
    Others(cards, ids) + Filtered(Select(cards, ids), v)
  }

  /** src/main.js's `applyFilter(val)`: the loop over the captured list pushes each
      card, marked, onto `matching` or `rest`; then both are re-appended. */
  method LegacyApplyFilter(g: Gallery, ids: seq<nat>, val: Option<string>)
    requires Captures(g.cards, ids)
    modifies g
    ensures g.cards == LegacyFiltered(old(g.cards), ids, Helpers.Norm(val))
  {
    var test := MatchTest(Helpers.Norm(val));
    var cards := g.cards;
    var captured := Select(cards, ids);
    var matching, rest := [], [];
    var i := 0;
    while i < |captured|
      invariant 0 <= i <= |captured| && g.cards == cards
      invariant matching == MatchingOf(captured[..i], test) && rest == RestOf(captured[..i], test)
    {
      var c := captured[i];
      PushStep(captured, i, test);
      if test(c.project) {
        matching := matching + [c.(hidden := false)];
      } else {
        rest := rest + [c.(hidden := true)];
      }
      i := i + 1;
    }
    assert captured[..i] == captured;
    NoneLost(captured, test);
    if |matching| > 0 || |rest| > 0 {
      g.cards := Others(cards, ids) + (matching + rest);
    } else {
      OthersOfNone(cards, ids);
      assert captured == [];
      assert Filtered(captured, Helpers.Norm(val)) == [];
    }
  }

  lemma {:induction false} OthersOfNone(cards: seq<Card>, ids: seq<nat>)
    requires ids == []
    ensures Others(cards, ids) == cards
  {
    if cards != [] {
      OthersOfNone(cards[1..], ids);
    }
  }

  /** The captured cards are the chosen identities, in capture order. */
  lemma {:induction false} SelectIds(cards: seq<Card>, ids: seq<nat>)
    requires forall k :: 0 <= k < |ids| ==> ids[k] in Ids(cards)
    ensures Ids(Select(cards, ids)) == ids
    decreases |ids|
  {
    if ids != [] {
      var s := Select(cards, ids);
      assert s[1..] == Select(cards, ids[1..]);
      SelectIds(cards, ids[1..]);
    }
  }

  lemma {:induction false} FindDistinct(cards: seq<Card>, k: nat)
    requires DistinctIds(cards) && k < |cards|
    ensures cards[k].id in Ids(cards) && Find(cards, cards[k].id) == cards[k]
  {
    if k > 0 {
      assert cards[1..][k - 1] == cards[k];
      assert DistinctIds(cards[1..]) by {
        forall i, j | 0 <= i < j < |cards[1..]| ensures cards[1..][i].id != cards[1..][j].id {
          assert cards[1..][i] == cards[i + 1] && cards[1..][j] == cards[j + 1];
        }
      }
      FindDistinct(cards[1..], k - 1);
      assert cards[0].id != cards[k].id;
    }
  }

  lemma {:induction false} OthersOfAll(cards: seq<Card>, ids: seq<nat>)
    requires forall k :: 0 <= k < |cards| ==> cards[k].id in ids
    ensures Others(cards, ids) == []
  {
    if cards != [] {
      OthersOfAll(cards[1..], ids);
    }
  }

  /** Capturing the whole grid in its current order makes src/main.js filter exactly
      like the module: the two copies agree until the grid gains a card or the
      captured order is left behind. */
  lemma {:induction false} LegacyAgreesWhenNothingAdded(cards: seq<Card>, v: string)
    requires DistinctIds(cards)
    ensures Captures(cards, Ids(cards))
    ensures LegacyFiltered(cards, Ids(cards), v) == Filtered(cards, v)
  {
    var ids := Ids(cards);
    forall k | 0 <= k < |cards| ensures ids[k] == cards[k].id && cards[k].id in ids {
      IdsIndex(cards, k);
    }
    OthersOfAll(cards, ids);
    forall k | 0 <= k < |ids| ensures Select(cards, ids)[k] == cards[k] {
      FindDistinct(cards, k);
    }
    assert Select(cards, ids) == cards;
    assert [] + Filtered(cards, v) == Filtered(cards, v);
  }

  lemma {:induction false} IdsIndex(cards: seq<Card>, k: nat)
    requires k < |cards|
    ensures Ids(cards)[k] == cards[k].id
  {
    if k > 0 {
      IdsIndex(cards[1..], k - 1);
    }
  }

  /** "all" puts the captured cards back in capture order, behind the cards that were
      not captured, whatever order the grid is in. */
  lemma {:induction false} LegacyAllRestoresLoadOrder(cards: seq<Card>, ids: seq<nat>)
    requires Captures(cards, ids)
    ensures Ids(LegacyFiltered(cards, ids, "all")) == Ids(Others(cards, ids)) + ids
  {
    IdsAppend(Others(cards, ids), Filtered(Select(cards, ids), "all"));
    FilterAllKeepsOrder(Select(cards, ids));
    SelectIds(cards, ids);
  }

  lemma {:induction false} OthersAppend(a: seq<Card>, b: seq<Card>, ids: seq<nat>)
    ensures Others(a + b, ids) == Others(a, ids) + Others(b, ids)
  {
    if a == [] {
      assert a + b == b;
    } else {
      assert (a + b)[0] == a[0] && (a + b)[1..] == a[1..] + b;
      OthersAppend(a[1..], b, ids);
    }
  }

  lemma {:induction false} OthersTwice(cards: seq<Card>, ids: seq<nat>)
    ensures Others(Others(cards, ids), ids) == Others(cards, ids)
  {
    if cards != [] {
      OthersTwice(cards[1..], ids);
      var h := if cards[0].id in ids then [] else [cards[0]];
      OthersAppend(h, Others(cards[1..], ids), ids);
      if h != [] {
        assert h[1..] == [];
      }
    }
  }

  /** Cards the grid gained after load are never touched: they keep their classes and
      their order, in front of the captured cards; and every captured card is still in
      the grid, so the next call is well defined. */
  lemma {:induction false} LegacyLeavesLateCards(cards: seq<Card>, ids: seq<nat>, v: string)
    requires Captures(cards, ids)
    ensures Others(LegacyFiltered(cards, ids, v), ids) == Others(cards, ids)
    ensures Captures(LegacyFiltered(cards, ids, v), ids)
  {
    var s := Select(cards, ids);
    var f := Filtered(s, v);
    OthersAppend(Others(cards, ids), f, ids);
    OthersTwice(cards, ids);
    FilteredIsStablePartition(s, v);
    SelectIds(cards, ids);
    forall k | 0 <= k < |f| ensures f[k].id in ids {
      IdsIndex(f, k);
      assert Ids(f)[k] in multiset(Ids(f));
    }
    OthersOfAll(f, ids);
    var r := LegacyFiltered(cards, ids, v);
    IdsAppend(Others(cards, ids), f);
    forall k | 0 <= k < |ids| ensures ids[k] in Ids(r) {
      assert ids[k] in multiset(Ids(f));
    }
  }

  /** The consequence: after any filter, "all" restores the load order in src/main.js,
      while the module keeps the order the last filter left. */
  lemma {:induction false} RefilterAll(cards: seq<Card>, ids: seq<nat>, v: string)
    requires Captures(cards, ids)
    ensures var once := LegacyFiltered(cards, ids, v);
      Captures(once, ids) && Ids(LegacyFiltered(once, ids, "all")) == Ids(Others(cards, ids)) + ids
    ensures Ids(Filtered(Filtered(cards, v), "all")) == Ids(Filtered(cards, v))
  {
    LegacyLeavesLateCards(cards, ids, v);
    LegacyAllRestoresLoadOrder(LegacyFiltered(cards, ids, v), ids);
    FilterAllKeepsOrder(Filtered(cards, v));
  }

  // ---------------------------------------------------------------------------
  // src/js/main.js: the pager after the filter

  /** The start-up order of src/js/main.js: the dropdown applies the initial filter
      with no pager, then `initProjectsLoadMore(3)` makes the pager, whose own reset
      limits the filtered cards, and the dropdown resets that pager from then on. */
  method MainJsStartup(options: seq<FilterOption>, labelText: Option<string>, isOpen: bool,
                       g: Gallery, buttonExists: bool) returns (d: Dropdown, p: Pager)
    modifies g
    ensures d.gallery == g && d.pager == p && p.gallery == g && p.perPage == DefaultPerPage
    ensures d.options == options && p.shownCount == DefaultPerPage
    ensures g.cards == Limited(Filtered(old(g.cards), Helpers.Norm(Some(InitialFilter(options)))), DefaultPerPage)
    ensures !p.buttonVisible <==> p.shownCount >= VisibleCount(g.cards)
  {
    d := new Dropdown(options, labelText, isOpen, g, null);
    p := new Pager(g, DefaultPerPage, buttonExists);
    d.AttachPager(p);
  }
}

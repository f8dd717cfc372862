/** The category dropdown of the project gallery
    (frontend/src/js/modules/project-filters.js, `initProjectFilters`); src/js/main.js
    lines 136-185 hold a verbatim copy. Filtering marks each card "hidden" or not, moves
    the matching cards in front of the others, and resets the pager when there is one. */
module ProjectFilters {
  import opened Wrappers
  import opened Text
  import Helpers
  import opened ProjectGrid
  import opened ProjectLoader

  // ---------------------------------------------------------------------------
  // applyFilter, for any test on the `data-project` value

  /** The test `applyFilter(v)` makes of a card's `data-project` value. */
  function MatchTest(v: string): Option<string> -> bool {
    project => v == "all" || v in Categories(project)
  }

  lemma {:induction false} MatchTestIsMatches(v: string, c: Card)
    ensures MatchTest(v)(c.project) == Matches(v, c)
  {
  }

  /** The card once the loop has toggled its "hidden" class. */
  function Mark(c: Card, p: Option<string> -> bool): Card {
    c.(hidden := !p(c.project))
  }

  /** The `matching` array after the loop has seen `cards`. */
  function MatchingOf(cards: seq<Card>, p: Option<string> -> bool): seq<Card>
    decreases |cards|
  {
    if cards == [] then []
    else
      var c := cards[|cards| - 1];
      MatchingOf(cards[..|cards| - 1], p) + (if p(c.project) then [Mark(c, p)] else [])
  }

  /** The `rest` array after the loop has seen `cards`. */
  function RestOf(cards: seq<Card>, p: Option<string> -> bool): seq<Card>
    decreases |cards|
  {
    if cards == [] then []
    else
      var c := cards[|cards| - 1];
      RestOf(cards[..|cards| - 1], p) + (if p(c.project) then [] else [Mark(c, p)])
  }

  /** The cards after the loop and the re-appending of `matching.concat(rest)`. */
  function Partitioned(cards: seq<Card>, p: Option<string> -> bool): seq<Card> {
    MatchingOf(cards, p) + RestOf(cards, p)
  }

  /** The cards after `applyFilter(val)` with `v = norm(val)`, before the pager runs. */
  function Filtered(cards: seq<Card>, v: string): (r: seq<Card>)
    ensures |r| == |cards|
  {
    NoneLost(cards, MatchTest(v));
    Partitioned(cards, MatchTest(v))
  }

  /** The cards whose test result is `m`, in their original order. */
  function Where(cards: seq<Card>, p: Option<string> -> bool, m: bool): seq<Card> {
    if cards == [] then []
    else (if p(cards[0].project) == m then [cards[0]] else []) + Where(cards[1..], p, m)
  }

  lemma {:induction false} WhereSnoc(cards: seq<Card>, c: Card, p: Option<string> -> bool, m: bool)
    ensures Where(cards + [c], p, m) == Where(cards, p, m) + (if p(c.project) == m then [c] else [])
    decreases |cards|
  {
    if cards == [] {
      assert [c][1..] == [];
    } else {
      var s := cards + [c];
      assert s[0] == cards[0] && s[1..] == cards[1..] + [c];
      WhereSnoc(cards[1..], c, p, m);
      var h := if p(cards[0].project) == m then [cards[0]] else [];
      var w := Where(cards[1..], p, m);
      var x := if p(c.project) == m then [c] else [];
      assert Where(s, p, m) == h + (w + x);
      assert h + (w + x) == (h + w) + x;
    }
  }

  lemma {:induction false} MatchingAgrees(cards: seq<Card>, p: Option<string> -> bool)
    ensures Ids(MatchingOf(cards, p)) == Ids(Where(cards, p, true))
    ensures forall i :: 0 <= i < |MatchingOf(cards, p)| ==> !MatchingOf(cards, p)[i].hidden
    decreases |cards|
  {
    if cards != [] {
      var n := |cards| - 1;
      var s, c := cards[..n], cards[n];
      assert cards == s + [c];
      MatchingAgrees(s, p);
      WhereSnoc(s, c, p, true);
      IdsAppend(MatchingOf(s, p), if p(c.project) then [Mark(c, p)] else []);
      IdsAppend(Where(s, p, true), if p(c.project) then [c] else []);
    }
  }

  lemma {:induction false} RestAgrees(cards: seq<Card>, p: Option<string> -> bool)
    ensures Ids(RestOf(cards, p)) == Ids(Where(cards, p, false))
    ensures forall i :: 0 <= i < |RestOf(cards, p)| ==> RestOf(cards, p)[i].hidden
    decreases |cards|
  {
    if cards != [] {
      var n := |cards| - 1;
      var s, c := cards[..n], cards[n];
      assert cards == s + [c];
      RestAgrees(s, p);
      WhereSnoc(s, c, p, false);
      IdsAppend(RestOf(s, p), if p(c.project) then [] else [Mark(c, p)]);
      IdsAppend(Where(s, p, false), if p(c.project) then [] else [c]);
    }
  }

  /** A stable partition: the passing cards in their original order, then the others
      in their original order. */
  lemma {:induction false} StablePartition(cards: seq<Card>, p: Option<string> -> bool)
    ensures Ids(Partitioned(cards, p)) == Ids(Where(cards, p, true)) + Ids(Where(cards, p, false))
  {
    MatchingAgrees(cards, p);
    RestAgrees(cards, p);
    IdsAppend(MatchingOf(cards, p), RestOf(cards, p));
  }

  /** The unhidden cards all come before the hidden ones. */
  lemma {:induction false} HiddenLast(cards: seq<Card>, p: Option<string> -> bool)
    ensures var r := Partitioned(cards, p);
      forall i, j :: 0 <= i < j < |r| && r[i].hidden ==> r[j].hidden
  {
    MatchingAgrees(cards, p);
    RestAgrees(cards, p);
    var a, b := MatchingOf(cards, p), RestOf(cards, p);
    var r := a + b;
    forall i, j | 0 <= i < j < |r| && r[i].hidden
      ensures r[j].hidden
    {
      HiddenIndex(a, b, i);
      assert r[j] == b[j - |a|];
    }
  }

  lemma {:induction false} HiddenIndex(a: seq<Card>, b: seq<Card>, i: nat)
    requires forall k :: 0 <= k < |a| ==> !a[k].hidden
    requires i < |a + b| && (a + b)[i].hidden
    ensures i >= |a|
  {
  }

  /** Each card the loop pushes is a card of the list with its "hidden" class set to
      the negated test. */
  lemma {:induction false} PushedAreMarked(cards: seq<Card>, p: Option<string> -> bool)
    ensures forall c :: c in MatchingOf(cards, p) ==> exists d :: d in cards && c == Mark(d, p)
    ensures forall c :: c in RestOf(cards, p) ==> exists d :: d in cards && c == Mark(d, p)
    decreases |cards|
  {
    if cards != [] {
      var n := |cards| - 1;
      PushedAreMarked(cards[..n], p);
      assert cards[n] in cards;
      assert forall d :: d in cards[..n] ==> d in cards;
    }
  }

  /** A card ends unhidden exactly when it passes the test; nothing but the "hidden"
      class changes. */
  lemma {:induction false} HiddenIff(cards: seq<Card>, p: Option<string> -> bool)
    ensures var r := Partitioned(cards, p);
      forall i :: 0 <= i < |r| ==> (r[i].hidden <==> !p(r[i].project))
  {
    var r := Partitioned(cards, p);
    PushedAreMarked(cards, p);
    forall i | 0 <= i < |r|
      ensures r[i].hidden <==> !p(r[i].project)
    {
      assert r[i] in MatchingOf(cards, p) || r[i] in RestOf(cards, p);
    }
  }

  lemma {:induction false} WherePermutation(cards: seq<Card>, p: Option<string> -> bool)
    ensures multiset(Ids(Where(cards, p, true)) + Ids(Where(cards, p, false))) == multiset(Ids(cards))
  {
    if cards != [] {
      WherePermutation(cards[1..], p);
      WherePermutationCons(cards, p);
    }
  }

  lemma {:induction false} WherePermutationCons(cards: seq<Card>, p: Option<string> -> bool)
    requires cards != []
    requires multiset(Ids(Where(cards[1..], p, true)) + Ids(Where(cards[1..], p, false))) == multiset(Ids(cards[1..]))
    ensures multiset(Ids(Where(cards, p, true)) + Ids(Where(cards, p, false))) == multiset(Ids(cards))
  {
    var c, rest := cards[0], cards[1..];
    var t, f := Ids(Where(rest, p, true)), Ids(Where(rest, p, false));
    WhereHead(cards, p);
    if p(c.project) {
      MovedFront(c.id, t, f);
    } else {
      MovedMiddle(c.id, t, f);
    }
  }

  lemma {:induction false} WhereHead(cards: seq<Card>, p: Option<string> -> bool)
    requires cards != []
    ensures Ids(cards) == [cards[0].id] + Ids(cards[1..])
    ensures p(cards[0].project) ==>
      && Ids(Where(cards, p, true)) == [cards[0].id] + Ids(Where(cards[1..], p, true))
      && Ids(Where(cards, p, false)) == Ids(Where(cards[1..], p, false))
    ensures !p(cards[0].project) ==>
      && Ids(Where(cards, p, true)) == Ids(Where(cards[1..], p, true))
      && Ids(Where(cards, p, false)) == [cards[0].id] + Ids(Where(cards[1..], p, false))
  {
    var c, rest := cards[0], cards[1..];
    if p(c.project) {
      assert Where(cards, p, true) == [c] + Where(rest, p, true);
      IdsAppend([c], Where(rest, p, true));
      assert Where(cards, p, false) == [] + Where(rest, p, false);
      assert [] + Where(rest, p, false) == Where(rest, p, false);
    } else {
      assert Where(cards, p, false) == [c] + Where(rest, p, false);
      IdsAppend([c], Where(rest, p, false));
      assert Where(cards, p, true) == [] + Where(rest, p, true);
      assert [] + Where(rest, p, true) == Where(rest, p, true);
    }
  }

  lemma {:induction false} MovedFront(x: nat, t: seq<nat>, f: seq<nat>)
    ensures multiset(([x] + t) + f) == multiset{x} + multiset(t + f)
  {
    assert ([x] + t) + f == [x] + (t + f);
  }

  lemma {:induction false} MovedMiddle(x: nat, t: seq<nat>, f: seq<nat>)
    ensures multiset(t + ([x] + f)) == multiset{x} + multiset(t + f)
  {
  }

  /** Partitioning reorders the cards and loses or adds none. */
  lemma {:induction false} PartitionIsPermutation(cards: seq<Card>, p: Option<string> -> bool)
    ensures multiset(Ids(Partitioned(cards, p))) == multiset(Ids(cards))
  {
    StablePartition(cards, p);
    WherePermutation(cards, p);
  }

  // ---------------------------------------------------------------------------
  // The filter's own test

  /** The filter shows exactly the matching cards: "all", or a value among the card's
      categories. */
  lemma {:induction false} FilteredHiddenIff(cards: seq<Card>, v: string)
    ensures var r := Filtered(cards, v);
      forall i :: 0 <= i < |r| ==> (r[i].hidden <==> !Matches(v, r[i]))
  {
    HiddenIff(cards, MatchTest(v));
  }

  /** The matching cards in their original order, then the others in theirs. */
  lemma {:induction false} FilteredIsStablePartition(cards: seq<Card>, v: string)
    ensures Ids(Filtered(cards, v)) == Ids(Where(cards, MatchTest(v), true)) + Ids(Where(cards, MatchTest(v), false))
    ensures multiset(Ids(Filtered(cards, v))) == multiset(Ids(cards))
    ensures var r := Filtered(cards, v);
      forall i, j :: 0 <= i < j < |r| && r[i].hidden ==> r[j].hidden
  {
    StablePartition(cards, MatchTest(v));
    PartitionIsPermutation(cards, MatchTest(v));
    HiddenLast(cards, MatchTest(v));
  }

  lemma {:induction false} WhereAll(cards: seq<Card>)
    ensures Where(cards, MatchTest("all"), true) == cards && Where(cards, MatchTest("all"), false) == []
  {
    if cards != [] {
      WhereAll(cards[1..]);
      assert cards == [cards[0]] + cards[1..];
    }
  }

  /** "all" keeps the order of the cards. */
  lemma {:induction false} FilterAllKeepsOrder(cards: seq<Card>)
    ensures Ids(Filtered(cards, "all")) == Ids(cards)
  {
    StablePartition(cards, MatchTest("all"));
    WhereAll(cards);
    assert Ids([]) == [];
    assert Ids(cards) + [] == Ids(cards);
  }

  /** "all" shows every card. */
  lemma {:induction false} FilterAllShowsAll(cards: seq<Card>)
    ensures forall i :: 0 <= i < |Filtered(cards, "all")| ==> !Filtered(cards, "all")[i].hidden
  {
    var r := Filtered(cards, "all");
    HiddenIff(cards, MatchTest("all"));
    forall i | 0 <= i < |r|
      ensures !r[i].hidden
    {
      assert MatchTest("all")(r[i].project);
    }
  }

  /** A card with no categories has the single empty category, so the empty filter
      value (an option without `data-filter`) shows exactly such cards. */
  lemma {:induction false} EmptyValueMatchesUncategorised(c: Card)
    ensures Matches("", c) <==> Helpers.Norm(c.project) == []
  {
    if Helpers.Norm(c.project) != [] {
      TokensNonEmpty(Helpers.Norm(c.project));
    }
  }

  lemma {:induction false} TokensNonEmpty(s: string)
    ensures forall w :: w in Tokens(s) ==> w != []
    decreases |s|
  {
    var t := TrimStart(s);
    TrimStartShape(s);
    if t != [] {
      TokensNonEmpty(t[|LeadingWord(t)|..]);
    }
  }

  /** `applyFilter(val)`: mark and reorder the cards, then `pagerApi.reset()`. */
  method ApplyFilter(g: Gallery, pager: Pager?, val: Option<string>)
    requires pager != null ==> pager.gallery == g
    modifies g, pager
    ensures pager == null ==> g.cards == Filtered(old(g.cards), Helpers.Norm(val))
    ensures pager != null ==>
      && g.cards == Limited(Filtered(old(g.cards), Helpers.Norm(val)), pager.perPage)
      && pager.shownCount == pager.perPage
      && (!pager.buttonVisible <==> pager.shownCount >= VisibleCount(g.cards))
  {
    var v := Helpers.Norm(val);
    var test := MatchTest(v);
    var cards := g.cards;
    var matching, rest := MarkCards(g, test);
    NoneLost(cards, test);
    var parent := |matching| > 0 || |rest| > 0;
    if parent {
      g.cards := matching + rest;
    }
    if pager != null {
      pager.Reset();
    }
  }

  /** The loop of `applyFilter`: each card gets or loses "hidden" in place and is
      pushed onto `matching` or `rest`. */
  method MarkCards(g: Gallery, test: Option<string> -> bool) returns (matching: seq<Card>, rest: seq<Card>)
    modifies g
    ensures |g.cards| == |old(g.cards)|
    ensures forall k :: 0 <= k < |g.cards| ==> g.cards[k] == Mark(old(g.cards)[k], test)
    ensures matching == MatchingOf(old(g.cards), test) && rest == RestOf(old(g.cards), test)
  {
    var cards := g.cards;
    matching, rest := [], [];
    var i := 0;
    while i < |cards|
      invariant 0 <= i <= |cards| && |g.cards| == |cards|
      invariant matching == MatchingOf(cards[..i], test) && rest == RestOf(cards[..i], test)
      invariant forall k :: 0 <= k < i ==> g.cards[k] == Mark(cards[k], test)
      invariant forall k :: i <= k < |cards| ==> g.cards[k] == cards[k]
    {
      var c := cards[i];
      PushStep(cards, i, test);
      if test(c.project) {
        g.cards := g.cards[i := c.(hidden := false)];
        matching := matching + [g.cards[i]];
      } else {
        g.cards := g.cards[i := c.(hidden := true)];
        rest := rest + [g.cards[i]];
      }
      i := i + 1;
    }
    assert cards[..i] == cards;
  }

  /** One more turn of the loop pushes one card onto `matching` or onto `rest`. */
  lemma {:induction false} PushStep(cards: seq<Card>, i: nat, p: Option<string> -> bool)
    requires i < |cards|
    ensures MatchingOf(cards[..i + 1], p) ==
      MatchingOf(cards[..i], p) + (if p(cards[i].project) then [Mark(cards[i], p)] else [])
    ensures RestOf(cards[..i + 1], p) ==
      RestOf(cards[..i], p) + (if p(cards[i].project) then [] else [Mark(cards[i], p)])
  {
    assert cards[..i + 1][..i] == cards[..i];
  }

  /** The loop pushes every card onto exactly one of `matching` and `rest`. */
  lemma {:induction false} NoneLost(cards: seq<Card>, p: Option<string> -> bool)
    ensures |MatchingOf(cards, p)| + |RestOf(cards, p)| == |cards|
    decreases |cards|
  {
    if cards != [] {
      NoneLost(cards[..|cards| - 1], p);
    }
  }

  // ---------------------------------------------------------------------------
  // The dropdown

  /** A `[data-filter]` option: its `data-filter` value, its text and its
      `aria-selected` attribute. */
  datatype FilterOption = FilterOption(filter: Option<string>, text: string, selected: Option<string>)

  /** `options.find((o) => o.getAttribute("aria-selected") === "true")`. */
  function FirstSelected(options: seq<FilterOption>): (r: Option<nat>)
    ensures r.None? <==> forall j :: 0 <= j < |options| ==> options[j].selected != Some("true")
    ensures r.Some? ==> (r.value < |options| && options[r.value].selected == Some("true")
      && forall j :: 0 <= j < r.value ==> options[j].selected != Some("true"))
  {
    if options == [] then None
    else if options[0].selected == Some("true") then Some(0)
    else
      match FirstSelected(options[1..])
      case None => None
      case Some(j) => Some(j + 1)
  }

  /** `initial = find(...)?.dataset.filter || "all"`: a missing or empty value is
      falsy. */
  function InitialFilter(options: seq<FilterOption>): (v: string)
    ensures v != ""
    ensures FirstSelected(options).None? ==> v == "all"
    ensures FirstSelected(options).Some? ==>
      var f := options[FirstSelected(options).value].filter;
      v == (if f.None? || f == Some("") then "all" else f.value)
  {
    match FirstSelected(options)
    case None => "all"
    case Some(j) =>
      match options[j].filter
      case None => "all"
      case Some(f) => if f == "" then "all" else f
  }

  /** The dropdown element: its options, the text of its `[data-label]` element (None
      when there is none) and its `open` property (`isOpen`). */
  class Dropdown {
    var options: seq<FilterOption>
    var labelText: Option<string>
    var isOpen: bool
    const gallery: Gallery
    /** The pager `applyFilter` resets. src/js/main.js reads its `pagerApi` variable at
        each call: null for the initial filter, the pager once it exists. */
    var pager: Pager?

    /** `initProjectFilters(pagerApi)` on a page with the dropdown: the initial filter
        is applied at once. */
    constructor (options: seq<FilterOption>, labelText: Option<string>, isOpen: bool, gallery: Gallery, pager: Pager?)
      requires pager != null ==> pager.gallery == gallery
      modifies gallery, pager
      ensures this.options == options && this.labelText == labelText && this.isOpen == isOpen
      ensures this.gallery == gallery && this.pager == pager
      ensures pager == null ==> gallery.cards == Filtered(old(gallery.cards), Helpers.Norm(Some(InitialFilter(options))))
      ensures pager != null ==>
        && gallery.cards == Limited(Filtered(old(gallery.cards), Helpers.Norm(Some(InitialFilter(options)))), pager.perPage)
        && pager.shownCount == pager.perPage
        && (!pager.buttonVisible <==> pager.shownCount >= VisibleCount(gallery.cards))
    {
      this.options := options;
      this.labelText := labelText;
      this.isOpen := isOpen;
      this.gallery := gallery;
      this.pager := pager;
      new;
      ApplyFilter(gallery, pager, Some(InitialFilter(options)));
    }

    /** The click handler of option i. */
    method Click(i: nat)
      requires i < |options|
      requires pager != null ==> pager.gallery == gallery
      modifies this, gallery, pager
      ensures |options| == |old(options)|
      ensures forall j :: 0 <= j < |options| ==>
        options[j] == old(options[j]).(selected := Some(if j == i then "true" else "false"))
      ensures labelText == if old(labelText).None? then None else Some(Trim(old(options[i]).text))
      ensures !isOpen && pager == old(pager)
      ensures pager == null ==> gallery.cards == Filtered(old(gallery.cards), Helpers.Norm(old(options[i]).filter))
      ensures pager != null ==>
        && gallery.cards == Limited(Filtered(old(gallery.cards), Helpers.Norm(old(options[i]).filter)), pager.perPage)
        && pager.shownCount == pager.perPage
        && (!pager.buttonVisible <==> pager.shownCount >= VisibleCount(gallery.cards))
    {
      var btn := options[i];
      if labelText.Some? {
        labelText := Some(Trim(btn.text));
      }
      var j := 0;
      var opts := options;
      while j < |opts|
        modifies this`options
        invariant 0 <= j <= |opts| && |options| == |opts|
        invariant forall k :: 0 <= k < j ==> options[k] == opts[k].(selected := Some(if k == i then "true" else "false"))
        invariant forall k :: j <= k < |opts| ==> options[k] == opts[k]
      {
        options := options[j := options[j].(selected := Some(if j == i then "true" else "false"))];
        j := j + 1;
      }
      ApplyFilter(gallery, pager, btn.filter);
      isOpen := false;
    }

    /** `pagerApi = initProjectsLoadMore(3)` in src/js/main.js, after the dropdown is
        set up: later filters reset this pager. */
    method AttachPager(p: Pager)
      requires p.gallery == gallery
      modifies this`pager
      ensures pager == p
    {
      pager := p;
    }

    /** The keydown handler of option i: Enter and Space cancel the key's default
        action and click the option; other keys do nothing. */
    method OptionKey(i: nat, key: string) returns (prevented: bool)
      requires i < |options|
      requires pager != null ==> pager.gallery == gallery
      modifies this, gallery, pager
      ensures prevented <==> key == "Enter" || key == " "
      ensures pager == old(pager)
      ensures !prevented ==> options == old(options) && labelText == old(labelText) && isOpen == old(isOpen)
      ensures !prevented ==> gallery.cards == old(gallery.cards)
      ensures !prevented && pager != null ==>
        pager.shownCount == old(pager.shownCount) && pager.buttonVisible == old(pager.buttonVisible)
      ensures prevented ==>
        && |options| == |old(options)|
        && (forall j :: 0 <= j < |options| ==>
              options[j] == old(options[j]).(selected := Some(if j == i then "true" else "false")))
        && labelText == (if old(labelText).None? then None else Some(Trim(old(options[i]).text)))
        && !isOpen
      ensures prevented && pager == null ==>
        gallery.cards == Filtered(old(gallery.cards), Helpers.Norm(old(options[i]).filter))
      ensures prevented && pager != null ==>
        && gallery.cards == Limited(Filtered(old(gallery.cards), Helpers.Norm(old(options[i]).filter)), pager.perPage)
        && pager.shownCount == pager.perPage
        && (!pager.buttonVisible <==> pager.shownCount >= VisibleCount(gallery.cards))
    {
      prevented := key == "Enter" || key == " ";
      if prevented {
        Click(i);
      }
    }
  }

  /** After a click on option i, i is the one option whose `aria-selected` is "true",
      so it is the option the initial-filter rule would pick. */
  lemma {:induction false} ClickSelectsOne(options: seq<FilterOption>, i: nat)
    requires i < |options|
    ensures var after := seq(|options|, j requires 0 <= j < |options| =>
        options[j].(selected := Some(if j == i then "true" else "false")));
      && FirstSelected(after) == Some(i)
      && InitialFilter(after) == (if options[i].filter.None? || options[i].filter == Some("") then "all" else options[i].filter.value)
  {
    var after := seq(|options|, j requires 0 <= j < |options| =>
        options[j].(selected := Some(if j == i then "true" else "false")));
    assert after[i].selected == Some("true");
    assert after[i].filter == options[i].filter;
  }
}

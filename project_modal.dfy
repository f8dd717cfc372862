/** The project detail modal (frontend/src/js/modules/project-modal.js): the data a
    card supplies through fallback chains, the first-three pill selection, the
    keyboard focus trap and the close sequence, and the guard that keeps clicks on a
    card's own links and buttons from opening it. src/js/main.js (lines 309-526)
    carries the same rules and also sets "hover-lock" on opening; src/main.js (lines
    281-470) takes the image from the card's first `img`, has no pills, and refocuses
    the card on closing. The markup template is left out. */
module ProjectModal {
  import opened Wrappers
  import opened Text
  import Arith

  // ---------------------------------------------------------------------------
  // What a card supplies

  /** An `img` element: its `src` attribute. */
  datatype Img = Img(src: Option<string>)

  /** The parts of a card `_extractData` reads. Text contents are untrimmed; the
      anchors are the `href`s of the first anchor matching each selector. */
  datatype CardDom = CardDom(
    heading: Option<string>,
    paragraph: Option<string>,
    preview: Option<Img>,
    lastChildImg: Option<Img>,
    imgs: seq<Img>,
    projectImageBg: Option<string>,
    backgroundImage: string,
    background: string,
    dataLive: Option<string>,
    liveAnchor: Option<string>,
    httpAnchor: Option<string>,
    dataRepo: Option<string>,
    repoAnchor: Option<string>,
    githubAnchor: Option<string>)

  datatype ModalData = ModalData(title: string, desc: string, imgSrc: string, bg: string, liveUrl: string, repoUrl: string)

  const DefaultTitle: string := "Project"
  const DefaultDesc: string := "Project description"
  const DefaultBg: string := "radial-gradient(circle at 50% 0%, rgb(81, 251, 251), rgb(13, 1, 60))"

  /** `x?.textContent.trim() || fallback`. */
  function TextOr(text: Option<string>, fallback: string): (r: string)
    ensures text.Some? && Trim(text.value) != [] ==> r == Trim(text.value)
    ensures text.None? || Trim(text.value) == [] ==> r == fallback
  {
    if text.Some? && Trim(text.value) != [] then Trim(text.value) else fallback
  }

  /** `a || b || ...`: the first present, non-empty string, else "". */
  function FirstTruthy(xs: seq<Option<string>>): (r: string)
    ensures r == [] <==> forall i :: 0 <= i < |xs| ==> xs[i].None? || xs[i].value == []
    ensures r != [] ==>
      exists i :: (0 <= i < |xs| && xs[i] == Some(r) &&
        forall k :: 0 <= k < i ==> xs[k].None? || xs[k].value == [])
  {
    if xs == [] then []
    else if xs[0].Some? && xs[0].value != [] then xs[0].value
    else
      assert forall i :: 0 <= i < |xs| - 1 ==> xs[1..][i] == xs[i + 1];
      FirstTruthy(xs[1..])
  }

  /** `^url\(["']?`, removed once at the start. */
  function DropUrlOpen(s: string): string {
    if |s| >= 4 && s[..4] == "url(" then
      var r := s[4..];
      if |r| > 0 && (r[0] == '"' || r[0] == '\'') then r[1..] else r
    else s
  }

  /** `["']?\)$`, removed once at the end. */
  function DropUrlClose(s: string): string {
    if |s| > 0 && s[|s| - 1] == ')' then
      var r := s[..|s| - 1];
      if |r| > 0 && (r[|r| - 1] == '"' || r[|r| - 1] == '\'') then r[..|r| - 1] else r
    else s
  }

  /** `.replace(/^url\(["']?|["']?\)$/g, "")`: the two anchored alternatives can each
      match once; the closing one starts at or after the end of the opening one. */
  function StripUrl(s: string): (r: string)
    ensures |r| <= |s|
  {
    DropUrlClose(DropUrlOpen(s))
  }

  /** Wrapping a plain path in `url("...")`, `url('...')` or `url(...)` and stripping
      it gives the path back. */
  lemma {:induction false} StripUrlWrapped(path: string, quote: string)
    requires quote in {"", "\"", "'"}
    requires path == [] || (path[0] != '"' && path[0] != '\'' && path[|path| - 1] != '"' && path[|path| - 1] != '\'')
    ensures StripUrl("url(" + quote + path + quote + ")") == path
  {
    assert path != [] ==> (path + quote + ")")[0] == path[0];
    OpenWrapped(quote, path + quote + ")");
    assert "url(" + quote + path + quote + ")" == "url(" + quote + (path + quote + ")");
    CloseWrapped(path, quote);
  }

  lemma {:induction false} OpenWrapped(quote: string, rest: string)
    requires quote in {"", "\"", "'"}
    requires quote == [] ==> rest == [] || (rest[0] != '"' && rest[0] != '\'')
    ensures DropUrlOpen("url(" + quote + rest) == rest
  {
    var s := "url(" + quote + rest;
    assert s[..4] == "url(";
    assert s[4..] == quote + rest;
    if quote != [] {
      assert (quote + rest)[1..] == rest;
    }
  }

  lemma {:induction false} CloseWrapped(path: string, quote: string)
    requires quote in {"", "\"", "'"}
    requires quote == [] ==> path == [] || (path[|path| - 1] != '"' && path[|path| - 1] != '\'')
    ensures DropUrlClose(path + quote + ")") == path
  {
    var s := path + quote + ")";
    assert s[..|s| - 1] == path + quote;
    if quote != [] {
      assert (path + quote)[..|path|] == path;
    }
  }

  /** The image chain: `.card-preview`, else an `img` in the last child, else the last
      `img` of the card; its `src`, else the stripped background of `.project-image`. */
  function ImageSrc(c: CardDom): (r: string)
    ensures c.preview.Some? && c.preview.value.src.Some? && c.preview.value.src.value != [] ==>
      r == c.preview.value.src.value
    ensures c.preview.None? && c.lastChildImg.None? && c.imgs == [] ==>
      r == (if c.projectImageBg.Some? then StripUrl(c.projectImageBg.value) else [])
  {
    var el :=
      if c.preview.Some? then c.preview
      else if c.lastChildImg.Some? then c.lastChildImg
      else if |c.imgs| > 0 then Some(c.imgs[|c.imgs| - 1])
      else None;
    var src := if el.Some? then el.value.src.GetOr([]) else [];
    if src != [] then src else if c.projectImageBg.Some? then StripUrl(c.projectImageBg.value) else []
  }

  /** The image chain of src/main.js: the first `img` of the card, else the stripped
      background. */
  function LegacyImageSrc(c: CardDom): (r: string)
    ensures |c.imgs| > 0 && c.imgs[0].src.Some? && c.imgs[0].src.value != [] ==> r == c.imgs[0].src.value
    ensures c.imgs == [] ==> r == (if c.projectImageBg.Some? then StripUrl(c.projectImageBg.value) else [])
  {
    var src := if |c.imgs| > 0 then c.imgs[0].src.GetOr([]) else [];
    if src != [] then src else if c.projectImageBg.Some? then StripUrl(c.projectImageBg.value) else []
  }

  /** The two chains agree on a card with a single image and no `.card-preview`, and
      both fall back to the background the same way. */
  lemma {:induction false} ImageChainsAgree(c: CardDom)
    requires c.preview.None? && |c.imgs| <= 1
    requires c.lastChildImg.Some? ==> |c.imgs| == 1 && c.lastChildImg.value == c.imgs[0]
    ensures ImageSrc(c) == LegacyImageSrc(c)
  {
  }

  /** They differ once an icon precedes the preview image: src/main.js shows the
      icon. */
  lemma {:induction false} ImageChainsDiffer(icon: string, shot: string)
    requires icon != [] && shot != [] && icon != shot
    ensures var c := CardDom(None, None, None, Some(Img(Some(shot))), [Img(Some(icon)), Img(Some(shot))],
        None, "", "", None, None, None, None, None, None);
      ImageSrc(c) == shot && LegacyImageSrc(c) == icon
  {
  }

  /** `/github\.com/i.test(url)`. */
  predicate MentionsGithub(url: string) {
    Contains(LowerStr(url), "github.com")
  }

  /** The background chain: the card's computed `background-image` unless "none",
      else its `background` if it mentions a gradient, else the default gradient. */
  function Background(c: CardDom): (bg: string)
    ensures bg != []
  {
    if c.backgroundImage != [] && c.backgroundImage != "none" then c.backgroundImage
    else if c.background != [] && Contains(c.background, "gradient") then c.background
    else DefaultBg
  }

  /** `_extractData(card)`. */
  function ExtractData(c: CardDom): (d: ModalData)
    ensures d.title != [] && d.desc != [] && d.bg != []
    ensures d.repoUrl == [] || MentionsGithub(d.repoUrl)
  {
    var repo := FirstTruthy([c.dataRepo, c.repoAnchor, c.githubAnchor]);
    ModalData(
      TextOr(c.heading, DefaultTitle),
      TextOr(c.paragraph, DefaultDesc),
      ImageSrc(c),
      Background(c),
      FirstTruthy([c.dataLive, c.liveAnchor, c.httpAnchor]),
      if repo != [] && !MentionsGithub(repo) then [] else repo)
  }

  /** src/main.js builds the same data but for the image. */
  function LegacyExtractData(c: CardDom): (d: ModalData)
    ensures d.(imgSrc := ExtractData(c).imgSrc) == ExtractData(c)
    ensures d.imgSrc == LegacyImageSrc(c)
  {
    ExtractData(c).(imgSrc := LegacyImageSrc(c))
  }

  /** A repo URL survives exactly when the chain found one that mentions github.com. */
  lemma {:induction false} RepoUrlRule(c: CardDom)
    ensures var found := FirstTruthy([c.dataRepo, c.repoAnchor, c.githubAnchor]);
      ExtractData(c).repoUrl == (if MentionsGithub(found) then found else [])
  {
    var found := FirstTruthy([c.dataRepo, c.repoAnchor, c.githubAnchor]);
    if found == [] {
      assert !MentionsGithub(found) by {
        assert LowerStr(found) == [];
        assert !Contains([], "github.com");
      }
    }
  }

  /** The live URL does not check the host: a card whose only link points at GitHub
      gets it as both the live and the repo URL. */
  lemma {:induction false} GithubLinkIsAlsoLive(c: CardDom, url: string)
    requires c.dataLive.None? && c.liveAnchor.None? && c.httpAnchor == Some(url)
    requires c.dataRepo.None? && c.repoAnchor.None? && c.githubAnchor == Some(url)
    requires MentionsGithub(url) && url != []
    ensures ExtractData(c).liveUrl == url && ExtractData(c).repoUrl == url
  {
    LastTruthy(c.dataLive, c.liveAnchor, url);
    LastTruthy(c.dataRepo, c.repoAnchor, url);
  }

  lemma {:induction false} LastTruthy(a: Option<string>, b: Option<string>, url: string)
    requires a.None? && b.None? && url != []
    ensures FirstTruthy([a, b, Some(url)]) == url
  {
    assert FirstTruthy([Some(url)]) == url;
    assert [b, Some(url)][1..] == [Some(url)];
    assert FirstTruthy([b, Some(url)]) == url;
    assert [a, b, Some(url)][1..] == [b, Some(url)];
  }

  // ---------------------------------------------------------------------------
  // Pills

  /** A `.w-12.h-12.rounded-full` pill of the card: the markup of its first `img`,
      `svg` or `span`. */
  datatype Pill = Pill(inner: Option<string>)

  /** A pill of the modal: its content and its `z-index`. */
  datatype ModalPill = ModalPill(content: string, zIndex: int)

  /** `slice(0, 3)` and the `map`. */
  function ModalPills(pills: seq<Pill>): (r: seq<ModalPill>)
    ensures |r| == if |pills| < 3 then |pills| else 3
  {
    var n := if |pills| < 3 then |pills| else 3;
    seq(n, i requires 0 <= i < n => ModalPill(pills[i].inner.GetOr([]), 3 - i))
  }

  /** The first three pills, in order, stacked so that each lies above the next. */
  lemma {:induction false} PillsStackDown(pills: seq<Pill>)
    ensures var r := ModalPills(pills);
      && (forall i :: 0 <= i < |r| ==> r[i].content == pills[i].inner.GetOr([]) && 1 <= r[i].zIndex <= 3)
      && (forall i, j :: 0 <= i < j < |r| ==> r[i].zIndex > r[j].zIndex)
  {
  }

  // ---------------------------------------------------------------------------
  // The focus trap

  /** The focus a Tab key press moves to when the handler intervenes
      (`preventDefault`): from the last focusable to the first, or with Shift from the
      first to the last. None when the browser's own Tab order applies. `active` is
      the index of the focused element among the `n` focusables of the modal. */
  function TrapTarget(n: nat, active: Option<nat>, shift: bool): (t: Option<nat>)
    ensures n == 0 ==> t.None?
    ensures t.Some? ==> t.value < n
  {
    if n == 0 then None
    else if shift && active == Some(0) then Some(n - 1)
    else if !shift && active == Some(n - 1) then Some(0)
    else None
  }

  /** With the browser stepping to the neighbour when the handler lets it, Tab cycles
      through the focusables: from `i` to `i + 1 mod n`, or with Shift to `i - 1 mod n`. */
  lemma {:induction false} TrapCycles(n: nat, i: nat, shift: bool)
    requires i < n
    ensures var step := match TrapTarget(n, Some(i), shift)
        case Some(t) => t
        case None => if shift then i - 1 else i + 1;
      step == if shift then (i + n - 1) % n else (i + 1) % n
  {
    if shift {
      if i == 0 {
        Arith.ModUnique(i + n - 1, n, 0, n - 1);
      } else {
        Arith.ModUnique(i + n - 1, n, 1, i - 1);
      }
    } else {
      if i + 1 < n {
        Arith.ModUnique(i + 1, n, 0, i + 1);
      } else {
        Arith.ModUnique(i + 1, n, 1, 0);
      }
    }
  }

  // ---------------------------------------------------------------------------
  // The open modal

  /** The page body's `style.overflow`. */
  class Body {
    var overflow: string
    constructor (overflow: string)
      ensures this.overflow == overflow
    {
      this.overflow := overflow;
    }
  }

  // ---------------------------------------------------------------------------
  // The guard of the card's listeners

  /** An element on the path from an event's target up to the document root: its
      lower-case tag name and whether it has a `data-copy` attribute. */
  datatype Element = Element(tag: string, dataCopy: bool)

  /** The element matches the selector "a,button,[data-copy]". */
  predicate IsControl(e: Element) {
    e.tag == "a" || e.tag == "button" || e.dataCopy
  }

  /** `target.closest("a,button,[data-copy]")` over the target's ancestor chain
      (`chain[0]` the target itself, the root last; empty when there is no target):
      the index of the nearest matching element. The chain may run past the card, as
      `closest` does. */
  function Closest(chain: seq<Element>): (r: Option<nat>)
    ensures r.Some? ==>
      && r.value < |chain| && IsControl(chain[r.value])
      && forall j :: 0 <= j < r.value ==> !IsControl(chain[j])
    ensures r.None? ==> forall j :: 0 <= j < |chain| ==> !IsControl(chain[j])
  {
    if chain == [] then None
    else if IsControl(chain[0]) then Some(0)
    else match Closest(chain[1..])
      case None => None
      case Some(k) => Some(k + 1)
  }

  /** `open(evt)`: returns early when `closest` finds a control, else opens the modal. */
  predicate Opens(chain: seq<Element>) {
    Closest(chain).None?
  }

  /** A card of the grid: its `tabindex` attribute, the "hover-lock" class that a
      src/js/main.js modal sets on it, whether it has the keyboard focus, and whether
      `initProjectModals` attached its click and keydown listeners. */
  class Card {
    var tabIndex: Option<string>
    var hoverLock: bool
    var focused: bool
    var listening: bool

    constructor (tabIndex: Option<string>)
      ensures this.tabIndex == tabIndex && !hoverLock && !focused && !listening
    {
      this.tabIndex := tabIndex;
      hoverLock := false;
      focused := false;
      listening := false;
    }

    /** The body of `initProjectModals`'s `forEach`: a missing tab index becomes "0";
        an existing one is kept, and the two listeners are attached. */
    method Init()
      modifies this`tabIndex, this`listening
      ensures tabIndex == (if old(tabIndex).None? then Some("0") else old(tabIndex)) && listening
    {
      if tabIndex.None? {
        tabIndex := Some("0");
      }
      listening := true;
    }

    /** The click listener: whether `openProjectModal(card)` runs for a click whose
        target has the ancestor chain `chain`. */
    method OnClick(chain: seq<Element>) returns (opens: bool)
      ensures opens <==> listening && forall j :: 0 <= j < |chain| ==> !IsControl(chain[j])
    {
      opens := listening && Opens(chain);
    }

    /** The keydown listener: Enter and Space call `preventDefault()` and then `open`,
        whatever the target; any other key does nothing. */
    method OnKeyDown(key: string, chain: seq<Element>) returns (prevented: bool, opens: bool)
      ensures prevented <==> listening && (key == "Enter" || key == " ")
      ensures opens <==> prevented && forall j :: 0 <= j < |chain| ==> !IsControl(chain[j])
    {
      prevented := false;
      opens := false;
      if listening && (key == "Enter" || key == " ") {
        prevented := true;
        opens := Opens(chain);
      }
    }
  }

  /** An event on a target inside a link, a button or a copy control (at any depth,
      even above the card) never opens the modal, whichever listener receives it. */
  lemma {:induction false} ControlNeverOpens(chain: seq<Element>, i: nat)
    requires i < |chain| && IsControl(chain[i])
    ensures !Opens(chain)
    ensures Closest(chain).Some? && Closest(chain).value <= i
  {
  }

  /** A target with no such element on its chain always opens the modal. */
  lemma {:induction false} NoControlOpens(chain: seq<Element>)
    requires forall j :: 0 <= j < |chain| ==> !IsControl(chain[j])
    ensures Opens(chain)
  {
  }

  /** The guard only looks at the target's chain: putting elements that are not
      controls above the chain changes nothing. */
  lemma {:induction false} OpensAppend(chain: seq<Element>, above: seq<Element>)
    requires forall j :: 0 <= j < |above| ==> !IsControl(above[j])
    ensures Opens(chain + above) <==> Opens(chain)
  {
    var c := chain + above;
    if Opens(chain) {
      forall j | 0 <= j < |c|
        ensures !IsControl(c[j])
      {
        if j < |chain| { assert c[j] == chain[j]; } else { assert c[j] == above[j - |chain|]; }
      }
      NoControlOpens(c);
    } else {
      var k := Closest(chain).value;
      assert c[k] == chain[k];
      ControlNeverOpens(c, k);
    }
  }

  /** `initProjectModals()`: every card gets a tab index and its two listeners. */
  method InitProjectModals(cards: seq<Card>)
    requires forall i, j :: 0 <= i < j < |cards| ==> cards[i] != cards[j]
    modifies set c | c in cards
    ensures forall i :: 0 <= i < |cards| ==>
      && cards[i].listening
      && cards[i].tabIndex == (if old(cards[i].tabIndex).None? then Some("0") else old(cards[i].tabIndex))
      && cards[i].hoverLock == old(cards[i].hoverLock) && cards[i].focused == old(cards[i].focused)
  {
    var k := 0;
    while k < |cards|
      invariant 0 <= k <= |cards|
      invariant forall i :: 0 <= i < k ==>
        && cards[i].listening
        && cards[i].tabIndex == (if old(cards[i].tabIndex).None? then Some("0") else old(cards[i].tabIndex))
      invariant forall i :: k <= i < |cards| ==>
        cards[i].listening == old(cards[i].listening) && cards[i].tabIndex == old(cards[i].tabIndex)
      invariant forall i :: 0 <= i < |cards| ==>
        cards[i].hoverLock == old(cards[i].hoverLock) && cards[i].focused == old(cards[i].focused)
    {
      cards[k].Init();
      k := k + 1;
    }
  }

  /** The three copies of `openProjectModal`: the module, src/js/main.js (which also
      sets "hover-lock" until the pointer leaves the card) and src/main.js (which
      leaves "hover-lock" alone and refocuses the card on closing). */
  datatype Copy = ModuleCopy | MainJsCopy | LegacyCopy

  /** An open modal, from `openProjectModal(card)` until its close timer ran. */
  class Modal {
    const copy: Copy
    const card: Card
    const body: Body
    /** `document.body.style.overflow` when the modal opened. */
    const prevOverflow: string
    /** The number of focusables of the modal. */
    const focusables: nat
    /** The overlay is in the document. */
    var shown: bool
    /** `close()` ran, its timer is pending. */
    var closing: bool
    /** The `keydown` trap is registered on the document. */
    var trapping: bool
    /** The `mouseleave` unlock of src/js/main.js is registered on the card. */
    var unlocking: bool
    /** The focused focusable, if focus is on one. */
    var active: Option<nat>

    /** `openProjectModal(card)`: lock the page scroll and register the trap. */
    constructor (copy: Copy, card: Card, body: Body, focusables: nat)
      modifies body, card
      ensures this.copy == copy && this.card == card && this.body == body && this.focusables == focusables
      ensures prevOverflow == old(body.overflow) && body.overflow == "hidden"
      ensures card.hoverLock == (copy == MainJsCopy || old(card.hoverLock)) && unlocking == (copy == MainJsCopy)
      ensures card.focused == old(card.focused) && card.tabIndex == old(card.tabIndex)
      ensures card.listening == old(card.listening)
      ensures shown && !closing && trapping && active == None
    {
      this.copy := copy;
      this.card := card;
      this.body := body;
      this.focusables := focusables;
      prevOverflow := body.overflow;
      shown, closing, trapping, active := true, false, true, None;
      unlocking := copy == MainJsCopy;
      new;
      if copy == MainJsCopy {
        card.hoverLock := true;
      }
      body.overflow := "hidden";
    }

    /** `setTimeout(() => closeBtn.focus(), 10)`: `closeButton` is the index of the
        close button among the focusables. */
    method FocusCloseButton(closeButton: nat)
      requires closeButton < focusables
      modifies this`active
      ensures active == Some(closeButton)
    {
      active := Some(closeButton);
    }

    /** `unlock`, run once when the pointer leaves the card. */
    method MouseLeave()
      modifies this`unlocking, card`hoverLock
      ensures !unlocking
      ensures card.hoverLock == (old(card.hoverLock) && !old(unlocking))
    {
      if unlocking {
        card.hoverLock := false;
        unlocking := false;
      }
    }

    /** `close()`: starts the fade-out; the rest happens when its timer fires. */
    method Close()
      modifies this`closing
      ensures closing
    {
      closing := true;
    }

    /** A click on the overlay closes the modal only when it lands on the backdrop
        itself, not inside the dialog. */
    method OverlayClick(onBackdrop: bool)
      modifies this`closing
      ensures closing == (old(closing) || onBackdrop)
    {
      if onBackdrop {
        Close();
      }
    }

    /** The close timer: the overlay is removed, the body's overflow is restored and
        the trap is unregistered; the module and src/js/main.js drop "hover-lock" and
        blur the card, src/main.js refocuses it. */
    method CloseTimer()
      requires closing
      modifies this`shown, this`trapping, this`active, body, card`hoverLock, card`focused
      ensures !shown && !trapping && active == None
      ensures body.overflow == prevOverflow
      ensures card.hoverLock == (copy == LegacyCopy && old(card.hoverLock))
      ensures card.focused == (copy == LegacyCopy)
    {
      if copy != LegacyCopy {
        card.hoverLock := false;
      }
      shown := false;
      body.overflow := prevOverflow;
      trapping := false;
      active := None;
      card.focused := copy == LegacyCopy;
    }

    /** The `trap` key handler: Escape closes; Tab wraps at either end; the browser's
        own Tab order elsewhere is left out. `handled` is whether it prevented the
        default. */
    method Trap(key: string, shift: bool) returns (handled: bool)
      requires active.Some? ==> active.value < focusables
      modifies this`closing, this`active
      ensures !old(trapping) ==> !handled && closing == old(closing) && active == old(active)
      ensures old(trapping) && key == "Escape" ==> handled && closing && active == old(active)
      ensures old(trapping) && key == "Tab" ==>
        var t := TrapTarget(focusables, old(active), shift);
        && handled == t.Some? && closing == old(closing)
        && active == (if t.Some? then t else old(active))
      ensures old(trapping) && key != "Escape" && key != "Tab" ==>
        !handled && closing == old(closing) && active == old(active)
    {
      handled := false;
      if !trapping {
        return;
      }
      if key == "Escape" {
        handled := true;
        Close();
        return;
      }
      if key == "Tab" {
        if focusables == 0 {
          return;
        }
        if shift && active == Some(0) {
          handled := true;
          active := Some(focusables - 1);
        } else if !shift && active == Some(focusables - 1) {
          handled := true;
          active := Some(0);
        }
      }
    }
  }
}

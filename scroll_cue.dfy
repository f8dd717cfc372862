/** The "scroll to next section" cue (src/js/modules/scroll-cue.js,
    `setupScrollCue`; src/js/main.js lines 689-782 hold a copy that differs only in
    comments and in reading the reduced-motion query inline). Each cue gets button
    semantics if it lacks them, computes its scroll offset once, and on click or on
    Enter/Space scrolls to an explicit target or to the next section. Geometry is
    taken as reals; the scroll itself is the returned destination. */
module ScrollCue {
  import opened Wrappers

  // ---------------------------------------------------------------------------
  // Candidate sections

  /** An element matched by `section, [data-section], [id]`, with the style and
      rectangle facts the filter reads; `top` is its bounding rectangle's top. */
  datatype Element = Element(
    tag: string,
    id: string,
    sectionLike: bool,
    width: real,
    height: real,
    display: string,
    visibility: string,
    top: real)

  /** `/^(script|style|link|meta|title|head)$/` on the lower-cased tag name. */
  predicate NonVisualTag(tag: string) {
    tag in {"script", "style", "link", "meta", "title", "head"}
  }

  /** The filter of `getScrollTargets`. */
  predicate IsScrollTarget(e: Element) {
    && !NonVisualTag(e.tag)
    && (e.id != [] || e.sectionLike)
    && e.width > 0.0 && e.height > 0.0
    && e.display != "none" && e.visibility != "hidden"
  }

  /** `getScrollTargets()`: the candidates that pass the filter, in document order. */
  function ScrollTargets(all: seq<Element>): (r: seq<Element>)
    ensures |r| <= |all|
    ensures forall e :: e in r <==> e in all && IsScrollTarget(e)
  {
    if all == [] then []
    else
      var head := if IsScrollTarget(all[0]) then [all[0]] else [];
      head + ScrollTargets(all[1..])
  }

  // ---------------------------------------------------------------------------
  // The offset

  /** The header the chain `[data-sticky-header]`, `header[role='banner']`,
      `header.site-header`, `header` finds: its computed position and its
      `offsetHeight`, a whole number of pixels. */
  datatype Header = Header(position: string, offsetHeight: nat)

  /** The first lookup that finds an element. */
  function FirstFound(candidates: seq<Option<Header>>): (h: Option<Header>)
    ensures h.None? <==> forall i :: 0 <= i < |candidates| ==> candidates[i].None?
    ensures h.Some? ==> h in candidates
  {
    if candidates == [] then None
    else if candidates[0].Some? then candidates[0]
    else
      var h := FirstFound(candidates[1..]);
      assert forall i :: 0 <= i < |candidates| - 1 ==> candidates[1..][i] == candidates[i + 1];
      h
  }

  /** A header that stays on screen while the page scrolls. */
  predicate Pinned(h: Header) {
    h.position == "fixed" || h.position == "sticky"
  }

  /** `attr && !isNaN(parseFloat(attr))`: `parse` stands for `parseFloat`, giving none
      for NaN. */
  predicate NumericAttr(attr: Option<string>, parse: string -> Option<real>) {
    attr.Some? && attr.value != [] && parse(attr.value).Some?
  }

  /** `getScrollOffsetFrom(el)`, `attr` being `data-scroll-offset` and `headers` the
      results of the four header lookups: a numeric attribute gives the offset;
      otherwise the offset is the height of the header found first when that header
      is pinned, and 0 in every other case (never negative). */
  function ScrollOffset(attr: Option<string>, parse: string -> Option<real>, headers: seq<Option<Header>>): (offset: real)
    ensures NumericAttr(attr, parse) ==> offset == parse(attr.value).value
    ensures !NumericAttr(attr, parse) ==> offset >= 0.0
    ensures !NumericAttr(attr, parse) && offset != 0.0 ==>
      exists i :: 0 <= i < |headers| && headers[i].Some? && Pinned(headers[i].value)
        && offset == headers[i].value.offsetHeight as real
  {
    if NumericAttr(attr, parse) then parse(attr.value).value
    else
      match FirstFound(headers)
      case Some(h) => if Pinned(h) then h.offsetHeight as real else 0.0
      case None => 0.0
  }

  /** A numeric attribute overrides whatever headers the page has. */
  lemma {:induction false} AttrOverridesHeaders(attr: Option<string>, parse: string -> Option<real>,
                                                 h1: seq<Option<Header>>, h2: seq<Option<Header>>)
    requires NumericAttr(attr, parse)
    ensures ScrollOffset(attr, parse, h1) == ScrollOffset(attr, parse, h2)
  {
  }

  /** Without a numeric attribute, a page with no pinned header gets no offset. */
  lemma {:induction false} NoPinnedHeaderNoOffset(attr: Option<string>, parse: string -> Option<real>,
                                                   headers: seq<Option<Header>>)
    requires !NumericAttr(attr, parse)
    requires forall i :: 0 <= i < |headers| && headers[i].Some? ==> !Pinned(headers[i].value)
    ensures ScrollOffset(attr, parse, headers) == 0.0
  {
  }

  /** Only the first lookup that finds a header matters: a non-pinned
      `[data-sticky-header]` hides a pinned `header` found later. */
  lemma {:induction false} FirstHeaderDecides(attr: Option<string>, parse: string -> Option<real>,
                                               h: Header, rest: seq<Option<Header>>)
    requires !NumericAttr(attr, parse)
    ensures ScrollOffset(attr, parse, [Some(h)] + rest) == (if Pinned(h) then h.offsetHeight as real else 0.0)
  {
  }

  /** Lookups that find nothing before the first header found are skipped. */
  lemma {:induction false} MissingLookupsSkipped(attr: Option<string>, parse: string -> Option<real>,
                                                 n: nat, rest: seq<Option<Header>>)
    requires !NumericAttr(attr, parse)
    ensures ScrollOffset(attr, parse, seq(n, _ => None) + rest) == ScrollOffset(attr, parse, rest)
  {
    var s := seq(n, _ => None) + rest;
    if n == 0 {
      assert s == rest;
    } else {
      assert s[0].None? && s[1..] == seq(n - 1, _ => None) + rest;
      assert FirstFound(s) == FirstFound(s[1..]);
      MissingLookupsSkipped(attr, parse, n - 1, rest);
    }
  }

  // ---------------------------------------------------------------------------
  // The target

  /** The first section whose absolute top lies more than one pixel below the current
      scroll position. */
  function FirstBelow(sections: seq<Element>, y: real): (r: Option<nat>)
    ensures r.None? ==> forall i :: 0 <= i < |sections| ==> !(sections[i].top + y > y + 1.0)
    ensures r.Some? ==>
      && r.value < |sections| && sections[r.value].top + y > y + 1.0
      && forall i :: 0 <= i < r.value ==> !(sections[i].top + y > y + 1.0)
  {
    if sections == [] then None
    else if sections[0].top + y > y + 1.0 then Some(0)
    else
      match FirstBelow(sections[1..], y)
      case None => None
      case Some(k) => Some(k + 1)
  }

  /** `resolveTarget()`. `dataTarget` is `el.dataset.target` and `explicit` what
      `querySelector` finds for it; `all` the candidates of `getScrollTargets` and `y`
      the current `scrollY`. */
  function ResolveTarget(dataTarget: Option<string>, explicit: Option<Element>, all: seq<Element>, y: real): (t: Option<Element>)
    ensures dataTarget.Some? && dataTarget.value != [] && explicit.Some? ==> t == explicit
    ensures !(dataTarget.Some? && dataTarget.value != [] && explicit.Some?) ==>
      var sections := ScrollTargets(all);
      && (t.None? <==> sections == [])
      && (t.Some? ==> t.value in sections)
      && (FirstBelow(sections, y).Some? ==> t == Some(sections[FirstBelow(sections, y).value]))
      && (FirstBelow(sections, y).None? && sections != [] ==> t == Some(sections[|sections| - 1]))
  {
    if dataTarget.Some? && dataTarget.value != [] && explicit.Some? then explicit
    else
      var sections := ScrollTargets(all);
      match FirstBelow(sections, y)
      case Some(k) => Some(sections[k])
      case None => if sections == [] then None else Some(sections[|sections| - 1])
  }

  /** `go()`: the `top` passed to `scrollTo`, none when there is no target. */
  function Go(target: Option<Element>, y: real, offset: real): (top: Option<real>)
    ensures target.None? <==> top.None?
    ensures target.Some? ==> top.value + offset == target.value.top + y
  {
    match target
    case None => None
    case Some(t) => Some(t.top + y - offset)
  }

  // ---------------------------------------------------------------------------
  // The cues

  const DefaultLabel: string := "Scroll to next section"

  /** An `.animate-scroll-cue` or `#scroll-cue` element. */
  class Cue {
    var role: Option<string>
    var tabIndex: Option<int>
    var ariaLabel: Option<string>
    const dataTarget: Option<string>
    /** The `data-scroll-offset` attribute. */
    const offsetAttr: Option<string>
    /** The offset computed at set-up. */
    var offset: real
    var listening: bool

    constructor (role: Option<string>, tabIndex: Option<int>, ariaLabel: Option<string>,
                 dataTarget: Option<string>, offsetAttr: Option<string>)
      ensures this.role == role && this.tabIndex == tabIndex && this.ariaLabel == ariaLabel
      ensures this.dataTarget == dataTarget && this.offsetAttr == offsetAttr && !listening
    {
      this.role := role;
      this.tabIndex := tabIndex;
      this.ariaLabel := ariaLabel;
      this.dataTarget := dataTarget;
      this.offsetAttr := offsetAttr;
      offset := 0.0;
      listening := false;
    }

    /** The body of the `forEach`: the accessibility defaults, the offset from
        `getScrollOffsetFrom(el)` and the two handlers. An existing role or tab index
        is kept; an absent or empty label is replaced. */
    method Setup(parse: string -> Option<real>, headers: seq<Option<Header>>)
      modifies this
      ensures role == (if old(role).Some? then old(role) else Some("button"))
      ensures tabIndex == (if old(tabIndex).Some? then old(tabIndex) else Some(0))
      ensures old(ariaLabel).Some? && old(ariaLabel).value != [] ==> ariaLabel == old(ariaLabel)
      ensures !(old(ariaLabel).Some? && old(ariaLabel).value != []) ==> ariaLabel == Some(DefaultLabel)
      ensures offset == ScrollOffset(offsetAttr, parse, headers) && listening
    {
      if role.None? {
        role := Some("button");
      }
      if tabIndex.None? {
        tabIndex := Some(0);
      }
      if !(ariaLabel.Some? && ariaLabel.value != []) {
        ariaLabel := Some(DefaultLabel);
      }
      offset := ScrollOffset(offsetAttr, parse, headers);
      listening := true;
    }

    /** The click handler: where the page scrolls to. */
    method Click(explicit: Option<Element>, all: seq<Element>, y: real) returns (top: Option<real>)
      ensures top == (if listening then Go(ResolveTarget(dataTarget, explicit, all, y), y, offset) else None)
    {
      if !listening {
        return None;
      }
      top := Go(ResolveTarget(dataTarget, explicit, all, y), y, offset);
    }

    /** The keydown handler: Enter and Space do what a click does, other keys
        nothing. */
    method KeyDown(key: string, explicit: Option<Element>, all: seq<Element>, y: real) returns (top: Option<real>)
      ensures key == "Enter" || key == " " ==> top == (if listening then Go(ResolveTarget(dataTarget, explicit, all, y), y, offset) else None)
      ensures key != "Enter" && key != " " ==> top == None
    {
      if key == "Enter" || key == " " {
        top := Click(explicit, all, y);
      } else {
        top := None;
      }
    }
  }

  /** `setupScrollCue()`: every cue gets the accessibility defaults, its own offset
      from its `data-scroll-offset` attribute and the page's header, and its
      handlers. */
  method SetupScrollCue(cues: seq<Cue>, parse: string -> Option<real>, headers: seq<Option<Header>>)
    requires forall i, j :: 0 <= i < j < |cues| ==> cues[i] != cues[j]
    modifies set c | c in cues
    ensures forall i :: 0 <= i < |cues| ==>
      && cues[i].role == (if old(cues[i].role).Some? then old(cues[i].role) else Some("button"))
      && cues[i].tabIndex == (if old(cues[i].tabIndex).Some? then old(cues[i].tabIndex) else Some(0))
      && cues[i].ariaLabel == (if old(cues[i].ariaLabel).Some? && old(cues[i].ariaLabel).value != []
                               then old(cues[i].ariaLabel) else Some(DefaultLabel))
      && cues[i].offset == ScrollOffset(cues[i].offsetAttr, parse, headers)
      && cues[i].listening
  {
    var i := 0;
    while i < |cues|
      invariant 0 <= i <= |cues|
      invariant forall k :: 0 <= k < i ==>
        && cues[k].role == (if old(cues[k].role).Some? then old(cues[k].role) else Some("button"))
        && cues[k].tabIndex == (if old(cues[k].tabIndex).Some? then old(cues[k].tabIndex) else Some(0))
        && cues[k].ariaLabel == (if old(cues[k].ariaLabel).Some? && old(cues[k].ariaLabel).value != []
                                 then old(cues[k].ariaLabel) else Some(DefaultLabel))
        && cues[k].offset == ScrollOffset(cues[k].offsetAttr, parse, headers)
        && cues[k].listening
      invariant forall k :: i <= k < |cues| ==>
        cues[k].role == old(cues[k].role) && cues[k].tabIndex == old(cues[k].tabIndex)
        && cues[k].ariaLabel == old(cues[k].ariaLabel)
    {
      cues[i].Setup(parse, headers);
      i := i + 1;
    }
  }
}

/** The floating navigation's section tracker (src/js/modules/nav-tracker.js,
    `initNavSectionTracker`; src/js/main.js lines 802-1011 hold a copy that differs
    only in comments). It keeps one navigation link marked active (aria-current
    "page" and the active classes), chosen by an IntersectionObserver callback, by a
    scroll handler that compares section geometry with the header, and by link
    clicks, which lock the choice for a short while. Geometry and time
    (`performance.now()`) are parameters and are taken as reals. */
module NavTracker {
  import opened Wrappers

  // ---------------------------------------------------------------------------
  // Links and the id map

  /** An `a.nav-link` of the container. `current` stands for aria-current="page"
      together with the classes "bg-muted", "text-primary" and "shadow-lg". */
  class Link {
    const href: Option<string>
    var current: bool

    constructor (href: Option<string>)
      ensures this.href == href && !current
    {
      this.href := href;
      current := false;
    }
  }

  /** `s.replace(/^#/, "")`. */
  function StripHash(s: string): (r: string)
    ensures |s| > 0 && s[0] == '#' ==> s == "#" + r
    ensures |s| == 0 || s[0] != '#' ==> r == s
  {
    if |s| > 0 && s[0] == '#' then s[1..] else s
  }

  /** `(a.getAttribute("href") || "").replace(/^#/, "")`. */
  function IdOf(a: Link): string {
    StripHash(a.href.GetOr([]))
  }

  /** The `byId` map after the first `|links|` iterations of its loop: links with an
      empty id are skipped and a later link overwrites an earlier one with the same
      id. */
  function ById(links: seq<Link>): map<string, Link>
    decreases |links|
  {
    if links == [] then map[]
    else
      var n := |links| - 1;
      var m := ById(links[..n]);
      var id := IdOf(links[n]);
      if id != [] then m[id := links[n]] else m
  }

  /** The keys of the map in insertion order (`byId.keys()`): the non-empty ids in
      order of first occurrence. */
  function KeyOrder(links: seq<Link>): seq<string>
    decreases |links|
  {
    if links == [] then []
    else
      var n := |links| - 1;
      var ks := KeyOrder(links[..n]);
      var id := IdOf(links[n]);
      if id != [] && id !in ks then ks + [id] else ks
  }

  /** The map holds exactly the links' non-empty ids, and each id is bound to the
      last link carrying it. */
  lemma {:induction false} ByIdLastWins(links: seq<Link>, id: string)
    ensures id in ById(links) <==> id != [] && exists k :: 0 <= k < |links| && IdOf(links[k]) == id
    ensures id in ById(links) ==>
      exists k :: 0 <= k < |links| && ById(links)[id] == links[k] &&
        IdOf(links[k]) == id && (forall j :: k < j < |links| ==> IdOf(links[j]) != id)
    decreases |links|
  {
    if links != [] {
      var n := |links| - 1;
      var prev := links[..n];
      ByIdLastWins(prev, id);
      assert forall k :: 0 <= k < n ==> prev[k] == links[k];
      if IdOf(links[n]) != id && id in ById(links) {
        var k :| 0 <= k < n && ById(prev)[id] == prev[k] &&
          IdOf(prev[k]) == id && (forall j :: k < j < n ==> IdOf(prev[j]) != id);
        assert ById(links)[id] == links[k];
      }
    }
  }

  /** The key order lists each key of the map exactly once. */
  lemma {:induction false} KeyOrderIsKeys(links: seq<Link>)
    ensures forall id :: id in KeyOrder(links) <==> id in ById(links)
    ensures forall i, j :: 0 <= i < j < |KeyOrder(links)| ==> KeyOrder(links)[i] != KeyOrder(links)[j]
    decreases |links|
  {
    if links != [] {
      KeyOrderIsKeys(links[..|links| - 1]);
    }
  }

  /** The loop filling `byId`. */
  method BuildById(links: seq<Link>) returns (byId: map<string, Link>)
    ensures byId == ById(links)
  {
    byId := map[];
    var i := 0;
    while i < |links|
      invariant 0 <= i <= |links| && byId == ById(links[..i])
    {
      assert links[..i + 1][..i] == links[..i];
      var id := IdOf(links[i]);
      if id != [] {
        byId := byId[id := links[i]];
      }
      i := i + 1;
    }
    assert links[..i] == links;
  }

  /** `sections`: the map's keys in order whose element exists in the document
      (`getElementById(id)` is not null), given as the set `inDocument`. */
  function PresentIds(keys: seq<string>, inDocument: set<string>): (ids: seq<string>)
    ensures forall id :: id in ids <==> id in keys && id in inDocument
  {
    if keys == [] then []
    else (if keys[0] in inDocument then [keys[0]] else []) + PresentIds(keys[1..], inDocument)
  }

  /** `setActiveLink(link)`: exactly `link` is marked active afterwards; a null link
      changes nothing. The tracker's movement is left out. */
  method SetActiveLink(links: seq<Link>, link: Link?)
    modifies set a | a in links
    ensures link != null ==> forall a :: a in links ==> a.current == (a == link)
    ensures link == null ==> forall a :: a in links ==> a.current == old(a.current)
  {
    if link == null {
      return;
    }
    var i := 0;
    while i < |links|
      invariant 0 <= i <= |links|
      invariant forall k :: 0 <= k < i ==> links[k].current == (links[k] == link)
    {
      links[i].current := links[i] == link;
      i := i + 1;
    }
  }

  // ---------------------------------------------------------------------------
  // The observer's best entry

  /** An IntersectionObserver entry: its target's id, `isIntersecting` and
      `intersectionRatio`. */
  datatype Entry = Entry(targetId: string, isIntersecting: bool, ratio: real)

  /** `best` is the entry the loop keeps: an intersecting entry whose ratio is strictly
      greater than every intersecting entry before it and at least that of every one
      after it; none when no entry intersects. */
  predicate IsBest(entries: seq<Entry>, best: Option<nat>) {
    match best
    case None => forall k :: 0 <= k < |entries| ==> !entries[k].isIntersecting
    case Some(b) =>
      && b < |entries| && entries[b].isIntersecting
      && (forall k :: 0 <= k < b && entries[k].isIntersecting ==> entries[k].ratio < entries[b].ratio)
      && (forall k :: b < k < |entries| && entries[k].isIntersecting ==> entries[k].ratio <= entries[b].ratio)
  }

  /** There is only one such entry: the rule picks the first of the greatest. */
  lemma {:induction false} BestUnique(entries: seq<Entry>, x: Option<nat>, y: Option<nat>)
    requires IsBest(entries, x) && IsBest(entries, y)
    ensures x == y
  {
  }

  /** The `for (const e of entries)` loop. */
  method BestEntry(entries: seq<Entry>) returns (best: Option<nat>)
    ensures IsBest(entries, best)
  {
    best := None;
    var i := 0;
    while i < |entries|
      invariant 0 <= i <= |entries|
      invariant IsBest(entries[..i], best)
    {
      var e := entries[i];
      if e.isIntersecting && (best.None? || e.ratio > entries[best.value].ratio) {
        best := Some(i);
      }
      i := i + 1;
    }
    assert entries[..i] == entries;
  }

  // ---------------------------------------------------------------------------
  // pickActiveSection

  /** A section element and its bounding rectangle in viewport coordinates. */
  datatype Section = Section(id: string, top: real, bottom: real)

  /** The section spans the line just below the header. */
  predicate Covers(s: Section, offset: real) {
    s.top - offset <= 1.0 && s.bottom - offset > 1.0
  }

  /** The section starts below it. */
  predicate Below(s: Section, offset: real) {
    s.top - offset > 1.0
  }

  /** The first covering section, else the first section below, else the last one. */
  function Pick(sections: seq<Section>, offset: real): (id: string)
    requires |sections| > 0
    ensures exists k :: 0 <= k < |sections| && sections[k].id == id && PickedAt(sections, offset, k)
  {
    match FirstCovering(sections, offset, 0)
    case Some(k) => sections[k].id
    case None =>
      match FirstBelow(sections, offset, 0)
      case Some(k) => sections[k].id
      case None => sections[|sections| - 1].id
  }

  /** Why section k is the one picked. */
  predicate PickedAt(sections: seq<Section>, offset: real, k: nat)
    requires k < |sections|
  {
    || (Covers(sections[k], offset) && forall j :: 0 <= j < k ==> !Covers(sections[j], offset))
    || ((forall j :: 0 <= j < |sections| ==> !Covers(sections[j], offset)) &&
        Below(sections[k], offset) && forall j :: 0 <= j < k ==> !Below(sections[j], offset))
    || ((forall j :: 0 <= j < |sections| ==> !Covers(sections[j], offset) && !Below(sections[j], offset)) &&
        k == |sections| - 1)
  }

  /** Only one section can be the picked one. */
  lemma {:induction false} PickedAtUnique(sections: seq<Section>, offset: real, k: nat, m: nat)
    requires k < |sections| && m < |sections|
    requires PickedAt(sections, offset, k) && PickedAt(sections, offset, m)
    ensures k == m
  {
  }

  /** The first loop from index `i` on. */
  function FirstCovering(sections: seq<Section>, offset: real, i: nat): (r: Option<nat>)
    requires i <= |sections|
    ensures r.None? ==> forall j :: i <= j < |sections| ==> !Covers(sections[j], offset)
    ensures r.Some? ==>
      && i <= r.value < |sections| && Covers(sections[r.value], offset)
      && forall j :: i <= j < r.value ==> !Covers(sections[j], offset)
    decreases |sections| - i
  {
    if i == |sections| then None
    else if Covers(sections[i], offset) then Some(i)
    else FirstCovering(sections, offset, i + 1)
  }

  /** The second loop from index `i` on. */
  function FirstBelow(sections: seq<Section>, offset: real, i: nat): (r: Option<nat>)
    requires i <= |sections|
    ensures r.None? ==> forall j :: i <= j < |sections| ==> !Below(sections[j], offset)
    ensures r.Some? ==>
      && i <= r.value < |sections| && Below(sections[r.value], offset)
      && forall j :: i <= j < r.value ==> !Below(sections[j], offset)
    decreases |sections| - i
  {
    if i == |sections| then None
    else if Below(sections[i], offset) then Some(i)
    else FirstBelow(sections, offset, i + 1)
  }

  /** `pickActiveSection()`: two first-match scans with early returns. */
  method PickActiveSection(sections: seq<Section>, offset: real) returns (id: string)
    requires |sections| > 0
    ensures id == Pick(sections, offset)
  {
    var i := 0;
    while i < |sections|
      invariant 0 <= i <= |sections|
      invariant FirstCovering(sections, offset, 0) == FirstCovering(sections, offset, i)
    {
      if Covers(sections[i], offset) {
        return sections[i].id;
      }
      i := i + 1;
    }
    i := 0;
    while i < |sections|
      invariant 0 <= i <= |sections|
      invariant FirstBelow(sections, offset, 0) == FirstBelow(sections, offset, i)
    {
      if Below(sections[i], offset) {
        return sections[i].id;
      }
      i := i + 1;
    }
    return sections[|sections| - 1].id;
  }

  // ---------------------------------------------------------------------------
  // The tracker

  /** `Math.abs(r.top - offset) < 8`: the intended section has almost arrived. */
  predicate Near(s: Section, offset: real) {
    -8.0 < s.top - offset < 8.0
  }

  /** How long a click locks the choice: 200 ms with reduced motion, else 1600 ms. */
  function IntentWindow(reduced: bool): real {
    if reduced then 200.0 else 1600.0
  }

  /** Every link is inactive except `link`, which is active. */
  ghost predicate OnlyActive(links: seq<Link>, link: Link)
    reads set a | a in links
  {
    forall a :: a in links ==> a.current == (a == link)
  }

  /** The closure state of `initNavSectionTracker` once the container has links and at
      least one of their sections exists. */
  class Tracker {
    const links: seq<Link>
    const byId: map<string, Link>
    /** `sections`, by id. */
    const sectionIds: seq<string>
    var currentId: Option<string>
    var intentId: Option<string>
    var intentDeadline: real
    var ticking: bool
    /** Animation frames requested and not yet run. */
    ghost var frames: nat

    ghost predicate Valid()
      reads this
    {
      && |links| > 0 && |sectionIds| > 0 && byId == ById(links)
      && frames == (if ticking then 1 else 0)
    }

    /** `byId.get(id)`, null when absent. */
    function Lookup(id: string): Link? {
      if id in byId then byId[id] else null
    }

    /** `byId.get(initialId) || links[0]`, where `initialId` is `location.hash`, else
        the first link's href, without its "#". */
    function InitialLink(hash: string): Link
      requires |links| > 0
    {
      var raw := if hash != [] then hash else links[0].href.GetOr([]);
      var l := Lookup(StripHash(raw));
      if l != null then l else links[0]
    }

    /** The set-up: the id map, the section list and the initial active link. */
    constructor (links: seq<Link>, inDocument: set<string>, hash: string)
      requires |links| > 0 && |PresentIds(KeyOrder(links), inDocument)| > 0
      modifies set a | a in links
      ensures this.links == links && byId == ById(links)
      ensures sectionIds == PresentIds(KeyOrder(links), inDocument)
      ensures currentId == None && intentId == None && intentDeadline == 0.0 && !ticking
      ensures Valid() && OnlyActive(links, InitialLink(hash))
    {
      this.links := links;
      var m := BuildById(links);
      byId := m;
      sectionIds := PresentIds(KeyOrder(links), inDocument);
      currentId, intentId, intentDeadline, ticking := None, None, 0.0, false;
      frames := 0;
      new;
      SetActiveLink(links, InitialLink(hash));
    }

    /** The IntersectionObserver callback at time `now`; `best` is the entry its loop
        settles on. While a click's intent is live nothing happens; otherwise the best
        entry's section becomes current, unless it already is. */
    method Observe(entries: seq<Entry>, now: real) returns (best: Option<nat>)
      requires Valid()
      modifies this`currentId, set a | a in links
      ensures Valid() && IsBest(entries, best)
      ensures var locked := intentId.Some? && now < intentDeadline;
        var id := if best.Some? then entries[best.value].targetId else [];
        var moves := !locked && id != [] && Some(id) != old(currentId);
        && (moves ==> currentId == Some(id) && (Lookup(id) != null ==> OnlyActive(links, Lookup(id))))
        && (!(moves && Lookup(id) != null) ==> forall a :: a in links ==> a.current == old(a.current))
        && (!moves ==> currentId == old(currentId))
    {
      best := BestEntry(entries);
      if intentId.Some? && now < intentDeadline {
        return;
      }
      if best.None? {
        return;
      }
      var id := entries[best.value].targetId;
      if id != [] && Some(id) != currentId {
        currentId := Some(id);
        SetActiveLink(links, Lookup(id));
      }
    }

    /** The scroll handler: request a frame unless one is pending. */
    method OnScroll()
      requires Valid()
      modifies this`ticking, this`frames
      ensures Valid() && ticking && frames == 1
      ensures old(ticking) ==> frames == old(frames)
    {
      if ticking {
        return;
      }
      ticking := true;
      frames := frames + 1;
    }

    /** The first half of the frame callback: with a live intent whose section exists,
        commit and release it once the section is near the header or covers it, or
        else hold (`stop`); without one, do nothing. */
    method IntentPhase(now: real, offset: real, target: Option<Section>) returns (stop: bool)
      requires Valid()
      modifies this`currentId, this`intentId, this`intentDeadline, set a | a in links
      ensures Valid()
      ensures var live := old(intentId).Some? && now < old(intentDeadline) && target.Some?;
        && (stop <==> live && !Near(target.value, offset) && !Covers(target.value, offset))
        && (live && !stop ==>
             && currentId == old(intentId) && intentId == None && intentDeadline == 0.0
             && (Lookup(old(intentId).value) != null ==> OnlyActive(links, Lookup(old(intentId).value)))
             && (Lookup(old(intentId).value) == null ==> forall a :: a in links ==> a.current == old(a.current)))
        && (!(live && !stop) ==>
             && currentId == old(currentId) && intentId == old(intentId)
             && intentDeadline == old(intentDeadline) && forall a :: a in links ==> a.current == old(a.current))
    {
      stop := false;
      if intentId.Some? && now < intentDeadline && target.Some? {
        var r := target.value;
        if Near(r, offset) || Covers(r, offset) {
          currentId := intentId;
          SetActiveLink(links, Lookup(intentId.value));
          intentId, intentDeadline := None, 0.0;
        } else {
          stop := true;
        }
      }
    }

    /** The second half: the picked section becomes current unless it already is. */
    method PickPhase(sections: seq<Section>, offset: real)
      requires Valid() && |sections| > 0
      modifies this`currentId, set a | a in links
      ensures Valid()
      ensures var p := Pick(sections, offset);
        && (p != [] && Some(p) != old(currentId) ==>
             currentId == Some(p) && (Lookup(p) != null ==> OnlyActive(links, Lookup(p))))
        && (!(p != [] && Some(p) != old(currentId) && Lookup(p) != null) ==>
             forall a :: a in links ==> a.current == old(a.current))
        && (!(p != [] && Some(p) != old(currentId)) ==> currentId == old(currentId))
    {
      var id := PickActiveSection(sections, offset);
      if id != [] && Some(id) != currentId {
        currentId := Some(id);
        SetActiveLink(links, Lookup(id));
      }
    }

    /** The requested frame runs. `sections` are the tracked sections with their
        current rectangles, `target` the rectangle of the element whose id is the
        intent, if there is one. While the intent holds, the normal pick is skipped;
        otherwise it runs, also right after an intent was committed. */
    method Frame(now: real, offset: real, sections: seq<Section>, target: Option<Section>)
      requires Valid() && ticking
      requires |sections| == |sectionIds| && forall i :: 0 <= i < |sections| ==> sections[i].id == sectionIds[i]
      modifies this, set a | a in links
      ensures Valid() && !ticking && frames == 0
      ensures var live := old(intentId).Some? && now < old(intentDeadline) && target.Some?;
        var hold := live && !Near(target.value, offset) && !Covers(target.value, offset);
        var base := if live && !hold then old(intentId) else old(currentId);
        var p := Pick(sections, offset);
        var moves := !hold && p != [] && Some(p) != base;
        var committed := if live && !hold then Lookup(old(intentId).value) else null;
        var active := if moves && Lookup(p) != null then Lookup(p) else committed;
        && (hold ==> currentId == old(currentId) && intentId == old(intentId) && intentDeadline == old(intentDeadline))
        && (!hold ==> currentId == (if moves then Some(p) else base))
        && (active != null ==> OnlyActive(links, active))
        && (active == null ==> forall a :: a in links ==> a.current == old(a.current))
        && (live && !hold ==> intentId == None && intentDeadline == 0.0)
        && (!live ==> intentId == old(intentId) && intentDeadline == old(intentDeadline))
    {
      var stop := IntentPhase(now, offset, target);
      if !stop {
        PickPhase(sections, offset);
      }
      ticking := false;
      frames := 0;
    }

    /** A click on link `a`: when its id is a key of the map, lock on it for the
        intent window and activate the mapped link (the last link with that id). */
    method Click(a: Link, now: real, reduced: bool)
      requires Valid() && a in links
      modifies this`intentId, this`intentDeadline, set l | l in links
      ensures Valid()
      ensures var t := Lookup(IdOf(a));
        && (t != null ==>
             && intentId == Some(IdOf(a)) && intentDeadline == now + IntentWindow(reduced)
             && OnlyActive(links, t))
        && (t == null ==>
             && intentId == old(intentId) && intentDeadline == old(intentDeadline)
             && forall l :: l in links ==> l.current == old(l.current))
    {
      var id := IdOf(a);
      var target := Lookup(id);
      if target != null {
        intentId := Some(id);
        intentDeadline := now + IntentWindow(reduced);
        SetActiveLink(links, target);
      }
    }
  }

  /** `initNavSectionTracker`: nothing without links or without any of their
      sections in the document. */
  method InitNavSectionTracker(links: seq<Link>, inDocument: set<string>, hash: string) returns (t: Tracker?)
    modifies set a | a in links
    ensures t == null <==> links == [] || PresentIds(KeyOrder(links), inDocument) == []
    ensures t == null ==> forall a :: a in links ==> a.current == old(a.current)
    ensures t != null ==> t.Valid() && t.links == links && OnlyActive(links, t.InitialLink(hash))
  {
    if links == [] || PresentIds(KeyOrder(links), inDocument) == [] {
      return null;
    }
    t := new Tracker(links, inDocument, hash);
  }
}

/** The pressed keys and the caption of the skills keyboard (src/components/Keyboard.jsx):
    the React state `pressedKeys` (a Set of key names, replaced by an updated copy on
    each change) and `activeSkill` (the banner text), driven by window keydown/keyup
    events and by the pointer entering or leaving a key. React state is modelled as a
    value and each handler as a transition on it. */
module KeyboardState {
  import SkillLabel

  /** The caption shown when no skill is active. */
  const Idle: string := "My Skills"

  datatype Board = Board(pressed: set<string>, caption: string)

  /** The events the component reacts to. `Down` carries the event's `repeat` flag;
      `Enter` carries the name of the key the pointer entered. */
  datatype Event = Down(code: string, repeat: bool) | Up(code: string) | Enter(key: string) | Leave

  /** `useState(new Set())` and `useState("My Skills")`. */
  function Initial(): (b: Board)
    ensures b.pressed == {} && b.caption == Idle
  {
    Board({}, Idle)
  }

  /** `keyMap[code]` is truthy: the code is bound, and to a non-empty name. */
  predicate Mapped(keyMap: map<string, string>, code: string) {
    code in keyMap && keyMap[code] != ""
  }

  /** `handleKeyDown`: a repeated event is ignored; a bound code adds its key to the
      pressed set and shows the key's label; any other code changes nothing. */
  function KeyDown(b: Board, keyMap: map<string, string>, code: string, repeat: bool): (r: Board)
    ensures repeat || !Mapped(keyMap, code) ==> r == b
    ensures !repeat && Mapped(keyMap, code) ==>
      r.pressed == b.pressed + {keyMap[code]} && r.caption == SkillLabel.ComputeSkillLabel(keyMap[code])
  {
    if repeat then b
    else if Mapped(keyMap, code) then
      var name := keyMap[code];
      Board(b.pressed + {name}, SkillLabel.ComputeSkillLabel(name))
    else b
  }

  /** `handleKeyUp`: a bound code removes its key from the pressed set and restores
      the idle caption, even while other keys are still held; any other code changes
      nothing. */
  function KeyUp(b: Board, keyMap: map<string, string>, code: string): (r: Board)
    ensures !Mapped(keyMap, code) ==> r == b
    ensures Mapped(keyMap, code) ==> r.pressed == b.pressed - {keyMap[code]} && r.caption == Idle
  {
    if Mapped(keyMap, code) then Board(b.pressed - {keyMap[code]}, Idle) else b
  }

  /** `onPointerEnter` of a key: its label becomes the caption; the pressed set is
      untouched. */
  function PointerEnter(b: Board, key: string): (r: Board)
    ensures r.pressed == b.pressed && r.caption == SkillLabel.ComputeSkillLabel(key)
  {
    b.(caption := SkillLabel.ComputeSkillLabel(key))
  }

  /** `onLeave`: the idle caption returns only when no key is pressed. */
  function PointerLeave(b: Board): (r: Board)
    ensures r.pressed == b.pressed
    ensures r.caption == (if b.pressed == {} then Idle else b.caption)
  {
    if |b.pressed| == 0 then b.(caption := Idle) else b
  }

  /** `isPressed={pressedKeys.has(keyNode.name)}`. */
  predicate IsPressed(b: Board, key: string) {
    key in b.pressed
  }

  function Step(b: Board, keyMap: map<string, string>, e: Event): Board {
    match e
    case Down(code, repeat) => KeyDown(b, keyMap, code, repeat)
    case Up(code) => KeyUp(b, keyMap, code)
    case Enter(key) => PointerEnter(b, key)
    case Leave => PointerLeave(b)
  }

  /** The board after a sequence of events, the last one applied last. */
  function Run(b: Board, keyMap: map<string, string>, events: seq<Event>): Board
    decreases |events|
  {
    if events == [] then b
    else Step(Run(b, keyMap, events[..|events| - 1]), keyMap, events[|events| - 1])
  }

  // ---------------------------------------------------------------------------
  // Properties of single transitions

  /** Pressing a key that is already held changes nothing but the caption, and
      pressing it twice is pressing it once. */
  lemma {:induction false} KeyDownIdempotent(b: Board, keyMap: map<string, string>, code: string)
    ensures var once := KeyDown(b, keyMap, code, false);
      KeyDown(once, keyMap, code, false) == once
  {
    if Mapped(keyMap, code) {
      var name := keyMap[code];
      assert b.pressed + {name} + {name} == b.pressed + {name};
    }
  }

  /** Releasing a key right after pressing it restores the pressed set the key was not
      part of, and leaves the idle caption. */
  lemma {:induction false} KeyUpUndoesKeyDown(b: Board, keyMap: map<string, string>, code: string)
    requires Mapped(keyMap, code) && keyMap[code] !in b.pressed
    ensures KeyUp(KeyDown(b, keyMap, code, false), keyMap, code) == Board(b.pressed, Idle)
  {
    var name := keyMap[code];
    assert b.pressed + {name} - {name} == b.pressed;
  }

  /** The pointer leaving a key leaves the caption alone exactly when some key is
      held. */
  lemma {:induction false} LeaveKeepsCaptionIff(b: Board)
    requires b.caption != Idle
    ensures PointerLeave(b) == b <==> b.pressed != {}
  {
    if b.pressed != {} {
      var k :| k in b.pressed;
      assert |b.pressed| > 0;
    }
  }

  // ---------------------------------------------------------------------------
  // Invariants over any sequence of events

  /** Every pressed key is a key some code is bound to, and the caption is never
      empty. */
  predicate Valid(b: Board, keyMap: map<string, string>) {
    (forall k :: k in b.pressed ==> k in keyMap.Values) && |b.caption| > 0
  }

  lemma {:induction false} StepValid(b: Board, keyMap: map<string, string>, e: Event)
    requires Valid(b, keyMap)
    ensures Valid(Step(b, keyMap, e), keyMap)
  {
    match e
    case Down(code, repeat) =>
      if !repeat && Mapped(keyMap, code) {
        SkillLabel.SiteLabelNonEmpty(keyMap[code]);
      }
    case Up(code) =>
    case Enter(key) =>
      SkillLabel.SiteLabelNonEmpty(key);
    case Leave =>
  }

  lemma {:induction false} RunValid(keyMap: map<string, string>, events: seq<Event>)
    ensures Valid(Run(Initial(), keyMap, events), keyMap)
    decreases |events|
  {
    if events != [] {
      RunValid(keyMap, events[..|events| - 1]);
      StepValid(Run(Initial(), keyMap, events[..|events| - 1]), keyMap, events[|events| - 1]);
    }
  }

  /** Event `e` presses key `k`: a first (not repeated) keydown of a code bound to it. */
  predicate Presses(keyMap: map<string, string>, e: Event, k: string) {
    e.Down? && !e.repeat && Mapped(keyMap, e.code) && keyMap[e.code] == k
  }

  /** Event `e` releases key `k`: a keyup of a code bound to it. */
  predicate Releases(keyMap: map<string, string>, e: Event, k: string) {
    e.Up? && Mapped(keyMap, e.code) && keyMap[e.code] == k
  }

  /** Key `k` is held after `events`: some event pressed it and no later event released
      it. */
  predicate Held(keyMap: map<string, string>, events: seq<Event>, k: string) {
    exists i :: 0 <= i < |events| && Presses(keyMap, events[i], k) &&
      forall j :: i < j < |events| ==> !Releases(keyMap, events[j], k)
  }

  /** Only keydown and keyup events touch the pressed set, and each touches one key. */
  lemma {:induction false} StepPressed(b: Board, keyMap: map<string, string>, e: Event, k: string)
    ensures k in Step(b, keyMap, e).pressed <==>
      Presses(keyMap, e, k) || (k in b.pressed && !Releases(keyMap, e, k))
  {
  }

  /** Held after one more event: pressed by it, or held before and not released by it. */
  lemma {:induction false} HeldStep(keyMap: map<string, string>, prev: seq<Event>, e: Event, k: string)
    ensures Held(keyMap, prev + [e], k) <==>
      Presses(keyMap, e, k) || (Held(keyMap, prev, k) && !Releases(keyMap, e, k))
  {
    var events := prev + [e];
    if Held(keyMap, events, k) && !Presses(keyMap, e, k) {
      HeldShrinks(keyMap, prev, e, k);
    }
    if Presses(keyMap, e, k) {
      assert events[|prev|] == e;
    }
    if Held(keyMap, prev, k) && !Releases(keyMap, e, k) {
      HeldGrows(keyMap, prev, e, k);
    }
  }

  lemma {:induction false} HeldShrinks(keyMap: map<string, string>, prev: seq<Event>, e: Event, k: string)
    requires Held(keyMap, prev + [e], k) && !Presses(keyMap, e, k)
    ensures Held(keyMap, prev, k) && !Releases(keyMap, e, k)
  {
    var events := prev + [e];
    var i :| 0 <= i < |events| && Presses(keyMap, events[i], k) &&
      forall j :: i < j < |events| ==> !Releases(keyMap, events[j], k);
    assert events[|prev|] == e;
    assert i < |prev|;
    assert !Releases(keyMap, events[|prev|], k);
    assert prev[i] == events[i];
    assert forall j :: i < j < |prev| ==> prev[j] == events[j];
  }

  lemma {:induction false} HeldGrows(keyMap: map<string, string>, prev: seq<Event>, e: Event, k: string)
    requires Held(keyMap, prev, k) && !Releases(keyMap, e, k)
    ensures Held(keyMap, prev + [e], k)
  {
    var events := prev + [e];
    var i :| 0 <= i < |prev| && Presses(keyMap, prev[i], k) &&
      forall j :: i < j < |prev| ==> !Releases(keyMap, prev[j], k);
    assert events[i] == prev[i];
    assert forall j :: i < j < |prev| ==> events[j] == prev[j];
    assert events[|prev|] == e;
  }

  /** The pressed set after any sequence of events is exactly the set of held keys. */
  lemma {:induction false} PressedIsHeld(keyMap: map<string, string>, events: seq<Event>, k: string)
    ensures IsPressed(Run(Initial(), keyMap, events), k) <==> Held(keyMap, events, k)
    decreases |events|
  {
    if events != [] {
      var n := |events| - 1;
      var prev, e := events[..n], events[n];
      assert events == prev + [e];
      PressedIsHeld(keyMap, prev, k);
      StepPressed(Run(Initial(), keyMap, prev), keyMap, e, k);
      HeldStep(keyMap, prev, e, k);
    }
  }
}

/** The typewriter role rotator: frontend/src/js/modules/role-rotator.js (copied
    verbatim in src/js/main.js lines 610-687) and its React copy
    frontend/src/components/RoleRotator.jsx. Without reduced motion, the closure
    variables `pi` (phrase index) and `ci` (character index) are stepped by the
    callbacks `type` and `erase`, each of which schedules exactly one successor; a
    timer firing is one step here and the delays are left out. With reduced motion a
    counter `i` cycles through the phrases on an interval. */
module RoleRotator {
  import opened Wrappers
  import Arith

  /** The two phrases used when `data-phrases` gives none. */
  const DefaultPhrases: seq<string> := ["Backend Developer", "CS & Econometrics Student"]

  /** `JSON.parse(el.getAttribute("data-phrases") || "[]")` with the fallback: `parsed`
      is the parsed array, or `None` when parsing threw; an absent attribute parses as
      the empty array. */
  function LoadPhrases(parsed: Option<seq<string>>): (phrases: seq<string>)
    ensures |phrases| > 0
    ensures parsed.Some? && parsed.value != [] ==> phrases == parsed.value
    ensures parsed.None? || parsed == Some([]) ==> phrases == DefaultPhrases
  {
    match parsed
    case None => DefaultPhrases
    case Some(ps) => if |ps| == 0 then DefaultPhrases else ps
  }

  // ---------------------------------------------------------------------------
  // The typing machine

  /** The one callback that is scheduled: `type`, the hold timeout (whose callback
      schedules `erase`), or `erase`. */
  datatype Pending = TypeNext | Hold | EraseNext

  datatype Machine = Machine(pi: nat, ci: nat, text: string, pending: Pending)

  /** Before the first call of `type()`: `pi = 0`, `ci = 0`, the text span empty. */
  function Initial(): Machine {
    Machine(0, 0, "", TypeNext)
  }

  /** The scheduled callback runs. `type` shows the first `ci` characters and
      advances `ci` while `ci <= word.length`, then schedules the hold; the hold
      schedules `erase`; `erase` decrements `ci` and shows the first `ci` characters,
      and once `ci` is 0 moves to the next phrase and schedules `type`. */
  function Fire(phrases: seq<string>, m: Machine): (r: Machine)
    requires m.pi < |phrases| && m.ci <= |phrases[m.pi]| + 1
    ensures r.pi < |phrases| && r.ci <= |phrases[r.pi]| + 1
  {
    var word := phrases[m.pi];
    match m.pending
    case TypeNext =>
      if m.ci <= |word| then Machine(m.pi, m.ci + 1, word[..m.ci], TypeNext)
      else m.(pending := Hold)
    case Hold => m.(pending := EraseNext)
    case EraseNext =>
      if m.ci > 0 then Machine(m.pi, m.ci - 1, word[..m.ci - 1], EraseNext)
      else Machine((m.pi + 1) % |phrases|, 0, m.text, TypeNext)
  }

  /** What the text is in each phase: while typing, the first `ci - 1` characters (none
      at the start of a word); while holding, the whole word; while erasing, the first
      `ci` characters, except right after the hold, where `ci` is one past the end. */
  predicate Valid(phrases: seq<string>, m: Machine) {
    && m.pi < |phrases|
    && var word := phrases[m.pi];
      && m.ci <= |word| + 1
      && match m.pending
        case TypeNext => (m.ci == 0 && m.text == []) || (m.ci > 0 && m.text == word[..m.ci - 1])
        case Hold => m.ci == |word| + 1 && m.text == word
        case EraseNext => (m.ci == |word| + 1 && m.text == word) || (m.ci <= |word| && m.text == word[..m.ci])
  }

  /** The text shown is always a prefix of the current phrase. */
  lemma {:induction false} ValidPrefix(phrases: seq<string>, m: Machine)
    requires Valid(phrases, m)
    ensures m.text <= phrases[m.pi]
  {
  }

  lemma {:induction false} InitialValid(phrases: seq<string>)
    requires |phrases| > 0
    ensures Valid(phrases, Initial())
  {
  }

  lemma {:induction false} FireValid(phrases: seq<string>, m: Machine)
    requires Valid(phrases, m)
    ensures Valid(phrases, Fire(phrases, m))
  {
    var word := phrases[m.pi];
    match m.pending
    case TypeNext =>
      if m.ci > |word| {
        assert m.text == word[..|word|];
      }
    case Hold =>
    case EraseNext =>
  }

  /** `k` callbacks in a row. */
  function Steps(phrases: seq<string>, m: Machine, k: nat): (r: Machine)
    requires Valid(phrases, m)
    ensures Valid(phrases, r)
    decreases k
  {
    if k == 0 then m
    else
      FireValid(phrases, m);
      Steps(phrases, Fire(phrases, m), k - 1)
  }

  lemma {:induction false} StepsAdd(phrases: seq<string>, m: Machine, a: nat, b: nat)
    requires Valid(phrases, m)
    ensures Steps(phrases, m, a + b) == Steps(phrases, Steps(phrases, m, a), b)
    decreases a
  {
    if a > 0 {
      FireValid(phrases, m);
      StepsAdd(phrases, Fire(phrases, m), a - 1, b);
    }
  }

  /** The start of phrase `pi`: nothing typed yet, `type` scheduled. */
  function WordStart(pi: nat): Machine {
    Machine(pi, 0, "", TypeNext)
  }

  /** Typing shows the prefixes of length 0, 1, ..., in order: after `k + 1` calls of
      `type` the first `k` characters are shown. */
  lemma {:induction false} TypingShowsPrefixes(phrases: seq<string>, pi: nat, k: nat)
    requires pi < |phrases| && k <= |phrases[pi]|
    ensures Steps(phrases, WordStart(pi), k + 1) == Machine(pi, k + 1, phrases[pi][..k], TypeNext)
  {
    var word := phrases[pi];
    if k == 0 {
      assert Fire(phrases, WordStart(pi)) == Machine(pi, 1, word[..0], TypeNext);
    } else {
      TypingShowsPrefixes(phrases, pi, k - 1);
      StepsAdd(phrases, WordStart(pi), k, 1);
    }
  }

  /** Once the whole word is shown (`ci` one past its end), `type` schedules the hold
      and the hold schedules `erase`, the text staying the whole word. */
  lemma {:induction false} TypedThenHold(phrases: seq<string>, pi: nat)
    requires pi < |phrases|
    ensures var word := phrases[pi];
      Steps(phrases, WordStart(pi), |word| + 3) == Machine(pi, |word| + 1, word, EraseNext)
  {
    var word := phrases[pi];
    TypingShowsPrefixes(phrases, pi, |word|);
    StepsAdd(phrases, WordStart(pi), |word| + 1, 2);
    assert word[..|word|] == word;
  }

  /** Erasing counts `ci` down: after `k` calls of `erase` from one past the end, `ci`
      is `len + 1 - k`; the first call shows the whole word again. */
  lemma {:induction false} ErasingCountsDown(phrases: seq<string>, pi: nat, k: nat)
    requires pi < |phrases| && 1 <= k <= |phrases[pi]| + 1
    ensures var word := phrases[pi];
      Steps(phrases, Machine(pi, |word| + 1, word, EraseNext), k) ==
        Machine(pi, |word| + 1 - k, word[..|word| + 1 - k], EraseNext)
  {
    var word := phrases[pi];
    var e := Machine(pi, |word| + 1, word, EraseNext);
    if k > 1 {
      ErasingCountsDown(phrases, pi, k - 1);
      StepsAdd(phrases, e, k - 1, 1);
    }
  }

  /** A whole cycle: after typing, holding and erasing phrase `pi`, the machine is at
      the start of phrase `(pi + 1) mod n`. */
  lemma {:induction false} CycleAdvances(phrases: seq<string>, pi: nat)
    requires pi < |phrases|
    ensures var len := |phrases[pi]|;
      Steps(phrases, WordStart(pi), 2 * len + 5) == WordStart((pi + 1) % |phrases|)
  {
    var word := phrases[pi];
    var len := |word|;
    var e := Machine(pi, len + 1, word, EraseNext);
    TypedThenHold(phrases, pi);
    ErasingCountsDown(phrases, pi, len + 1);
    StepsAdd(phrases, WordStart(pi), len + 3, len + 1);
    StepsAdd(phrases, WordStart(pi), 2 * len + 4, 1);
    assert word[..0] == [];
  }

  // ---------------------------------------------------------------------------
  // The DOM rotator

  /** `initRoleRotator` without reduced motion, after its first synchronous `type()`
      call. */
  class Typewriter {
    const phrases: seq<string>
    var pi: nat
    var ci: nat
    /** The `textContent` of the `typewriter__text` span. */
    var text: string
    var pending: Pending

    function State(): Machine
      reads this
    {
      Machine(pi, ci, text, pending)
    }

    predicate Ok()
      reads this
    {
      Valid(phrases, State())
    }

    constructor (parsed: Option<seq<string>>)
      ensures phrases == LoadPhrases(parsed)
      ensures State() == Fire(phrases, Initial()) && Ok()
    {
      phrases := LoadPhrases(parsed);
      pi, ci, text, pending := 0, 0, "", TypeNext;
      new;
      TypeStep();
      FireValid(phrases, Initial());
    }

    /** `type()`. */
    method TypeStep()
      requires pi < |phrases| && ci <= |phrases[pi]| + 1 && pending == TypeNext
      modifies this
      ensures State() == Fire(phrases, old(State()))
    {
      var word := phrases[pi];
      if ci <= |word| {
        text := word[..ci];
        ci := ci + 1;
        pending := TypeNext;
      } else {
        pending := Hold;
      }
    }

    /** `erase()`. */
    method EraseStep()
      requires pi < |phrases| && ci <= |phrases[pi]| + 1 && pending == EraseNext
      modifies this
      ensures State() == Fire(phrases, old(State()))
    {
      var word := phrases[pi];
      if ci > 0 {
        ci := ci - 1;
        text := word[..ci];
        pending := EraseNext;
      } else {
        pi := (pi + 1) % |phrases|;
        ci := 0;
        pending := TypeNext;
      }
    }

    /** The pending timer fires. */
    method Tick()
      requires Ok()
      modifies this
      ensures State() == Fire(phrases, old(State())) && Ok()
    {
      FireValid(phrases, State());
      match pending
      case TypeNext => TypeStep();
      case Hold => pending := EraseNext;
      case EraseNext => EraseStep();
    }
  }

  // ---------------------------------------------------------------------------
  // The React rotator

  /** RoleRotator.jsx without reduced motion: the same machine, plus the browser's
      pending timers (id to callback) and the `timeoutId` every callback stores. */
  class ReactTypewriter {
    const phrases: seq<string>
    var pi: nat
    var ci: nat
    /** The `text` state. */
    var text: string
    var pending: Pending
    var timeoutId: nat
    /** The timers the browser still has to run. */
    var timers: map<nat, Pending>
    /** The id the next `setTimeout` returns. */
    var nextId: nat

    function State(): Machine
      reads this
    {
      Machine(pi, ci, text, pending)
    }

    /** Exactly one timer is pending, it runs the machine's next callback, and its id
        is the one stored in `timeoutId`. */
    predicate Ok()
      reads this
    {
      Valid(phrases, State()) && timers == map[timeoutId := pending] && timeoutId < nextId
    }

    /** The effect's first run: `type()` right away. */
    constructor (phrases: seq<string>)
      requires |phrases| > 0
      ensures this.phrases == phrases
      ensures State() == Fire(phrases, Initial()) && Ok()
    {
      this.phrases := phrases;
      pi, ci, text, pending := 0, 0, "", TypeNext;
      timers := map[];
      timeoutId, nextId := 0, 0;
      new;
      FireValid(phrases, Initial());
      text := phrases[0][..0];
      ci := 1;
      Schedule(TypeNext);
    }

    /** `timeoutId = setTimeout(callback, delay)`. */
    method Schedule(callback: Pending)
      modifies this`timers, this`timeoutId, this`nextId, this`pending
      ensures timeoutId == old(nextId) && nextId == old(nextId) + 1
      ensures timers == old(timers)[timeoutId := callback] && pending == callback
    {
      timeoutId := nextId;
      timers := timers[timeoutId := callback];
      nextId := nextId + 1;
      pending := callback;
    }

    /** The only pending timer fires: it leaves the browser's list and its callback
        runs, scheduling exactly one successor. */
    method Tick()
      requires Ok()
      modifies this
      ensures State() == Fire(phrases, old(State())) && Ok()
      ensures timeoutId == old(nextId)
    {
      FireValid(phrases, State());
      timers := timers - {timeoutId};
      var word := phrases[pi];
      match pending
      case TypeNext =>
        if ci <= |word| {
          text := word[..ci];
          ci := ci + 1;
          Schedule(TypeNext);
        } else {
          Schedule(Hold);
        }
      case Hold =>
        Schedule(EraseNext);
      case EraseNext =>
        if ci > 0 {
          ci := ci - 1;
          text := word[..ci];
          Schedule(EraseNext);
        } else {
          pi := (pi + 1) % |phrases|;
          ci := 0;
          Schedule(TypeNext);
        }
    }

    /** The effect's cleanup, `clearTimeout(timeoutId)`: cancels the only pending
        step, so no callback runs afterwards. */
    method Cleanup()
      requires Ok()
      modifies this`timers
      ensures timers == map[]
    {
      timers := timers - {timeoutId};
    }
  }

  // ---------------------------------------------------------------------------
  // Reduced motion

  /** The interval loop: `i = (i + 1) % phrases.length` and show `phrases[i]`. The DOM
      version shows `phrases[0]` at once; the React copy starts from its initial text
      "", so its first tick shows `phrases[1 mod n]`. */
  class Cycler {
    const phrases: seq<string>
    const showsFirst: bool
    var i: nat
    var text: string
    /** Interval ticks so far. */
    ghost var ticks: nat

    constructor (phrases: seq<string>, showsFirst: bool)
      requires |phrases| > 0
      ensures this.phrases == phrases && this.showsFirst == showsFirst
      ensures i == 0 && ticks == 0 && text == (if showsFirst then phrases[0] else "")
    {
      this.phrases := phrases;
      this.showsFirst := showsFirst;
      i := 0;
      ticks := 0;
      text := if showsFirst then phrases[0] else "";
    }

    /** The phrase shown after `ticks` ticks: the one at index `ticks mod n` (none yet
        before the first tick of the React copy). */
    ghost predicate Shows()
      reads this
    {
      && |phrases| > 0
      && i == ticks % |phrases|
      && (ticks > 0 || showsFirst ==> text == phrases[i])
      && (ticks == 0 && !showsFirst ==> text == "")
    }

    method Tick()
      requires Shows()
      modifies this
      ensures i == (old(i) + 1) % |phrases| && text == phrases[i]
      ensures ticks == old(ticks) + 1 && Shows()
    {
      ModSucc(ticks, |phrases|);
      i := (i + 1) % |phrases|;
      text := phrases[i];
      ticks := ticks + 1;
    }
  }

  lemma {:induction false} ModSucc(k: nat, n: nat)
    requires n > 0
    ensures (k % n + 1) % n == (k + 1) % n
  {
    var q, r := k / n, k % n;
    assert k == q * n + r;
    if r + 1 < n {
      Arith.ModUnique(k + 1, n, q, r + 1);
      Arith.ModUnique(r + 1, n, 0, r + 1);
    } else {
      assert k + 1 == (q + 1) * n;
      Arith.ModUnique(k + 1, n, q + 1, 0);
      Arith.ModUnique(r + 1, n, 1, 0);
    }
  }
}

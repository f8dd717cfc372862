# Portfolio site rules in Dafny

This project models the browser-side rules of a personal portfolio site and proves
properties of them. The site exists in three generations: a module-based front end
(frontend/src/js), a later module set with two monolithic scripts (src/js/main.js and
src/main.js), and React components (src/components, src/hooks). Each core file is one
Dafny module:

- **Helpers**: `norm`, which lower-cases and trims filter values, and the HTML
  escapers `esc` and `escAttr`.
- **ProjectGrid, ProjectFilters, ProjectLoader**: the project gallery.
  - The category dropdown marks each card "hidden" or not. It moves the matching
    cards in front of the others and resets the pager.
  - The "Load more" pager shows the first `shownCount` visible cards and marks the
    rest "pager-hidden".
  - The cards are a `Gallery` class whose `cards` sequence the methods update in
    place.
- **MainCopies**: the two ways the monolithic scripts wire the gallery.
  - src/main.js filters a card list it captured once, at load.
  - src/js/main.js runs the initial filter before its pager exists.
- **UseProjects**: the React hook that filters the project list by exact category.
- **ContactForm**: the field validation rules and the focus/blur handlers.
- **KeyLayout, SkillLabel, KeyboardState**: the 3-D skills keyboard.
  - KeyLayout binds key codes to key meshes by position.
  - SkillLabel computes a key's caption.
  - KeyboardState tracks the pressed keys and the caption across events.
- **RoleRotator**: the typewriter that types and erases the hero phrases. It has a
  DOM version, a React version and a reduced-motion cycler.
- **NavTracker**: keeps one navigation link active, driven by the observer, the
  scroll frames and link clicks.
- **ScrollCue**: the "scroll to next section" cue, meaning its target and its scroll
  offset.
- **ProjectModal**: the project detail modal.
  - The data a card supplies, through fallback chains.
  - The pill selection and the keyboard focus trap.
  - The close sequence and the open guard.
  - Where its three copies differ.
- **Avatar**: which animation clip plays, and `normalizeClipStart` on the keyframe
  arrays.
- **ExportIcons**: the `toSiKey` rule of the icon export script.

Text, Wrappers and Arith are shared helpers:
- Text covers ASCII case, trimming, splitting and character runs.
- Wrappers holds `Option`.
- Arith holds a modulo fact.

**How the source is modelled**
- Closures that keep state become classes with `modifies` clauses. This covers the
  pager, the typewriters, the tracker, the dropdown, the inputs and the modal.
- Pure rules become functions with lemmas.
- The source's loops become `while` loops with invariants. Each loop method is tied
  to a specification function.
- Geometry and time arrive as parameters. They are reals in the tracker, the scroll cue
  and the avatar, and integers for the keyboard's key positions.

## Model

| member | source | states |
|---|---|---|
| Helpers.Norm | src/js/utils/helpers.js:3 | a missing value normalises to "" and normalising never lengthens; NormShape and NormIdempotent state its shape and idempotence |
| Helpers.NormShape | src/js/utils/helpers.js:3 | a normalised value has no upper-case letter and no whitespace at either end; a missing or empty value normalises to "" |
| Helpers.NormIdempotent | src/js/utils/helpers.js:3 | normalising twice is normalising once |
| Helpers.Esc | src/js/utils/helpers.js:5-13 | escaping never shortens and gives "" only for ""; EscSafe, UnescapeEsc and EscInjective state safety, the round trip and injectivity |
| Helpers.EscSafe | src/js/utils/helpers.js:5-13 | escaped text has no `<`, `>`, `"`, `'`, and every `&` in it begins one of the five entities |
| Helpers.UnescapeEsc | src/js/utils/helpers.js:5-13 | decoding the five entities undoes `esc` (round trip) |
| Helpers.EscInjective | src/js/utils/helpers.js:5-13 | different strings escape differently |
| Helpers.EscLength | src/js/utils/helpers.js:5-13 | escaping never shortens, and lengthens whenever a special character is present |
| Helpers.EscIdentity | src/js/utils/helpers.js:5-13 | `esc(s) == s` exactly when s has none of the five special characters |
| Helpers.EscIdempotentIff | src/js/utils/helpers.js:5-13 | escaping is idempotent exactly on text without special characters |
| Helpers.EscNotIdempotent | src/js/utils/helpers.js:5-13 | double escaping "&" gives "&amp;amp;" |
| Helpers.EscAttr | src/js/utils/helpers.js:14-16 | attribute escaping never shortens; EscAttrIsEsc proves it equal to `esc` |
| Helpers.EscAttrIsEsc | src/js/utils/helpers.js:14-16 | `escAttr` equals `esc`: no `"` survives escaping, so the second replace never fires |
| ProjectGrid.Categories | frontend/src/js/modules/project-filters.js:21 | a card's categories are the words of its normalised `data-project`, or the single empty string when that is empty |
| ProjectGrid.VisibleMembers | src/js/modules/project-loader.js:18-21 | a card is visible exactly when it is a card of the grid without "hidden" |
| ProjectFilters.MatchTestIsMatches | frontend/src/js/modules/project-filters.js:22 | the filter's test is "all" or membership in the card's categories |
| ProjectFilters.StablePartition | frontend/src/js/modules/project-filters.js:15-33 | after the loop and the re-append, the passing cards come first in their original order, then the others in theirs |
| ProjectFilters.HiddenLast | frontend/src/js/modules/project-filters.js:20-33 | every unhidden card precedes every hidden one |
| ProjectFilters.HiddenIff | frontend/src/js/modules/project-filters.js:20-29 | a card ends unhidden exactly when it passes the test; nothing but "hidden" changes |
| ProjectFilters.PartitionIsPermutation | frontend/src/js/modules/project-filters.js:30-33 | re-appending reorders the cards without losing or adding any |
| ProjectFilters.Filtered | frontend/src/js/modules/project-filters.js:15-35 | the filter keeps the number of cards; FilteredHiddenIff and FilteredIsStablePartition state visibility, permutation and stable order |
| ProjectFilters.FilteredHiddenIff | frontend/src/js/modules/project-filters.js:15-29 | `applyFilter(v)` shows exactly the cards with "all" or v among their categories |
| ProjectFilters.FilteredIsStablePartition | frontend/src/js/modules/project-filters.js:15-33 | the filtered gallery is a permutation, a stable partition, and has the hidden cards last |
| ProjectFilters.FilterAllKeepsOrder | frontend/src/js/modules/project-filters.js:22-32 | filtering by "all" keeps the card order |
| ProjectFilters.FilterAllShowsAll | frontend/src/js/modules/project-filters.js:22-24 | filtering by "all" unhides every card |
| ProjectFilters.EmptyValueMatchesUncategorised | frontend/src/js/modules/project-filters.js:21-22 | the empty filter value matches exactly the cards whose normalised `data-project` is empty |
| ProjectFilters.MarkCards | frontend/src/js/modules/project-filters.js:20-29 | the loop toggles "hidden" in place and builds `matching` and `rest` as the reference partition |
| ProjectFilters.NoneLost | frontend/src/js/modules/project-filters.js:20-29 | every card is pushed onto exactly one of `matching` and `rest` |
| ProjectFilters.ApplyFilter | frontend/src/js/modules/project-filters.js:15-35 | the gallery becomes the filtered partition; with a pager, the pager is reset on it |
| ProjectFilters.FirstSelected | frontend/src/js/modules/project-filters.js:55-57 | the index of the first option with `aria-selected="true"`, none when there is none |
| ProjectFilters.InitialFilter | frontend/src/js/modules/project-filters.js:55-57 | the selected option's non-empty `data-filter`, else "all" |
| ProjectFilters.Dropdown.constructor | frontend/src/js/modules/project-filters.js:6-58 | set-up applies the initial filter; with a pager, the filtered cards are then limited to one page |
| ProjectFilters.Dropdown.Click | frontend/src/js/modules/project-filters.js:38-46 | a click sets the label to the trimmed option text, selects only that option, filters by its value, resets the pager to one page with its button updated, and closes the dropdown |
| ProjectFilters.Dropdown.OptionKey | frontend/src/js/modules/project-filters.js:47-52 | Enter and Space cancel the default action and have exactly a click's effect: the label, the single selected option, the filtered (and, with a pager, paged) gallery, the reset pager and the closed dropdown; other keys change nothing |
| ProjectFilters.Dropdown.AttachPager | src/js/main.js:253 | later filters reset the pager assigned after set-up |
| ProjectFilters.ClickSelectsOne | frontend/src/js/modules/project-filters.js:41-43 | after a click the clicked option is the one the initial-filter rule picks |
| ProjectLoader.Limited | src/js/modules/project-loader.js:23-37 | `apply` keeps every card's identity, position and "hidden" class; LimitedDisplayed and LimitedPrefix state which cards are displayed |
| ProjectLoader.LimitedOnlyPagerHidden | src/js/modules/project-loader.js:23-37 | `apply` changes nothing but "pager-hidden" |
| ProjectLoader.LimitedHidesHidden | src/js/modules/project-loader.js:34-36 | every card the filter hid is pager-hidden after `apply` |
| ProjectLoader.LimitedKeepsVisible | src/js/modules/project-loader.js:23-37 | `apply` leaves the number of visible cards alone |
| ProjectLoader.LimitedDisplayed | src/js/modules/project-loader.js:23-37 | exactly min(max(limit, 0), visible) cards are displayed |
| ProjectLoader.LimitedPrefix | src/js/modules/project-loader.js:24-33 | the j-th visible card is displayed exactly when j < limit |
| ProjectLoader.NextCount | src/js/modules/project-loader.js:57 | the next count never exceeds the total and never drops below min(shown, total) |
| ProjectLoader.ClicksProgress | src/js/modules/project-loader.js:55-60 | each click shows at least one more card until all are shown |
| ProjectLoader.ClicksReachTotal | src/js/modules/project-loader.js:40-60 | enough clicks show every visible card |
| ProjectLoader.Pager.Apply | src/js/modules/project-loader.js:23-37 | the two loops turn the cards into the reference `Limited(cards, limit)` |
| ProjectLoader.Pager.UpdateButton | src/js/modules/project-loader.js:40-47 | the button is hidden exactly when `shownCount` reaches the number of visible cards |
| ProjectLoader.Pager.Reset | src/js/modules/project-loader.js:49-53 | back to one page: count `perPage`, cards limited to it, button updated |
| ProjectLoader.Pager.ShowMore | src/js/modules/project-loader.js:55-60 | one more page, capped at the visible total; cards limited to the new count |
| ProjectLoader.Pager.constructor | src/js/modules/project-loader.js:7-16 | a button is created only when none exists; the pager starts reset |
| ProjectLoader.InitLoadMore | src/js/modules/project-loader.js:3-53 | no grid gives no pager; otherwise a fresh pager on the grid, reset to one page, with the button hidden exactly when every visible card is shown |
| MainCopies.LegacyApplyFilter | src/main.js:118-138 | filtering the captured list: uncaptured cards stay in front, untouched; the captured cards are partitioned behind them |
| MainCopies.LegacyAgreesWhenNothingAdded | src/main.js:118-138 | when every card was captured at load, the legacy filter and the module filter agree |
| MainCopies.LegacyAllRestoresLoadOrder | src/main.js:134-137 | "all" re-appends the captured cards in load order |
| MainCopies.LegacyLeavesLateCards | src/main.js:118-124 | cards added after load are neither filtered nor moved, and the captured set stays intact |
| MainCopies.RefilterAll | src/main.js:118-138 | after any filter, "all" restores load order in the legacy copy but keeps the current order in the module |
| MainCopies.MainJsStartup | src/js/main.js:56-58 | the initial filter runs with no pager; the pager of 3 then limits the filtered cards and is attached for later filters |
| UseProjects.WithCategory | src/hooks/useProjects.js:16 | every kept project has exactly that category |
| UseProjects.FilteredProjects | src/hooks/useProjects.js:12-17 | "all" gives the whole list; otherwise only projects of that category |
| UseProjects.FilteredIsSubsequence | src/hooks/useProjects.js:12-17 | the result is the loaded list with some projects removed, order kept |
| UseProjects.WithCategoryCount | src/hooks/useProjects.js:16 | as many projects come out as have the category |
| UseProjects.FilteredMembers | src/hooks/useProjects.js:12-17 | a project is in the result exactly when it is loaded and the filter is "all" or its category |
| UseProjects.WithCategoryMembers | src/hooks/useProjects.js:16 | membership in the category filter is loaded-and-equal |
| UseProjects.ExactNotTokens | src/hooks/useProjects.js:16 | "web" does not match a "web mobile" project here, though the DOM filter matches it |
| ContactForm.Kind | frontend/src/js/modules/contact-form.js:7-13 | the kind has no upper-case letter |
| ContactForm.KindPrecedence | frontend/src/js/modules/contact-form.js:7-13 | the kind is the lower-cased first non-empty of `data-validate`, `name`, `type`, `placeholder` |
| ContactForm.FirstNonEmpty | frontend/src/js/modules/contact-form.js:8-12 | the result is "" or one of the inputs, and non-empty whenever some input is |
| ContactForm.EmailIff | frontend/src/js/modules/contact-form.js:17 | the e-mail regex accepts exactly the strings with no whitespace, one "@" with text before it, and an inner "." after it |
| ContactForm.Validate | frontend/src/js/modules/contact-form.js:5-23 | on the trimmed value, a name field needs 2 characters, a message or textarea 10, and a field with no rule passes; BlankFails and ValidateIgnoresPadding state blank values and padding |
| ContactForm.Verdict | frontend/src/js/modules/contact-form.js:15-19 | the first matching rule decides: name needs 2 characters, email the regex, message or textarea 10; anything else passes |
| ContactForm.BlankFails | frontend/src/js/modules/contact-form.js:6-19 | an all-whitespace value fails every rule a field can be subject to |
| ContactForm.ValidateIgnoresPadding | frontend/src/js/modules/contact-form.js:6 | surrounding whitespace never changes the verdict |
| ContactForm.Input.ValidateInput | frontend/src/js/modules/contact-form.js:5-24 | returns the verdict and sets exactly one of "error"/"success" to match it |
| ContactForm.Input.Focus | frontend/src/js/modules/contact-form.js:36-38 | focus removes both classes once the handler is attached |
| ContactForm.Input.Blur | frontend/src/js/modules/contact-form.js:39 | blur re-validates once the handler is attached |
| ContactForm.FindForm | frontend/src/js/modules/contact-form.js:27-31 | the first lookup that finds an element, null when none does |
| ContactForm.InitContactForm | frontend/src/js/modules/contact-form.js:26-41 | every `input, textarea` of a found form gets the handlers, and its classes are untouched |
| KeyLayout.Keys | src/components/Keyboard.jsx:97-99 | exactly the meshes named `key_…`, in order |
| KeyLayout.KeysOfKeys | src/components/Keyboard.jsx:97-99 | a model made only of keys is its own key list |
| KeyLayout.SortBy | src/components/Keyboard.jsx:105 | the sort is a permutation |
| KeyLayout.SortBySorted | src/components/Keyboard.jsx:105 | the sort orders by the coordinate |
| KeyLayout.SortStable | src/components/Keyboard.jsx:105 | ties keep their relative order |
| KeyLayout.Grid | src/components/Keyboard.jsx:106-114 | four rows of six; row r holds the keys ranked 6r to 6r+5 from the front |
| KeyLayout.RowsFrontToBack | src/components/Keyboard.jsx:105-111 | a key of an earlier row is never behind a key of a later row |
| KeyLayout.RowLeftToRight | src/components/Keyboard.jsx:112-114 | within a row the keys run left to right |
| KeyLayout.GridIsPermutation | src/components/Keyboard.jsx:105-114 | the grid holds every key exactly once |
| KeyLayout.GridNamesDistinct | src/components/Keyboard.jsx:105-114 | with distinctly named keys, no two grid places share a name |
| KeyLayout.GridHoldsEveryKey | src/components/Keyboard.jsx:105-114 | every one of the 24 keys has a row and a column |
| KeyLayout.ColCodesDistinct | src/components/Keyboard.jsx:117-124 | the 24 codes of the table are different from one another |
| KeyLayout.BindCodes | src/components/Keyboard.jsx:126-132 | after the nested loop the map's keys are the table's codes, and each code is bound to the key at its row and column |
| KeyLayout.BuildKeyMap | src/components/Keyboard.jsx:101-134 | an empty map unless there are 24 keys; otherwise every code is bound to the key at its place |
| SkillLabel.StripKeyPrefix | src/components/Keyboard.jsx:42 | a leading "key" in any case and one separator after it are removed, nothing else |
| SkillLabel.SlugShape | src/components/Keyboard.jsx:42-43 | a slug is lower-case letters and digits with single spaces between words |
| SkillLabel.SlugOfPlainName | src/components/Keyboard.jsx:42-43 | `key_` plus a lower-case alphanumeric word has that word as its slug |
| SkillLabel.OverridesWellFormed | src/components/Keyboard.jsx:14-38 | every key of the override table is one lower-case alphanumeric word and every caption is non-empty |
| SkillLabel.OverrideReached | src/components/Keyboard.jsx:45-46 | every entry of a well-formed table is shown by a key named after it |
| SkillLabel.LabelCaseInsensitive | src/components/Keyboard.jsx:40-54 | the caption does not depend on the case of the key name |
| SkillLabel.WordsLabelOfSlug | src/components/Keyboard.jsx:47-53 | the capitalised words spell the slug again once lower-cased |
| SkillLabel.LabelFrom | src/components/Keyboard.jsx:40-54 | an entry for the slug wins, else an entry for the compact slug; LabelWithoutOverride and OverrideReached state the rest |
| SkillLabel.LabelWithoutOverride | src/components/Keyboard.jsx:47-53 | without an entry the caption is the capitalised words, or "—" exactly when the slug is empty |
| SkillLabel.LabelOfOneWord | src/components/Keyboard.jsx:40-54 | `key_` plus one word gets that word's entry or that word capitalised |
| SkillLabel.LabelOfTwoWords | src/components/Keyboard.jsx:40-54 | `key_` plus two words gets the entry of the words run together, or both words capitalised |
| SkillLabel.LabelOfBareName | src/components/Keyboard.jsx:47-53 | a name with no letter or digit after the prefix gets "—" |
| SkillLabel.OneWordSlug | src/components/Keyboard.jsx:47-53 | a one-word slug that is not a key gets that word capitalised |
| SkillLabel.ComputeSkillLabel | src/components/Keyboard.jsx:40-54 | the caption is never empty; SiteOverrideReached and LabelCaseInsensitive state which entry is shown and case insensitivity |
| SkillLabel.SiteLabelNonEmpty | src/components/Keyboard.jsx:40-54 | the keyboard's caption is never empty |
| SkillLabel.SiteOverrideReached | src/components/Keyboard.jsx:14-46 | every caption of the site's table is shown by the key named after its entry |
| KeyboardState.Initial | src/components/Keyboard.jsx:93-94 | nothing pressed, caption "My Skills" |
| KeyboardState.KeyDown | src/components/Keyboard.jsx:137-144 | a repeat or an unbound code changes nothing; a bound code adds its key and shows its caption |
| KeyboardState.KeyUp | src/components/Keyboard.jsx:146-156 | a bound code removes its key and restores "My Skills"; an unbound code changes nothing |
| KeyboardState.PointerEnter | src/components/Keyboard.jsx:77-80 | the key's caption is shown; the pressed set is untouched |
| KeyboardState.PointerLeave | src/components/Keyboard.jsx:205-207 | "My Skills" returns only when nothing is pressed |
| KeyboardState.KeyDownIdempotent | src/components/Keyboard.jsx:137-144 | pressing a key twice is pressing it once |
| KeyboardState.KeyUpUndoesKeyDown | src/components/Keyboard.jsx:137-156 | releasing right after pressing restores the pressed set |
| KeyboardState.LeaveKeepsCaptionIff | src/components/Keyboard.jsx:205-207 | leaving a key keeps a non-idle caption exactly when some key is held |
| KeyboardState.Step | src/components/Keyboard.jsx:137-156 | one event's transition; StepValid, StepPressed and PressedIsHeld state its invariant and the pressed set |
| KeyboardState.StepValid | src/components/Keyboard.jsx:137-156 | every event keeps pressed keys bound and the caption non-empty |
| KeyboardState.RunValid | src/components/Keyboard.jsx:93-164 | that invariant holds after any event sequence from the initial state |
| KeyboardState.StepPressed | src/components/Keyboard.jsx:137-156 | only a first keydown or a keyup of a bound code changes the pressed set, by its one key |
| KeyboardState.HeldStep | src/components/Keyboard.jsx:137-156 | a key is held after one more event iff that event presses it, or it was held and the event does not release it |
| KeyboardState.PressedIsHeld | src/components/Keyboard.jsx:137-208 | the pressed set after any events is exactly the keys pressed and not since released |
| RoleRotator.LoadPhrases | frontend/src/js/modules/role-rotator.js:7-15 | the parsed non-empty list, else the two default phrases; never empty |
| RoleRotator.Fire | frontend/src/js/modules/role-rotator.js:54-77 | one callback keeps the phrase index and character index in range |
| RoleRotator.ValidPrefix | frontend/src/js/modules/role-rotator.js:54-77 | the text shown is always a prefix of the current phrase |
| RoleRotator.InitialValid | frontend/src/js/modules/role-rotator.js:51-52 | the starting state satisfies the typewriter invariant |
| RoleRotator.FireValid | frontend/src/js/modules/role-rotator.js:54-77 | every callback preserves the invariant |
| RoleRotator.TypingShowsPrefixes | frontend/src/js/modules/role-rotator.js:54-59 | after k+1 `type` calls the first k characters are shown |
| RoleRotator.TypedThenHold | frontend/src/js/modules/role-rotator.js:60-64 | once the word is complete `type` schedules the hold and the hold schedules `erase`, the whole word showing |
| RoleRotator.ErasingCountsDown | frontend/src/js/modules/role-rotator.js:67-72 | each `erase` shortens the shown prefix by one |
| RoleRotator.CycleAdvances | frontend/src/js/modules/role-rotator.js:54-77 | typing, holding and erasing phrase i leads to the start of phrase (i+1) mod n |
| RoleRotator.Typewriter.constructor | frontend/src/js/modules/role-rotator.js:51-79 | the first `type()` runs at once on the loaded phrases |
| RoleRotator.Typewriter.TypeStep | frontend/src/js/modules/role-rotator.js:54-65 | `type()` is the machine step |
| RoleRotator.Typewriter.EraseStep | frontend/src/js/modules/role-rotator.js:67-77 | `erase()` is the machine step |
| RoleRotator.Typewriter.Tick | frontend/src/js/modules/role-rotator.js:54-77 | the pending callback runs one step and keeps the invariant |
| RoleRotator.ReactTypewriter.constructor | frontend/src/components/RoleRotator.jsx:18-52 | the effect's first run calls `type()` and leaves one timer pending |
| RoleRotator.ReactTypewriter.Schedule | frontend/src/components/RoleRotator.jsx:32 | `setTimeout` returns a fresh id, which is stored in `timeoutId` |
| RoleRotator.ReactTypewriter.Tick | frontend/src/components/RoleRotator.jsx:27-50 | the only pending timer fires, runs one step and schedules exactly one successor |
| RoleRotator.ReactTypewriter.Cleanup | frontend/src/components/RoleRotator.jsx:54 | `clearTimeout(timeoutId)` leaves no pending callback |
| RoleRotator.Cycler.constructor | frontend/src/js/modules/role-rotator.js:41-43 | the DOM cycler shows phrase 0 at once and the React copy shows "" |
| RoleRotator.Cycler.Tick | frontend/src/js/modules/role-rotator.js:44-47 | each tick shows phrase (ticks mod n) |
| NavTracker.StripHash | src/js/modules/nav-tracker.js:27 | only a leading "#" is removed |
| NavTracker.ById | src/js/modules/nav-tracker.js:25-29 | the id map; ByIdLastWins and KeyOrderIsKeys state its keys, values and key order |
| NavTracker.ByIdLastWins | src/js/modules/nav-tracker.js:25-29 | the map holds exactly the non-empty ids, each bound to the last link carrying it |
| NavTracker.KeyOrderIsKeys | src/js/modules/nav-tracker.js:61 | the keys in insertion order list each key exactly once |
| NavTracker.BuildById | src/js/modules/nav-tracker.js:25-29 | the loop builds the reference map |
| NavTracker.PresentIds | src/js/modules/nav-tracker.js:61-63 | the sections are the ids in key order that exist in the document |
| NavTracker.SetActiveLink | src/js/modules/nav-tracker.js:46-59 | exactly the given link is active afterwards; null changes nothing |
| NavTracker.BestUnique | src/js/modules/nav-tracker.js:77-81 | only one entry can be the best one |
| NavTracker.BestEntry | src/js/modules/nav-tracker.js:77-81 | the loop settles on the first intersecting entry of greatest ratio, none when none intersects |
| NavTracker.Pick | src/js/modules/nav-tracker.js:108-118 | the first covering section, else the first one below, else the last one |
| NavTracker.PickedAtUnique | src/js/modules/nav-tracker.js:108-118 | only one section can be picked |
| NavTracker.PickActiveSection | src/js/modules/nav-tracker.js:108-118 | the two early-return scans compute `Pick` |
| NavTracker.Tracker.constructor | src/js/modules/nav-tracker.js:170-176 | the initial link is the map entry for the hash or first href, else the first link |
| NavTracker.Tracker.Observe | src/js/modules/nav-tracker.js:74-89 | while an intent is live nothing changes; otherwise the best entry's section becomes current if it is new, and its link becomes the only active one; no link changes when the id has no link |
| NavTracker.Tracker.OnScroll | src/js/modules/nav-tracker.js:121-124 | at most one frame is requested at a time |
| NavTracker.Near | src/js/modules/nav-tracker.js:131 | the intended section is within 8 px of the header; IntentPhase states when that commits the intent |
| NavTracker.Tracker.IntentPhase | src/js/modules/nav-tracker.js:125-145 | a live intent commits when its section is near or covering the header, making its link the only active one, else holds; nothing else changes a link |
| NavTracker.Tracker.PickPhase | src/js/modules/nav-tracker.js:147-152 | the picked section becomes current if it is new, and its link the only active one; otherwise no link changes |
| NavTracker.Tracker.Frame | src/js/modules/nav-tracker.js:124-154 | after a frame the link of a newly picked section is the only active one, else the link of a committed intent; with neither no link changes; a held intent keeps the current id, the intent and its deadline; `ticking` is cleared |
| NavTracker.IntentWindow | src/js/modules/nav-tracker.js:164 | the lock lasts 200 ms with reduced motion, else 1600 ms; Tracker.Click states the deadline it sets |
| NavTracker.Tracker.Click | src/js/modules/nav-tracker.js:158-168 | a click on a mapped id locks it for 200 or 1600 ms and activates the mapped link |
| NavTracker.InitNavSectionTracker | src/js/modules/nav-tracker.js:6-64 | no tracker, and no link touched, exactly without links or without any of their sections in the document |
| ScrollCue.ScrollTargets | src/js/modules/scroll-cue.js:6-21 | exactly the visible section-like candidates, in document order |
| ScrollCue.FirstFound | src/js/modules/scroll-cue.js:27-31 | the first lookup that finds a header |
| ScrollCue.ScrollOffset | src/js/modules/scroll-cue.js:23-40 | a numeric `data-scroll-offset` gives the offset; otherwise the offset is never negative, and when non-zero it is the height of a fixed or sticky header a lookup found |
| ScrollCue.AttrOverridesHeaders | src/js/modules/scroll-cue.js:24-25 | with a numeric attribute the page's headers do not matter |
| ScrollCue.NoPinnedHeaderNoOffset | src/js/modules/scroll-cue.js:27-39 | without a numeric attribute and without a fixed or sticky header, the offset is 0 |
| ScrollCue.FirstHeaderDecides | src/js/modules/scroll-cue.js:27-38 | the first header found decides alone: a non-pinned one gives 0 even if a later lookup would find a pinned one |
| ScrollCue.MissingLookupsSkipped | src/js/modules/scroll-cue.js:27-31 | lookups that find nothing are skipped |
| ScrollCue.FirstBelow | src/js/modules/scroll-cue.js:66-68 | the first section more than one pixel below the scroll position |
| ScrollCue.ResolveTarget | src/js/modules/scroll-cue.js:58-72 | an explicit target that exists, else the next section, else the last, else none |
| ScrollCue.Go | src/js/modules/scroll-cue.js:74-83 | scroll to the target's absolute top minus the offset; nothing without a target |
| ScrollCue.Cue.Setup | src/js/modules/scroll-cue.js:49-56 | an existing role or tab index is kept, an empty label replaced, and the offset fixed once to `ScrollOffset` of the cue's own `data-scroll-offset` |
| ScrollCue.Cue.Click | src/js/modules/scroll-cue.js:85-88 | a click goes to the resolved target |
| ScrollCue.Cue.KeyDown | src/js/modules/scroll-cue.js:89-94 | Enter and Space act like a click; other keys do nothing |
| ScrollCue.SetupScrollCue | src/js/modules/scroll-cue.js:42-95 | every cue gets the role, tab index and label defaults, its handlers, and the offset `ScrollOffset` of its own attribute and the page's headers |
| ProjectModal.TextOr | frontend/src/js/modules/project-modal.js:8-10 | the trimmed text when it is non-empty, else the fallback |
| ProjectModal.FirstTruthy | frontend/src/js/modules/project-modal.js:36-46 | "" exactly when every candidate is missing or empty; otherwise the first non-empty one |
| ProjectModal.StripUrl | frontend/src/js/modules/project-modal.js:25 | removing the CSS `url(` wrapper never lengthens |
| ProjectModal.StripUrlWrapped | frontend/src/js/modules/project-modal.js:21-26 | `url(path)`, `url("path")` and `url('path')` all give back the path |
| ProjectModal.ImageSrc | frontend/src/js/modules/project-modal.js:12-26 | a `.card-preview` with a source wins; with no image element the stripped background is used; ImageChainsAgree and ImageChainsDiffer compare it with the legacy rule |
| ProjectModal.LegacyImageSrc | src/main.js:285-290 | the first `img` with a source wins; with no image the stripped background is used |
| ProjectModal.ImageChainsAgree | src/main.js:285-290 | with no preview and at most one image, the legacy first-image rule and the module rule agree |
| ProjectModal.ImageChainsDiffer | frontend/src/js/modules/project-modal.js:12-20 | with an icon before the screenshot, the module shows the screenshot and the legacy copy the icon |
| ProjectModal.Background | frontend/src/js/modules/project-modal.js:28-34 | the background is never empty |
| ProjectModal.ExtractData | frontend/src/js/modules/project-modal.js:7-50 | title, description and background are never empty; the repo link is "" or mentions github.com |
| ProjectModal.LegacyExtractData | src/main.js:281-313 | the legacy extraction differs from the module's only in the image |
| ProjectModal.RepoUrlRule | frontend/src/js/modules/project-modal.js:42-47 | the repo link is the first truthy candidate if it mentions github.com, else "" |
| ProjectModal.GithubLinkIsAlsoLive | frontend/src/js/modules/project-modal.js:36-47 | a card whose only link is a GitHub link gets it as both live and repo link |
| ProjectModal.ModalPills | frontend/src/js/modules/project-modal.js:133-147 | at most three pills reach the modal |
| ProjectModal.PillsStackDown | frontend/src/js/modules/project-modal.js:136-147 | the modal pills are the first three card pills in order, each stacked above the next |
| ProjectModal.TrapTarget | frontend/src/js/modules/project-modal.js:205-219 | the trap moves focus only inside the focusable list |
| ProjectModal.TrapCycles | frontend/src/js/modules/project-modal.js:199-220 | Tab from the last element wraps to the first and Shift+Tab from the first wraps to the last; neighbour stepping does the rest |
| ProjectModal.Card.Init | frontend/src/js/modules/project-modal.js:231-232 | a card without `tabindex` gets "0" and the handlers are attached |
| ProjectModal.InitProjectModals | frontend/src/js/modules/project-modal.js:227-247 | every card is initialised |
| ProjectModal.Closest | frontend/src/js/modules/project-modal.js:235 | `closest` finds the nearest element from the target up that is a link, a button or has `data-copy`, and none exactly when no element of the chain is one |
| ProjectModal.Card.OnClick | frontend/src/js/modules/project-modal.js:234-239 | a click opens the modal exactly when the listeners are attached and no element from the target up is a link, a button or a copy control |
| ProjectModal.Card.OnKeyDown | frontend/src/js/modules/project-modal.js:240-245 | Enter and Space cancel the default action whatever the target, and open exactly when no such control is on the chain; other keys do nothing |
| ProjectModal.ControlNeverOpens | frontend/src/js/modules/project-modal.js:235 | a control anywhere on the chain, even above the card, keeps the modal closed |
| ProjectModal.NoControlOpens | frontend/src/js/modules/project-modal.js:234-236 | a target with no control on its chain always opens the modal |
| ProjectModal.OpensAppend | frontend/src/js/modules/project-modal.js:235 | ancestors that are not controls do not change the outcome |
| ProjectModal.Modal.constructor | frontend/src/js/modules/project-modal.js:172-173 | body scrolling is locked and the previous overflow saved; the src/js/main.js copy also sets the hover lock |
| ProjectModal.Modal.FocusCloseButton | frontend/src/js/modules/project-modal.js:222 | the close button gets focus |
| ProjectModal.Modal.MouseLeave | src/js/main.js:370-376 | the first mouseleave releases the hover lock, once |
| ProjectModal.Modal.Close | frontend/src/js/modules/project-modal.js:181-183 | closing starts the fade-out |
| ProjectModal.Modal.OverlayClick | frontend/src/js/modules/project-modal.js:194-196 | only a click on the backdrop itself closes |
| ProjectModal.Modal.CloseTimer | frontend/src/js/modules/project-modal.js:184-192 | after 250 ms: modal removed, overflow restored, trap removed, hover lock cleared (not in src/main.js), card blurred, or refocused in src/main.js |
| ProjectModal.Modal.Trap | frontend/src/js/modules/project-modal.js:199-220 | Escape closes, Tab wraps at either end, other keys pass through; nothing once the trap is removed |
| Avatar.FindPreferred | frontend/src/js/avatar.js:43-45 | the first clip named typing/type/idle with positive duration, none when none qualifies |
| Avatar.Longest | frontend/src/js/avatar.js:48-52 | the reduce keeps the first clip of greatest duration |
| Avatar.ChooseClip | frontend/src/js/avatar.js:46-52 | a clip is chosen exactly when there is one |
| Avatar.ChooseClipIs | frontend/src/js/avatar.js:43-52 | the preferred clip if there is one, else the first longest |
| Avatar.FirstLongestUnique | frontend/src/js/avatar.js:48-52 | the first longest clip is unique |
| Avatar.PlaysIff | frontend/src/js/avatar.js:53 | an animation plays exactly when some clip has positive duration |
| Avatar.Shift | frontend/src/js/avatar.js:116 | shifting keeps the number of keys and every gap between them |
| Avatar.StartIsMin | frontend/src/js/avatar.js:110-113 | t0 is the least first keyframe over the tracks that have keys, none when none has |
| Avatar.StartShift | frontend/src/js/avatar.js:114-117 | shifting every track by d shifts t0 by d |
| Avatar.Normalized | frontend/src/js/avatar.js:108-120 | the normalised times; NormalizedStart, NormalizedKeepsGaps and NormalizedIdempotent state its start, spacing and idempotence |
| Avatar.NormalizedStart | frontend/src/js/avatar.js:108-120 | after normalising, the earliest key is 0 when t0 was positive, and unchanged otherwise |
| Avatar.NormalizedIdempotent | frontend/src/js/avatar.js:108-120 | normalising twice is normalising once |
| Avatar.NormalizedKeepsGaps | frontend/src/js/avatar.js:114-117 | normalising keeps every track's length and key spacing |
| Avatar.CloneTracks | frontend/src/js/avatar.js:109 | the clone has fresh, separate time arrays with the same contents |
| Avatar.NormalizeClipStart | frontend/src/js/avatar.js:108-120 | the returned clip's times are the normalised source times; the source is not changed |
| Avatar.EarliestKey | frontend/src/js/avatar.js:110-113 | the loop computes t0 |
| Avatar.ShiftTracks | frontend/src/js/avatar.js:115-117 | every track is shifted by d in place |
| Avatar.ShiftTrack | frontend/src/js/avatar.js:116 | the array is shifted by d in place |
| ExportIcons.ToSiKey | src/js/export-icons.mjs:34-41 | the key starts with "si" |
| ExportIcons.SpacedShape | src/js/export-icons.mjs:37-38 | the spaced slug is single-spaced alphanumerics that keep every letter and digit of the slug |
| ExportIcons.WordsShape | src/js/export-icons.mjs:37-39 | the words are non-empty alphanumeric runs that concatenate to the slug's letters and digits |
| ExportIcons.ToSiKeyWords | src/js/export-icons.mjs:34-41 | the key is "si" and the capitalised words |
| ExportIcons.ToSiKeyLetters | src/js/export-icons.mjs:34-41 | after "si", the key is the slug's letters and digits up to case |
| ExportIcons.OneWordKey | src/js/export-icons.mjs:44 | a one-word slug such as "python" gives "si" and the word with its first letter upper-cased |
| ExportIcons.TwoWordKey | src/js/export-icons.mjs:34-41 | two words joined by any non-alphanumeric separator give "si" and both words capitalised |

## Left out

- I/O is not modelled: fetch, the backend API, the file writing of the icon export, `console`, and the three.js and React rendering.
- The markup templates are not modelled: `_buildHTML` and the modal and card HTML. The escapers that feed them are modelled.
- The tilt effects, the tracker's pixel movement (`moveTo`), smooth-scroll behaviour and CSS animation are left out, as presentation.
- Timers and animation frames are single steps; their delays (80/40/1400/200 ms, 250 ms, 10 ms) are not modelled.
- Time and geometry are parameters of type `real`, except in KeyLayout. Browser floating-point rounding is not modelled.
- KeyLayout: key positions are integers. The source sorts three.js float positions with the comparator `a.pos.z - b.pos.z` (and `x` likewise); NaN positions and float rounding are not modelled.
- ContactForm.Verdict and the RoleRotator typing steps count characters as Unicode scalar values, while JavaScript's `length` and `slice` count UTF-16 code units. A character outside the Basic Multilingual Plane therefore counts once here and twice in the source: a one-emoji name fails the two-character rule here but passes in the source, and the typewriter types such a character in one step here but in two in the source, showing half a surrogate pair in between.
- Helpers.Esc and Helpers.EscAttr take a string. The source's default argument (`s = ""`, so `esc()` gives "") and its `String(s)` coercion of `null` or a number are not modelled.
- MainCopies.LegacyApplyFilter: requires every card captured at load to be still in the grid. Cards removed from the grid after load are not modelled.
- `querySelector` is given its result as a parameter, and `parseFloat` is a function parameter that gives none for NaN. Invalid selectors (a `data-target` that makes it throw) are left out.
- Container lookups (`#projects-grid`, the header query chains) are parameters, except where a `||` chain is modelled (`FindForm`, `FirstFound`).
- Character classes are ASCII only: `toLowerCase`, `trim` and `\s` outside ASCII are not modelled.
- SkillLabel.LabelFrom: only the table's own keys are looked up. Keys inherited from `Object.prototype` (such as "constructor") are not modelled.
- RoleRotator.LoadPhrases: JSON that parses to a non-array value (a string, a number, `null`) is not modelled. Such input makes the script throw or iterate characters.
- RoleRotator.Fire: requires the indices to be in range, which the invariant RoleRotator.Valid guarantees. The reduced-motion choice arrives as a parameter.
- ProjectModal.Trap: requires the focused element to be one of the modal's focusables or none. Focus that left the modal by other means is not modelled.
- ProjectModal.TrapCycles: the browser's own Tab movement between neighbours is taken as stepping by one.
- ProjectModal: the random title id (`Math.random`) and `aria-labelledby` are left out.
- Avatar: the clip's duration reset (`resetDuration`) and the `startAt` offset are three.js playback details and are not modelled.
- Avatar.NormalizeClipStart: every track is assumed to have a `times` array. A track without one is skipped by the minimum loop but would throw in the shift loop.
- ExportIcons.ToSiKey: requires a slug with a letter or digit. On other input the script indexes an empty word and throws.
- ExportIcons: the lookup in the Simple Icons package is not modelled.
- NavTracker: the resize, load and font-ready handlers only call `moveTo` and are left out. The reduced-motion query arrives as a parameter.
- The copies of the modules inside src/js/main.js and src/main.js are not modelled separately where they are verbatim:
  - project-loader, role-rotator, scroll-cue, nav-tracker, contact-form;
  - the helpers `esc`, `escAttr` and `norm`.
  
  Where the copies differ, they are modelled in MainCopies and in ProjectModal's `Copy` variants.

# Claude sidebar controller — a Dafny model

The extension's content script makes the collapsible navigation sidebar of claude.ai open when the
pointer rests on a thin zone at the left edge of the page, and close again after the pointer has
left both that zone and the sidebar. It also toggles the sidebar on a keyboard command relayed by
the background page, and it follows configuration changes made on the options page. The options
page checks the two delays before storing them, and it snaps typed values onto a 50 ms grid.

This project models that core and proves properties of it:

- `dom.dfy`: the page as the script sees it. A `Page` is one snapshot of the answers the document
  gives to the script's queries. Elements are records identified by an id.
- `oracle.dfy`: `isSidebarExpanded()`. The first fixed left navigation that can be measured decides,
  by width above 200 px. Failing that, the `div.fixed.z-sidebar` container decides. With neither,
  the sidebar counts as collapsed.
- `locator.dfy`: `isLikelysidebar()`, `findTriggerElement()`, `findSidebarToggleButton()` and the
  nested search of `findSidebarElements()`. The search is a `Locate` function on the snapshot, and
  the loops are methods proved equal to it.
- `config.dfy`: stored values, JavaScript truthiness, the defaults and the `{...config, ...changes}` merge.
- `hover.dfy`: the script's state as a value, with every handler as a function on it. This covers
  the two timers, the handles, the pointer flags, the trigger zone, the mutation observers, the
  callbacks queued with `setTimeout`, and the clicks and DOM insertions made so far. `StepAsWritten`
  is the script as written. `Step` is the script with the observer fix described under Findings.
- `hover_props.dfy`: what the handlers guarantee. They keep the state consistent. Only entering the
  zone arms an expand timer. A collapse is armed only once the pointer is in neither area. Entering
  cancels a collapse and leaving cancels an expand. Only timers and the toggle command click. The
  toggle replies exactly when it clicks. Cleanup resets everything it holds. The observer puts
  back a zone the page lost. With the corrected observer, a disabled script with no zone, no
  sidebar listeners, the pointer in neither area, no collapse timer pending, and nothing queued but
  search retries and listener removals, does nothing more to the page until its configuration
  changes. A queued listener check or reconcile is not covered: it can attach the sidebar
  listeners again, and leaving the sidebar can then arm a collapse timer that clicks.
- `controller.dfy`: the script as it runs. `Control.Controller` holds the module-level variables of
  `content.js` as fields, and one method per handler reassigns them in place. Each method is proved
  to reach the state that the matching `Hover.State` function gives. Each event handler is also
  proved to keep the invariant; for the helpers it calls, the invariant follows from the
  `HoverProperties` lemmas about the matching functions.
- `options.dfy`: `saveSettings()` range checks with their error messages, and the clamp and round
  of `adjustInputValue()`.

The DOM, timers and browser APIs are not executed. Each handler receives the page snapshot that
holds while it runs. A timer is an id that is pending until it fires or is cleared. Which pending
timer or queued callback fires next is chosen by the environment as an `Event`.

Two details of the timers and of re-initialisation are modelled exactly as the code has them:

- The two timers are handled separately. Entering the zone clears only the collapse timer, and
  leaving clears only the expand timer. Arming overwrites the handle without clearing a timer
  already held in it. The expand callback never resets `hoverTimer`. The collapse callback resets
  `collapseTimer` unconditionally, unless clicking a missing button throws first. All of this is
  modelled as written in `Hover.Timers`, `Hover.State.ExpandFires` and `Hover.State.CollapseFires`.
- The script re-initialises on any storage change that contains `enabled` with a truthy value,
  including a change from true to true. Each such change queues another `setup()`, and each
  `setup()` attaches one more mutation observer, which `observers` counts.

## Model

| member | source | states |
|---|---|---|
| Config.Merge | content.js:781-784 | every changed key takes its new value; every other key keeps its old value; the keys are the union |
| Config.DefaultsEnabled | content.js:5-12 | the defaults enable the script with a 200 ms hover delay, a 500 ms collapse delay and debug off |
| Oracle.IsSidebarExpanded | content.js:651-708 | the answer is true exactly when the first measurable fixed navigation is wider than 200 px, or, when none is measurable, the z-sidebar container is wider than 200 px |
| Oracle.UnmeasurableIgnored | content.js:659-667 | navigations that are hidden, off the left edge or nearly transparent do not change the answer |
| Oracle.FirstMeasurableDecides | content.js:659-682 | the first measurable navigation alone decides; later navigations and the container are ignored |
| Oracle.ThresholdBoundary | content.js:670 | 200 px reads as collapsed and 201 px as expanded, for a navigation and for the container |
| Oracle.DefaultCollapsed | content.js:685-707 | with no measurable navigation and no container the sidebar counts as collapsed |
| Locator.LikelySidebarExactly | content.js:185-204 | an element is a likely sidebar exactly when it is in the left 30 %, taller than 30 % of the viewport, visible, and has navigation text or more than two links or buttons |
| Locator.FindTriggerElement | content.js:257-295 | an unhidden trigger match wins; when the match is missing or hidden, the first fixed navigation is taken, else the z-sidebar container; none is found only when all three are missing |
| Locator.FindSidebarToggleButton | content.js:298-347 | a button exists whenever some top-left candidate with an icon exists; nothing is found only when that first-button fallback is also missing |
| Locator.FindSidebarElements | content.js:80-182 | the nested selector search returns what `Locate` gives, and a retry is queued exactly when no sidebar is known afterwards |
| Locator.ScanBucket | content.js:108-147 | one selector's matches are scanned; on success the search result is final, otherwise the scan state matches the elements seen so far |
| Locator.LikelyAppend | content.js:114-119 | the likely sidebars of a concatenation are those of each part, in order |
| Locator.LikelyInAppend | content.js:108-119 | likewise across selectors |
| Locator.FirstOfLikely | content.js:114-119 | the first likely sidebar of a selector's matches sits at the first position that passes the test |
| Locator.NoneLikely | content.js:114-119 | when no match is likely, no match passes the test |
| Locator.NoneLikelyIn | content.js:108-119 | likewise across all selectors |
| Locator.FirstOfLikelyIn | content.js:108-119 | the first likely sidebar overall sits at the first selector and position that passes |
| Locator.FirstLikelyAt | content.js:108-119 | a passing element with nothing passing before it is the first likely sidebar |
| Locator.LocatePicksFirstLikely | content.js:108-142 | when a control exists and some element is likely, the sidebar is the first likely element and the button is that control |
| Locator.LocateIdempotent | content.js:80-182 | searching again on the same page changes nothing |
| Locator.LocateFallsBackToTriggerParent | content.js:150-173 | with no likely candidate, no known handle, no host trigger and no fixed navigation, the container found as trigger becomes the button and its parent, or the body, the sidebar |
| Locator.LocateRetryExactly | content.js:150-181 | no sidebar is left, and a retry is scheduled, exactly when no candidate is likely, none was known, and there is no trigger or some button was known or found by the fallbacks |
| Locator.LocateKeepsKnownHandles | content.js:150-174 | when nothing on the page looks like a sidebar, a known sidebar and a known button are kept, and a missing button comes from the fallbacks |
| Options.SaveSettings | options.js:32-49 | settings are stored exactly when both delays are in range, and stored unchanged; otherwise the hover error takes precedence over the collapse error |
| Options.UnparsedDelaysAreStored | options.js:35-46 | delays that do not parse fail both comparisons and are stored |
| Options.AdjustInputValue | options.js:96-110 | an unparsable input is left alone; otherwise the written value is clamped and rounded, on the grid and within bounds |
| Options.RoundToStepNearest | options.js:106 | rounding lands on a multiple of the step, at most half a step away, with halves rounding up |
| Options.RoundToStepFixesMultiples | options.js:106 | a multiple of the step is left as it is |
| Options.AdjustedInBounds | options.js:101-106 | with bounds on the grid, the adjusted value stays within them and on the grid |
| Options.AdjustedIdempotent | options.js:97-108 | adjusting an adjusted value changes nothing |
| Options.ConfiguredFieldsStayOnGrid | options.js:113-116 | both configured fields always write a value in range, on the 50 ms grid, and stable under another adjustment |
| Options.HalvesRoundUp | options.js:106 | 1025 becomes 1050, 1024 becomes 1000, -7 becomes 0, 2990 becomes 2000 for the hover field |
| HoverProperties.InitialValid | content.js:12-22 | the initial state is consistent and enabled |
| HoverProperties.LocateRetainsSidebar | content.js:119-120 | once a sidebar is known, searching again never loses it |
| HoverProperties.FindElementsValid | content.js:80-182 | re-locating keeps the state consistent |
| HoverProperties.SetupValid | content.js:65-77 | setup keeps the state consistent |
| HoverProperties.ObserveValid | content.js:711-731 | the observer callback keeps the state consistent |
| HoverProperties.RunDeferredValid | content.js:71-76 | every queued callback keeps the state consistent |
| HoverProperties.OnMessageValid | content.js:742-778 | the message listener keeps the state consistent |
| HoverProperties.TimerOperationsValid | content.js:556-565 | clearing and arming keep timer ids fresh and the two kinds disjoint |
| HoverProperties.EnterZoneValid | content.js:544-593 | entering the zone keeps the state consistent |
| HoverProperties.LeaveZoneValid | content.js:596-648 | leaving the zone keeps the state consistent |
| HoverProperties.PointerHandlersValid | content.js:446-477 | the four pointer handlers keep the state consistent |
| HoverProperties.TimerCallbacksValid | content.js:565-636 | both timer callbacks keep the state consistent |
| HoverProperties.ConfigHandlersValid | content.js:781-801 | the storage handlers keep the state consistent |
| HoverProperties.StepPreservesValid | content.js:12-22 | every possible event keeps timer ids fresh and disjoint, listeners only with a sidebar, and the pointer in the sidebar only with listeners |
| HoverProperties.CreateZoneFrame | content.js:385-428 | creating the zone arms no timer and clicks nothing |
| HoverProperties.SetupFrame | content.js:65-77 | setup arms no timer and clicks nothing |
| HoverProperties.RunDeferredFrame | content.js:71-76 | queued callbacks arm no timer and click nothing |
| HoverProperties.ObserveRestoresZone | content.js:725-730 | when the document has lost the zone and the fixed navigation exists, the observer inserts a new zone and makes it the trigger; a zone still in the document is left alone |
| HoverProperties.ObserveFrame | content.js:711-731 | the observer arms no timer and clicks nothing, as written and corrected |
| HoverProperties.OnMessageFrame | content.js:742-778 | the toggle command arms no timer and only appends effects |
| HoverProperties.ConfigFrame | content.js:781-801 | configuration changes arm no timer and click nothing; disabling only clears timers |
| HoverProperties.StepFrame | content.js:544-648 | effects are only appended; only pointer events arm timers; only timers and the toggle command click |
| HoverProperties.OnlyTriggerEntryArmsExpand | content.js:562-565 | an expand timer is armed exactly on entering the zone while collapsed with a button known; it is one fresh id held in `hoverTimer` |
| HoverProperties.CollapseArmedOnlyOutsideBothAreas | content.js:614-617 | a collapse timer is armed exactly when the pointer leaves one area while outside the other, the sidebar is expanded and a button is known; it is one fresh id held in `collapseTimer` |
| HoverProperties.EntryCancelsCollapse | content.js:555-560 | entering the zone or the sidebar clears the held collapse timer |
| HoverProperties.LeavingCancelsExpand | content.js:607-612 | leaving the zone or the sidebar clears the held expand timer, and nothing else pending |
| HoverProperties.ExpandTimerClick | content.js:565-584 | the expand timer clicks the button and queues the listener check exactly when the pointer is in the zone, the sidebar is collapsed and a button is known; otherwise it only retires; in both cases `hoverTimer`, the handles and the pointer flags are left as they were |
| HoverProperties.CollapseTimerClick | content.js:617-636 | the collapse timer clicks, queues the listener removal and resets `collapseTimer` when due; with no button it throws and keeps its handle; when not due it only retires and resets its handle; nothing else changes in any case |
| HoverProperties.ClicksOnlyFromTimersAndToggle | content.js:565-636 | no event other than the two timers and the toggle command clicks |
| HoverProperties.ToggleIgnoredWhileDisabled | content.js:742-749 | while disabled the command changes nothing and sends no reply |
| HoverProperties.ToggleReply | content.js:742-778 | a reply is sent exactly for the toggle action while enabled with a button known or found; it reports the state before the click, and exactly one click on that button goes with it |
| HoverProperties.CleanupResets | content.js:804-838 | cleanup clears both held timers, every handle and flag and the listeners, removes the zone exactly when the document holds one, and keeps configuration and queue |
| HoverProperties.DisablingGoesDormant | content.js:794-799 | disabling a script whose queue cannot bring the zone back, and whose only pending collapse timer is the held one, leaves no zone, no listeners, no pending collapse and the pointer in neither area |
| HoverProperties.DormantStaysDormant | content.js:711-731 | with the corrected observer, no event but a configuration change wakes a dormant script: no timer is armed and nothing is clicked, inserted or removed |
| HoverProperties.NarrowNavPageFacts | content.js:257-295 | on the scenario page the search finds no sidebar but the fixed navigation as trigger and button, and the sidebar reads as collapsed |
| HoverProperties.DisabledAfterSetupFacts | content.js:804-838 | the scenario state after setup and disabling: disabled, the zone inserted and removed again, no handles, one observer still attached |
| HoverProperties.DisabledScriptRearmsAsWritten | content.js:711-731 | as written, a mutation after disabling inserts the zone again and re-finds the button, so entering the zone arms an expand timer |
| HoverProperties.DisabledScriptStaysInertCorrected | content.js:711-731 | corrected, the same mutation leaves the disabled state unchanged and there is no zone to enter |
| Control.Controller.constructor | content.js:12-22 | the variables start as the initial state |
| Hover.Defaulted | content.js:35 | the storage read answers only the keys of the defaults, each with its stored value when one is stored |
| Control.Controller.OnConfigLoaded | content.js:35-41 | loading merges the defaults, overridden by the stored values of their keys, over the configuration, and initialises when enabled, keeping the invariant |
| Control.Controller.Initialize | content.js:44-62 | setup and the 3 s retry are queued |
| Control.Controller.Setup | content.js:65-77 | locate, create the zone, attach one more observer, queue the listener check |
| Control.Controller.FindSidebarElements | content.js:80-182 | the handles become those `Locate` gives, and a retry is queued when no sidebar is known |
| Control.Controller.RemoveTriggerArea | content.js:386-388 | a zone the document holds is removed, and the script no longer counts one as present |
| Control.Controller.CreateCustomTriggerArea | content.js:385-428 | a zone the document holds is removed; a new one is inserted and becomes the trigger only when the fixed navigation exists |
| Control.Controller.AddSidebarHoverListeners | content.js:480-500 | listeners go on the first fixed navigation, only with a sidebar and no listeners yet |
| Control.Controller.RemoveSidebarHoverListeners | content.js:503-514 | the listeners are dropped and the pointer no longer counts as in the sidebar |
| Control.Controller.ClearHoverTimer | content.js:608-612 | the held expand timer is cleared |
| Control.Controller.ClearCollapseTimer | content.js:556-560 | the held collapse timer is cleared |
| Control.Controller.HandleEnterTriggerZone | content.js:544-593 | reaches `EnterZone` on the current reading of the oracle |
| Control.Controller.HandleLeaveTriggerZone | content.js:596-648 | reaches `LeaveZone` on the current reading of the oracle |
| Control.Controller.HandleDirectMouseEnter | content.js:446-450 | sets the zone flag, then enters the zone, keeping the invariant |
| Control.Controller.HandleDirectMouseLeave | content.js:453-457 | clears the zone flag, then leaves the zone, keeping the invariant |
| Control.Controller.HandleSidebarMouseEnter | content.js:460-470 | sets the sidebar flag and clears the held collapse timer, keeping the invariant |
| Control.Controller.HandleSidebarMouseLeave | content.js:473-477 | clears the sidebar flag, then leaves the zone, keeping the invariant |
| Control.Controller.ExpandTimerFires | content.js:565-584 | reaches `ExpandFires`, keeping the invariant |
| Control.Controller.CollapseTimerFires | content.js:617-636 | reaches `CollapseFires`, keeping the invariant |
| Control.Controller.DeferredFires | content.js:71-76 | the queued callback is removed from the queue and run, keeping the invariant |
| Control.Controller.ObserveMutations | content.js:712-731 | reaches the as-written observer step: re-locate when the sidebar is missing or detached, re-find the button when it is, recreate the zone when the document holds none; keeping the invariant |
| Control.Controller.ObserveMutationsWhileEnabled | content.js:712-731 | reaches the corrected observer step, which does nothing while disabled; keeping the invariant |
| Control.Controller.OnMessage | content.js:742-778 | the new state and the reply are those of `OnMessage`, keeping the invariant |
| Control.Controller.OnStorageChanged | content.js:781-801 | the changes are merged, then an `enabled` change initialises or cleans up, keeping the invariant |
| Control.Controller.MergeChanges | content.js:782-784 | the key-by-key loop yields the merged configuration |
| Control.Controller.Cleanup | content.js:804-838 | reaches `Cleanup` on the current page |

## Left out

- The Chrome APIs (`chrome.storage`, `chrome.runtime`, `chrome.tabs`) and `background.js` are not modelled. Storage reads, storage changes and incoming messages become parameters of the handlers.
- Wall-clock time is not modelled. The hover delay, the collapse delay, the 300 ms, 500 ms, 1 s, 2 s and 3 s waits, and `DOMContentLoaded` versus the 500 ms wait are all reduced to "pending until the environment fires it". That an enter followed by a leave within `hoverDelay` never expands is therefore stated as "leaving clears the expand timer" (`HoverProperties.LeavingCancelsExpand`).
- Debug output is not modelled: `log`, `logDOMStructure`, `logButtonCandidates`, `createDebugArea`, the `debug` class toggled on storage change, and the debug class of the zone. None of them changes the script's state.
- The unused mouse tracking is not modelled: `handleMouseMove`, `currentMouseX`/`currentMouseY` and `TRIGGER_WIDTH`. Nothing calls them.
- `setupDirectHoverListeners` is not modelled, because nothing calls it. Removing the listeners from the trigger element in `cleanup()` is not modelled either. The zone's own listeners go with the zone: pointer events on it happen only while the document holds the zone (`Page.zoneAttached`) and the script counts it as present (`zonePresent`).
- CSS selectors and the layout engine are not modelled. The matches of each selector, the bounding rectangles and the computed styles come with the `Page` snapshot. `parseFloat` of the opacity is already a number there.
- Sidebar pixel values are `real`. Float rounding is not modelled.
- The host page removing the zone or other nodes by itself is not an event. It shows up in the next snapshot the observer callback sees: `Page.attached` for the sidebar and the button, `Page.zoneAttached` for the zone.
- A clicked button's effect on the page is not modelled. The next snapshot carries the new layout.
- `loadSettings`, `resetSettings`, `showStatus`, `reloadExtension`, the keyboard shortcuts and the settings message of the options page are not modelled. They are user-interface wiring around `saveSettings` and `adjustInputValue`.
- Options.SaveSettings: `parseInt` is a parameter. A delay that does not parse is `None`, and its `NaN` fails both range comparisons.
- Locator.FindSidebarElements: the sidebar, button and trigger are ids, so `sidebarButton = triggerElement` stores the trigger's id.

## Findings

| source | as written | input that shows it | evidently intended | confidence | as-written member | corrected member |
|---|---|---|---|---|---|---|
| content.js:711-731 | `cleanup()` does not disconnect the mutation observer, and the observer's callback does not look at `config.enabled`. After the extension is disabled, the next mutation re-locates the elements and recreates the trigger zone. Entering that zone then arms an expand timer, whose callback clicks the button. | Set up on a page with no sidebar candidate and one fixed navigation, 48 px wide, which becomes the button through the fallback at content.js:159-163. Then change storage to `enabled: false`. Next comes any mutation (cleanup's own removal of the zone is one), then the pointer entering the recreated zone. | The observer does nothing while disabled (`Hover.State.ObserveWhileEnabled`). Then a disabled script with no zone, no sidebar listeners, the pointer in neither area, no collapse timer pending, and nothing queued but search retries and listener removals, arms no timer and clicks, inserts and removes nothing until its configuration changes. The correction does not cover callbacks queued before disabling: a setup or 3 s retry from `initialize()` brings the zone back, and a listener check or the toggle's reconcile can attach the sidebar listeners, after which leaving the sidebar arms a collapse timer that clicks. | not executed | HoverProperties.DisabledScriptRearmsAsWritten | HoverProperties.DormantStaysDormant |

/**
 * The element locator: finds the host page's sidebar, its toggle control and its hover trigger
 * (findSidebarElements, isLikelysidebar, findTriggerElement, findSidebarToggleButton in content.js).
 */
module Locator {
  import opened Wrappers
  import opened Dom

  /** The sidebar selectors, most specific first; `Page.sidebarCandidates[i]` holds the matches of the i-th. */
  const SIDEBAR_SELECTORS: seq<string> := [
    "nav[data-testid=\"menu-sidebar\"]", "aside[role=\"navigation\"]", "nav[role=\"navigation\"]",
    "div[data-testid*=\"sidebar\"]", "div[role=\"navigation\"]", "nav", "aside",
    "div[class*=\"sidebar\"]", "div[class*=\"navigation\"]", "div[class*=\"nav\"]", "div[style*=\"left\"]",
    "div[data-reactid]", "div[class*=\"fixed\"][class*=\"left\"]", "div[class*=\"absolute\"][class*=\"left\"]"]

  /** The host page's own hover trigger (`Page.triggerMatch`). */
  const TRIGGER_SELECTOR: string := "div.h-full.w-full.cursor-pointer.absolute.top-0.z-sidebar"

  /** The fixed left navigation (`Page.fixedNavs`). */
  const FIXED_NAV_SELECTOR: string := "nav.fixed.top-0.left-0, nav[class*=\"fixed\"][class*=\"left\"]"

  // ---------------------------------------------------------------- isLikelysidebar

  predicate OnLeftSide(e: Element, vp: Viewport)
  {
    e.rect.left < 0.3 * vp.width
  }

  predicate HasReasonableHeight(e: Element, vp: Viewport)
  {
    e.rect.height > 0.3 * vp.height
  }

  predicate IsVisible(e: Element)
  {
    && e.rect.width > 0.0 && e.rect.height > 0.0
    && e.style.display != "none"
    && e.style.visibility != "hidden"
    && e.style.opacity > 0.0
  }

  predicate HasNavContent(e: Element)
  {
    || Contains(e.text, "New")
    || Contains(e.text, "Menu")
    || Contains(e.text, "Navigation")
    || e.interactiveCount > 2
  }

  /** Whether an element looks like the sidebar: left, tall, visible and navigation-like. */
  predicate IsLikelySidebar(e: Element, vp: Viewport)
  {
    OnLeftSide(e, vp) && HasReasonableHeight(e, vp) && IsVisible(e) && HasNavContent(e)
  }

  /** The four signals, spelled out on the element's raw measurements, decide the judgement both ways. */
  lemma LikelySidebarExactly(e: Element, vp: Viewport)
    ensures IsLikelySidebar(e, vp) <==>
      && e.rect.left < 0.3 * vp.width
      && e.rect.height > 0.3 * vp.height
      && e.rect.width > 0.0 && e.rect.height > 0.0
      && e.style.display != "none" && e.style.visibility != "hidden" && e.style.opacity > 0.0
      && (Contains(e.text, "New") || Contains(e.text, "Menu") || Contains(e.text, "Navigation")
          || e.interactiveCount > 2)
  {
  }

  // ---------------------------------------------------------------- findTriggerElement

  /** The trigger: the host's own trigger unless it carries `hidden`, else the fixed nav, else the container. */
  function FindTriggerElement(page: Page): (r: Option<Element>)
    ensures r.None? <==>
      && (page.triggerMatch.None? || page.triggerMatch.value.hiddenClass)
      && |page.fixedNavs| == 0
      && page.sidebarContainer.None?
    ensures page.triggerMatch.Some? && !page.triggerMatch.value.hiddenClass ==> r == page.triggerMatch
    ensures page.triggerMatch.None? || page.triggerMatch.value.hiddenClass ==>
      r == if |page.fixedNavs| > 0 then Some(page.fixedNavs[0]) else page.sidebarContainer
  {
    if page.triggerMatch.Some? && !page.triggerMatch.value.hiddenClass then page.triggerMatch
    else if |page.fixedNavs| > 0 then Some(page.fixedNavs[0])
    else page.sidebarContainer
  }

  // ---------------------------------------------------------------- findSidebarToggleButton

  predicate InTopLeftCorner(b: Element)
  {
    b.rect.left < 100.0 && b.rect.top < 100.0 && b.rect.width > 20.0 && b.rect.height > 20.0
  }

  /** The attachment-menu button sits in the same corner and is excluded by label or test id. */
  predicate IsExcluded(b: Element)
  {
    Contains(b.testId, "input-menu-plus") || Contains(b.ariaLabel, "attachment")
  }

  predicate IsToggleCandidate(b: Element)
  {
    InTopLeftCorner(b) && !IsExcluded(b) && (b.hasSvg || b.hasPath)
  }

  /** The toggle control: the first icon button in the top-left corner, else the fixed nav's first button. */
  function ToggleButtonFor(page: Page): Option<nat>
  {
    match FirstIndex(page.buttons, IsToggleCandidate)
    case Some(k) => Some(page.buttons[k].id)
    case None => if |page.fixedNavs| > 0 then page.fixedNavs[0].firstButton else None
  }

  method FindSidebarToggleButton(page: Page) returns (button: Option<nat>)
    ensures button == ToggleButtonFor(page)
    ensures forall k :: 0 <= k < |page.buttons| && IsToggleCandidate(page.buttons[k]) ==> button.Some?
    ensures button.None? ==> |page.fixedNavs| == 0 || page.fixedNavs[0].firstButton.None?
  {
    for k := 0 to |page.buttons|
      invariant forall m :: 0 <= m < k ==> !IsToggleCandidate(page.buttons[m])
    {
      var b := page.buttons[k];
      if b.rect.left < 100.0 && b.rect.top < 100.0 && b.rect.width > 20.0 && b.rect.height > 20.0
        && !Contains(b.testId, "input-menu-plus") && !Contains(b.ariaLabel, "attachment")
      {
        if b.hasSvg || b.hasPath {
          FirstIndexUnique(page.buttons, IsToggleCandidate, k);
          return Some(b.id);
        }
      }
    }
    if |page.fixedNavs| > 0 {
      var nav := page.fixedNavs[0];
      if nav.firstButton.Some? {
        return nav.firstButton;
      }
    }
    return None;
  }

  // ---------------------------------------------------------------- findSidebarElements

  /** The likely sidebars among `s`, in order. */
  function Likely(s: seq<Element>, vp: Viewport): seq<Element>
  {
    if s == [] then []
    else (if IsLikelySidebar(s[0], vp) then [s[0]] else []) + Likely(s[1..], vp)
  }

  /** The likely sidebars over all selector buckets, in selector-priority then document order. */
  function LikelyIn(buckets: seq<seq<Element>>, vp: Viewport): seq<Element>
  {
    if buckets == [] then [] else Likely(buckets[0], vp) + LikelyIn(buckets[1..], vp)
  }

  lemma {:induction false} LikelyAppend(s: seq<Element>, t: seq<Element>, vp: Viewport)
    ensures Likely(s + t, vp) == Likely(s, vp) + Likely(t, vp)
  {
    if s != [] {
      assert (s + t)[1..] == s[1..] + t;
      LikelyAppend(s[1..], t, vp);
    } else {
      assert s + t == t;
    }
  }

  lemma {:induction false} LikelyInAppend(a: seq<seq<Element>>, b: seq<seq<Element>>, vp: Viewport)
    ensures LikelyIn(a + b, vp) == LikelyIn(a, vp) + LikelyIn(b, vp)
  {
    if a != [] {
      assert (a + b)[1..] == a[1..] + b;
      LikelyInAppend(a[1..], b, vp);
    } else {
      assert a + b == b;
    }
  }

  /** The handles findSidebarElements leaves in `sidebar`, `sidebarButton` and `triggerElement`. */
  datatype Located = Located(sidebar: Option<nat>, button: Option<nat>, trigger: Option<nat>)

  function IdOf(e: Option<Element>): Option<nat>
  {
    if e.Some? then Some(e.value.id) else None
  }

  /** The control accepted with a likely sidebar: the toggle button, else the trigger element. */
  function ControlFor(page: Page): Option<nat>
  {
    var b := ToggleButtonFor(page);
    if b.Some? then b else IdOf(FindTriggerElement(page))
  }

  /** The button used when the search left none: the host trigger even if hidden, else the fixed nav. */
  function FallbackButton(page: Page): Option<nat>
  {
    if page.triggerMatch.Some? then Some(page.triggerMatch.value.id)
    else if |page.fixedNavs| > 0 then Some(page.fixedNavs[0].id)
    else None
  }

  /**
   * The handles after the search loop, given the likely candidates `seen` so far. With a control,
   * the first likely candidate ends the search. Without one the search runs on, so the LAST likely
   * candidate stays in `sidebar` and the button is left empty. With no likely candidate the earlier
   * handles are kept.
   */
  function Scanned(seen: seq<Element>, control: Option<nat>, prior: Located): (Option<nat>, Option<nat>)
  {
    if seen == [] then (prior.sidebar, prior.button)
    else if control.Some? then (Some(seen[0].id), control)
    else (Some(seen[|seen| - 1].id), None)
  }

  /**
   * The fallbacks after the loop: a missing button becomes the host trigger or the fixed nav; with
   * still no sidebar and no button but a trigger, the trigger becomes the button and its parent
   * (or the body) the sidebar.
   */
  function Finish(page: Page, sidebar: Option<nat>, button: Option<nat>, trigger: Option<Element>): Located
  {
    var button' := if button.Some? then button else FallbackButton(page);
    if sidebar.None? && trigger.Some? && button'.None? then
      var parent := if trigger.value.parent.Some? then trigger.value.parent.value else page.body;
      Located(Some(parent), Some(trigger.value.id), Some(trigger.value.id))
    else
      Located(sidebar, button', IdOf(trigger))
  }

  /** What findSidebarElements leaves behind, given the handles held before it ran. */
  function Locate(page: Page, prior: Located): Located
  {
    var (sidebar, button) := Scanned(LikelyIn(page.sidebarCandidates, page.viewport), ControlFor(page), prior);
    Finish(page, sidebar, button, FindTriggerElement(page))
  }

  /**
   * findSidebarElements(): the nested search over selector buckets and their matches, then the
   * button fallbacks. `prior` holds the module's handles on entry; `retry` says whether a new
   * search is scheduled (2 s later in the source) because no sidebar is known.
   */
  method FindSidebarElements(page: Page, prior: Located) returns (r: Located, retry: bool)
    ensures r == Locate(page, prior)
    ensures retry <==> r.sidebar.None?
  {
    var buckets := page.sidebarCandidates;
    var trigger := FindTriggerElement(page);
    var sidebar, button := prior.sidebar, prior.button;
    var i := 0;
    while i < |buckets|
      invariant 0 <= i <= |buckets|
      invariant ControlFor(page).Some? ==> LikelyIn(buckets[..i], page.viewport) == []
      invariant (sidebar, button) == Scanned(LikelyIn(buckets[..i], page.viewport), ControlFor(page), prior)
    {
      var found;
      sidebar, button, found := ScanBucket(page, i, prior, sidebar, button, trigger);
      if found {
        return Located(sidebar, button, IdOf(trigger)), false;
      }
      i := i + 1;
    }
    assert buckets[..|buckets|] == buckets;
    r := FinishSearch(page, sidebar, button, trigger);
    retry := r.sidebar.None?;
  }

  /**
   * One pass of the inner loop of findSidebarElements, over the matches of the i-th selector:
   * `found` when a likely candidate came with a control, which ends the whole search.
   */
  method ScanBucket(page: Page, i: nat, ghost prior: Located, sidebar0: Option<nat>, button0: Option<nat>,
                    trigger: Option<Element>)
    returns (sidebar: Option<nat>, button: Option<nat>, found: bool)
    requires i < |page.sidebarCandidates| && trigger == FindTriggerElement(page)
    requires ControlFor(page).Some? ==> LikelyIn(page.sidebarCandidates[..i], page.viewport) == []
    requires (sidebar0, button0) == Scanned(LikelyIn(page.sidebarCandidates[..i], page.viewport), ControlFor(page), prior)
    ensures found ==> Located(sidebar, button, IdOf(trigger)) == Locate(page, prior) && sidebar.Some?
    ensures !found ==> ControlFor(page).Some? ==> LikelyIn(page.sidebarCandidates[..i + 1], page.viewport) == []
    ensures !found ==>
      (sidebar, button) == Scanned(LikelyIn(page.sidebarCandidates[..i + 1], page.viewport), ControlFor(page), prior)
  {
    var vp := page.viewport;
    var bucket := page.sidebarCandidates[i];
    ghost var control := ControlFor(page);
    ghost var before := LikelyIn(page.sidebarCandidates[..i], vp);
    ghost var seen := before;
    sidebar, button, found := sidebar0, button0, false;
    var j := 0;
    while j < |bucket|
      invariant 0 <= j <= |bucket|
      invariant seen == before + Likely(bucket[..j], vp)
      invariant control.Some? ==> seen == []
      invariant (sidebar, button) == Scanned(seen, control, prior)
    {
      var e := bucket[j];
      LikelyStep(bucket, j, vp);
      if IsLikelySidebar(e, vp) {
        sidebar := Some(e.id);
        button := FindControl(page, trigger);
        if button.Some? {
          LocateFoundAt(page, prior, i, j);
          return sidebar, button, true;
        }
        ScannedAppend(before, Likely(bucket[..j], vp), e, prior);
        seen := seen + [e];
      }
      j := j + 1;
    }
    assert bucket[..j] == bucket;
    LikelyInStep(page.sidebarCandidates, i, vp);
  }

  /** The button taken with a likely sidebar: the toggle button, else the trigger element. */
  method FindControl(page: Page, trigger: Option<Element>) returns (button: Option<nat>)
    requires trigger == FindTriggerElement(page)
    ensures button == ControlFor(page)
  {
    button := FindSidebarToggleButton(page);
    if button.None? && trigger.Some? {
      button := Some(trigger.value.id);
    }
  }

  /** The fallbacks findSidebarElements applies after its search loop. */
  method FinishSearch(page: Page, sidebar: Option<nat>, button: Option<nat>, trigger: Option<Element>)
    returns (r: Located)
    ensures r == Finish(page, sidebar, button, trigger)
  {
    var button' := button;
    if button'.None? {
      if page.triggerMatch.Some? {
        button' := Some(page.triggerMatch.value.id);
      } else if |page.fixedNavs| > 0 {
        button' := Some(page.fixedNavs[0].id);
      }
    }
    if sidebar.None? && trigger.Some? && button'.None? {
      var parent := if trigger.value.parent.Some? then trigger.value.parent.value else page.body;
      return Located(Some(parent), Some(trigger.value.id), IdOf(trigger));
    }
    r := Located(sidebar, button', IdOf(trigger));
  }

  /** Filtering one more element appends it exactly when it is likely. */
  lemma LikelyStep(s: seq<Element>, j: nat, vp: Viewport)
    requires j < |s|
    ensures IsLikelySidebar(s[j], vp) ==> Likely(s[..j + 1], vp) == Likely(s[..j], vp) + [s[j]]
    ensures !IsLikelySidebar(s[j], vp) ==> Likely(s[..j + 1], vp) == Likely(s[..j], vp)
  {
    assert s[..j + 1] == s[..j] + [s[j]];
    LikelyAppend(s[..j], [s[j]], vp);
    assert Likely(s[..j], vp) + [] == Likely(s[..j], vp);
  }

  /** Filtering one more bucket appends its likely members. */
  lemma LikelyInStep(b: seq<seq<Element>>, i: nat, vp: Viewport)
    requires i < |b|
    ensures LikelyIn(b[..i + 1], vp) == LikelyIn(b[..i], vp) + Likely(b[i], vp)
  {
    assert b[..i + 1] == b[..i] + [b[i]];
    LikelyInAppend(b[..i], [b[i]], vp);
  }

  /** Without a control, a newly seen likely candidate becomes the sidebar and clears the button. */
  lemma ScannedAppend(before: seq<Element>, seen: seq<Element>, e: Element, prior: Located)
    ensures (before + seen) + [e] == before + (seen + [e])
    ensures Scanned(before + (seen + [e]), None, prior) == (Some(e.id), None)
  {
  }

  /** With a control, the first likely candidate at bucket i, position j decides the search. */
  lemma LocateFoundAt(page: Page, prior: Located, i: nat, j: nat)
    requires i < |page.sidebarCandidates| && j < |page.sidebarCandidates[i]|
    requires IsLikelySidebar(page.sidebarCandidates[i][j], page.viewport)
    requires LikelyIn(page.sidebarCandidates[..i], page.viewport) + Likely(page.sidebarCandidates[i][..j], page.viewport) == []
    requires ControlFor(page).Some?
    ensures Locate(page, prior)
         == Located(Some(page.sidebarCandidates[i][j].id), ControlFor(page), IdOf(FindTriggerElement(page)))
  {
    FirstLikelyAt(page.sidebarCandidates, i, j, page.viewport);
  }

  /** When nothing before bucket i, position j is likely, LikelyIn starts with that candidate. */
  lemma FirstLikelyAt(buckets: seq<seq<Element>>, i: nat, j: nat, vp: Viewport)
    requires i < |buckets| && j < |buckets[i]| && IsLikelySidebar(buckets[i][j], vp)
    requires LikelyIn(buckets[..i], vp) + Likely(buckets[i][..j], vp) == []
    ensures LikelyIn(buckets, vp) != [] && LikelyIn(buckets, vp)[0] == buckets[i][j]
  {
    var bucket := buckets[i];
    assert buckets == buckets[..i] + ([bucket] + buckets[i + 1..]);
    LikelyInAppend(buckets[..i], [bucket] + buckets[i + 1..], vp);
    LikelyInAppend([bucket], buckets[i + 1..], vp);
    assert bucket == bucket[..j] + bucket[j..];
    LikelyAppend(bucket[..j], bucket[j..], vp);
    assert bucket[j..][0] == bucket[j];
  }

  /** Position (i, j) holds a likely sidebar and no earlier position, in search order, does. */
  predicate FirstLikelyPosition(b: seq<seq<Element>>, vp: Viewport, i: int, j: int)
  {
    && 0 <= i < |b| && 0 <= j < |b[i]| && IsLikelySidebar(b[i][j], vp)
    && forall i', j' :: 0 <= i' < |b| && 0 <= j' < |b[i']| && (i' < i || (i' == i && j' < j))
         ==> !IsLikelySidebar(b[i'][j'], vp)
  }

  predicate SomeLikely(b: seq<seq<Element>>, vp: Viewport)
  {
    exists i, j :: 0 <= i < |b| && 0 <= j < |b[i]| && IsLikelySidebar(b[i][j], vp)
  }

  lemma {:induction false} FirstOfLikely(s: seq<Element>, vp: Viewport) returns (j: nat)
    requires Likely(s, vp) != []
    ensures j < |s| && IsLikelySidebar(s[j], vp) && Likely(s, vp)[0] == s[j]
    ensures forall k :: 0 <= k < j ==> !IsLikelySidebar(s[k], vp)
  {
    if IsLikelySidebar(s[0], vp) {
      j := 0;
    } else {
      var j' := FirstOfLikely(s[1..], vp);
      j := j' + 1;
    }
  }

  lemma {:induction false} NoneLikely(s: seq<Element>, vp: Viewport)
    requires Likely(s, vp) == []
    ensures forall k :: 0 <= k < |s| ==> !IsLikelySidebar(s[k], vp)
  {
    if s != [] {
      NoneLikely(s[1..], vp);
      forall k | 1 <= k < |s| ensures !IsLikelySidebar(s[k], vp) {
        assert s[k] == s[1..][k - 1];
      }
    }
  }

  lemma {:induction false} NoneLikelyIn(b: seq<seq<Element>>, vp: Viewport)
    requires LikelyIn(b, vp) == []
    ensures forall i, j :: 0 <= i < |b| && 0 <= j < |b[i]| ==> !IsLikelySidebar(b[i][j], vp)
  {
    if b != [] {
      NoneLikely(b[0], vp);
      NoneLikelyIn(b[1..], vp);
      forall i, j | 1 <= i < |b| && 0 <= j < |b[i]| ensures !IsLikelySidebar(b[i][j], vp) {
        assert b[i] == b[1..][i - 1];
      }
    }
  }

  lemma {:induction false} FirstOfLikelyIn(b: seq<seq<Element>>, vp: Viewport) returns (i: nat, j: nat)
    requires LikelyIn(b, vp) != []
    ensures FirstLikelyPosition(b, vp, i, j) && LikelyIn(b, vp)[0] == b[i][j]
  {
    if Likely(b[0], vp) != [] {
      i := 0;
      j := FirstOfLikely(b[0], vp);
    } else {
      NoneLikely(b[0], vp);
      var i', j' := FirstOfLikelyIn(b[1..], vp);
      i, j := i' + 1, j';
      forall i'', j'' | 1 <= i'' < |b| && 0 <= j'' < |b[i'']| && (i'' < i || (i'' == i && j'' < j))
        ensures !IsLikelySidebar(b[i''][j''], vp)
      {
        assert b[i''] == b[1..][i'' - 1];
      }
    }
  }

  /**
   * Greedy first match: with a control found, the sidebar is the first likely candidate in
   * selector-priority order, then document order, and the control becomes the button.
   */
  lemma LocatePicksFirstLikely(page: Page, prior: Located)
    requires ControlFor(page).Some?
    requires SomeLikely(page.sidebarCandidates, page.viewport)
    ensures Locate(page, prior).button == ControlFor(page)
    ensures exists i, j ::
              && FirstLikelyPosition(page.sidebarCandidates, page.viewport, i, j)
              && Locate(page, prior).sidebar == Some(page.sidebarCandidates[i][j].id)
  {
    var b, vp := page.sidebarCandidates, page.viewport;
    if LikelyIn(b, vp) == [] {
      NoneLikelyIn(b, vp);
    }
    var i, j := FirstOfLikelyIn(b, vp);
  }

  /** Running the locator twice on an unchanged page yields the same handles both times. */
  lemma LocateIdempotent(page: Page, prior: Located)
    ensures Locate(page, Locate(page, prior)) == Locate(page, prior)
  {
  }

  /**
   * The last resort: with no likely candidate, no handle known, no host trigger and no fixed
   * navigation, the sidebar container found as trigger also becomes the button, and its parent
   * (or the body, when it has none) the sidebar.
   */
  lemma LocateFallsBackToTriggerParent(page: Page, prior: Located)
    requires LikelyIn(page.sidebarCandidates, page.viewport) == []
    requires prior.sidebar.None? && prior.button.None?
    requires page.triggerMatch.None? && |page.fixedNavs| == 0 && page.sidebarContainer.Some?
    ensures var c := page.sidebarContainer.value;
      Locate(page, prior) == Located(Some(if c.parent.Some? then c.parent.value else page.body), Some(c.id), Some(c.id))
  {
  }

  /**
   * The search leaves no sidebar, and so schedules a retry, exactly when no candidate is likely, no
   * sidebar was known, and the trigger fallback did not apply: there is no trigger, or some button
   * (known before, the host trigger or the fixed navigation) was found.
   */
  lemma LocateRetryExactly(page: Page, prior: Located)
    ensures Locate(page, prior).sidebar.None? <==>
      && LikelyIn(page.sidebarCandidates, page.viewport) == []
      && prior.sidebar.None?
      && (FindTriggerElement(page).None? || prior.button.Some? || FallbackButton(page).Some?)
  {
  }

  /** Without any likely candidate, known handles are kept and an unknown button is filled in. */
  lemma LocateKeepsKnownHandles(page: Page, prior: Located)
    requires LikelyIn(page.sidebarCandidates, page.viewport) == []
    requires prior.sidebar.Some?
    ensures Locate(page, prior).sidebar == prior.sidebar
    ensures prior.button.Some? ==> Locate(page, prior).button == prior.button
    ensures prior.button.None? ==> Locate(page, prior).button == FallbackButton(page)
  {
  }
}

/**
 * The expansion oracle: whether the host page's sidebar is currently expanded, judged by
 * measuring widths rather than trusting any class name (isSidebarExpanded in content.js).
 */
module Oracle {
  import opened Wrappers
  import opened Dom

  /** Widths strictly above this many pixels read as expanded (about 288 px open, 49 px closed). */
  const EXPANDED_WIDTH: real := 200.0

  /** A fixed left navigation element that may be measured: at the left edge and shown. */
  predicate Measurable(nav: Element)
  {
    && nav.rect.left < 10.0
    && nav.style.display != "none"
    && nav.style.visibility != "hidden"
    && nav.style.opacity > 0.5
  }

  predicate IsWide(width: real)
  {
    width > EXPANDED_WIDTH
  }

  /**
   * The reading: the first measurable fixed navigation decides by its width; without one the
   * sidebar container decides by its width; with neither the sidebar reads collapsed.
   */
  function Reading(navs: seq<Element>, container: Option<Element>): bool
  {
    match FirstIndex(navs, Measurable)
    case Some(i) => IsWide(navs[i].rect.width)
    case None => container.Some? && IsWide(container.value.rect.width)
  }

  function ExpandedOn(page: Page): bool
  {
    Reading(page.fixedNavs, page.sidebarContainer)
  }

  /** isSidebarExpanded(): scans the fixed navigations in document order. */
  method IsSidebarExpanded(page: Page) returns (expanded: bool)
    ensures expanded == ExpandedOn(page)
    ensures expanded <==>
      || (exists i :: 0 <= i < |page.fixedNavs| && Measurable(page.fixedNavs[i])
            && (forall j :: 0 <= j < i ==> !Measurable(page.fixedNavs[j]))
            && page.fixedNavs[i].rect.width > 200.0)
      || ((forall j :: 0 <= j < |page.fixedNavs| ==> !Measurable(page.fixedNavs[j]))
            && page.sidebarContainer.Some? && page.sidebarContainer.value.rect.width > 200.0)
  {
    var navs := page.fixedNavs;
    for i := 0 to |navs|
      invariant forall j :: 0 <= j < i ==> !Measurable(navs[j])
    {
      var nav := navs[i];
      if nav.rect.left < 10.0 && nav.style.display != "none" && nav.style.visibility != "hidden"
        && nav.style.opacity > 0.5
      {
        FirstIndexUnique(navs, Measurable, i);
        return nav.rect.width > EXPANDED_WIDTH;
      }
    }
    if page.sidebarContainer.Some? {
      return page.sidebarContainer.value.rect.width > EXPANDED_WIDTH;
    }
    return false;
  }

  /** Navigations that cannot be measured in front of the list do not change the reading. */
  lemma UnmeasurableIgnored(hidden: seq<Element>, navs: seq<Element>, container: Option<Element>)
    requires forall j :: 0 <= j < |hidden| ==> !Measurable(hidden[j])
    ensures Reading(hidden + navs, container) == Reading(navs, container)
  {
    var all := hidden + navs;
    match FirstIndex(navs, Measurable)
    case Some(i) =>
      assert all[|hidden| + i] == navs[i];
      forall j | 0 <= j < |hidden| + i ensures !Measurable(all[j]) {
        if j >= |hidden| { assert all[j] == navs[j - |hidden|]; }
      }
      FirstIndexUnique(all, Measurable, |hidden| + i);
    case None =>
      forall j | 0 <= j < |all| ensures !Measurable(all[j]) {
        if j >= |hidden| { assert all[j] == navs[j - |hidden|]; }
      }
  }

  /** Exactly 200 px reads collapsed and 201 px reads expanded, for a navigation or the container. */
  lemma ThresholdBoundary(nav: Element, container: Option<Element>)
    requires Measurable(nav)
    ensures nav.rect.width == 200.0 ==> !Reading([nav], container)
    ensures nav.rect.width == 201.0 ==> Reading([nav], container)
    ensures container.Some? && container.value.rect.width == 200.0 ==> !Reading([], container)
    ensures container.Some? && container.value.rect.width == 201.0 ==> Reading([], container)
  {
  }

  /** With nothing measurable and no container the sidebar reads collapsed. */
  lemma DefaultCollapsed(navs: seq<Element>)
    requires forall j :: 0 <= j < |navs| ==> !Measurable(navs[j])
    ensures !Reading(navs, None)
  {
  }

  /** Once a measurable navigation is present, the container and later navigations are ignored. */
  lemma FirstMeasurableDecides(navs: seq<Element>, i: nat, container: Option<Element>, rest: seq<Element>)
    requires i < |navs| && Measurable(navs[i])
    requires forall j :: 0 <= j < i ==> !Measurable(navs[j])
    ensures Reading(navs + rest, container) == IsWide(navs[i].rect.width)
  {
    assert (navs + rest)[i] == navs[i];
    FirstIndexUnique(navs + rest, Measurable, i);
  }
}

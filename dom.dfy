/**
 * The host page as the core sees it: abstract element records and one snapshot of the
 * answers the document gives to the queries the core makes. Nothing here is a live DOM;
 * every handler of the core receives the snapshot that holds while it runs.
 */
module Dom {
  import opened Wrappers

  /** getBoundingClientRect(), in CSS pixels. */
  datatype Rect = Rect(left: real, top: real, width: real, height: real)

  /** The parts of getComputedStyle() the core reads; `opacity` is already parsed. */
  datatype Style = Style(display: string, visibility: string, opacity: real)

  /**
   * An element of the host page. `id` is its identity (the core keeps only ids, never the node);
   * `text` is its textContent; `interactiveCount` is the number of `a`/`button` descendants;
   * `hasSvg`/`hasPath` say whether it contains an `svg`/`path`; `ariaLabel` and `testId` are the
   * attributes, "" when absent; `hiddenClass` says whether its class list contains `hidden`;
   * `firstButton` is its first `button:first-of-type` descendant.
   */
  datatype Element = Element(
    id: nat,
    parent: Option<nat>,
    rect: Rect,
    style: Style,
    text: string,
    interactiveCount: nat,
    hasSvg: bool,
    hasPath: bool,
    ariaLabel: string,
    testId: string,
    hiddenClass: bool,
    firstButton: Option<nat>)

  datatype Viewport = Viewport(width: real, height: real)

  /**
   * One snapshot of the document.
   * - `sidebarCandidates[i]`: the elements matched by the i-th sidebar selector, in document order;
   * - `triggerMatch`: the first match of the host page's own hover-trigger selector;
   * - `fixedNavs`: the matches of the fixed left navigation selector, in document order
   *   (a `querySelector` of that selector is the first of them);
   * - `sidebarContainer`: the first `div.fixed.z-sidebar`;
   * - `buttons`: every `button` of the document, in document order;
   * - `body`: the id of `document.body`; `attached`: ids of the nodes for which
   *   `document.body.contains` answers true. In a browser that includes the body itself; the
   *   model does not demand `body in attached`, so a snapshot without it is allowed and then reads
   *   as a body sidebar having left the document;
   * - `zoneAttached`: whether the document holds a `.claude-custom-trigger` element, the zone the
   *   script inserts (the host page may have removed it since).
   */
  datatype Page = Page(
    viewport: Viewport,
    sidebarCandidates: seq<seq<Element>>,
    triggerMatch: Option<Element>,
    fixedNavs: seq<Element>,
    sidebarContainer: Option<Element>,
    buttons: seq<Element>,
    body: nat,
    attached: set<nat>,
    zoneAttached: bool)

  /** JavaScript's `s.includes(part)`. */
  predicate Contains(s: string, part: string)
    decreases |s|
  {
    (|part| <= |s| && s[..|part|] == part) || (|s| > 0 && Contains(s[1..], part))
  }
}

/**
 * The content script's state machine (content.js): the module-level handles and flags, the
 * expand and collapse timers, the callbacks deferred with setTimeout, and every handler that
 * reassigns them. `State` is the state as a value and its members are the handlers as
 * functions; `Controller` (controller.dfy) runs the same handlers imperatively.
 *
 * Time is not modelled. A timer armed with setTimeout is an id in `pendingExpand` or
 * `pendingCollapse` until it fires or is cleared; which pending timer or deferred callback fires
 * next is left to the environment (an `Event`). The page is a `Page` snapshot given to each step.
 */
module Hover {
  import opened Wrappers
  import opened Dom
  import opened Config
  import Oracle
  import Locator

  /** A node the script holds: a page element by id, or the synthetic trigger zone it creates. */
  datatype Handle = Node(id: nat) | SyntheticZone

  /** What the script does to the page: a click, or inserting or removing its trigger zone. */
  datatype Effect = Click(target: nat) | InsertZone | RemoveZone

  /** A callback queued with setTimeout and never cleared. */
  datatype Deferred =
    | Setup              // initialize(): setup after 500 ms or on DOMContentLoaded
    | SetupIfMissing     // initialize(): setup again after 3 s if an element is missing
    | Relocate           // findSidebarElements(): retry after 2 s when no sidebar was found
    | AttachIfExpanded   // setup() and the expand timer: add sidebar listeners if expanded
    | DetachListeners    // the collapse timer: remove the sidebar listeners
    | ReconcileListeners // the toggle command: add or remove the listeners to match the state

  /** The reply to the toggle command. */
  datatype Response = Response(success: bool, wasExpanded: bool)

  const TOGGLE_ACTION: string := "toggle-sidebar"

  /**
   * The two timer handles (`hoverTimer`, `collapseTimer`), the timers still pending, by kind, and
   * the next id setTimeout hands out.
   */
  datatype Timers = Timers(
    hoverTimer: Option<nat>,
    collapseTimer: Option<nat>,
    pendingExpand: set<nat>,
    pendingCollapse: set<nat>,
    nextTimer: nat)
  {
    /** Ids are fresh below `nextTimer`, and no id is both an expand and a collapse timer. */
    ghost predicate Valid()
    {
      && (forall t :: t in pendingExpand ==> t < nextTimer)
      && (forall t :: t in pendingCollapse ==> t < nextTimer)
      && pendingExpand !! pendingCollapse
      && (hoverTimer.Some? ==> hoverTimer.value < nextTimer)
      && (collapseTimer.Some? ==> collapseTimer.value < nextTimer)
    }

    /** `if (hoverTimer) { clearTimeout(hoverTimer); hoverTimer = null; }` */
    function CancelExpand(): Timers
    {
      if hoverTimer.Some? then this.(pendingExpand := pendingExpand - {hoverTimer.value}, hoverTimer := None)
      else this
    }

    /** `hoverTimer = setTimeout(...)`: the handle is overwritten, an earlier timer is not cleared. */
    function ArmExpand(): Timers
    {
      this.(pendingExpand := pendingExpand + {nextTimer}, hoverTimer := Some(nextTimer), nextTimer := nextTimer + 1)
    }

    /** `if (collapseTimer) { clearTimeout(collapseTimer); collapseTimer = null; }` */
    function CancelCollapse(): Timers
    {
      if collapseTimer.Some? then this.(pendingCollapse := pendingCollapse - {collapseTimer.value}, collapseTimer := None)
      else this
    }

    /** `collapseTimer = setTimeout(...)`, likewise without clearing an earlier one. */
    function ArmCollapse(): Timers
    {
      this.(pendingCollapse := pendingCollapse + {nextTimer}, collapseTimer := Some(nextTimer), nextTimer := nextTimer + 1)
    }
  }

  /** The module's element handles: `sidebar`, `sidebarButton` and `triggerElement`. */
  datatype Refs = Refs(sidebar: Option<nat>, sidebarButton: Option<nat>, triggerElement: Option<Handle>)

  /**
   * Where the pointer is (`isInTriggerZone`, `isInSidebar`) and the navigation element holding the
   * sidebar hover listeners (`sidebarHoverListeners`).
   */
  datatype Pointer = Pointer(isInTriggerZone: bool, isInSidebar: bool, sidebarHoverListeners: Option<nat>)

  /**
   * The script's whole state: the configuration, timers, handles and pointer flags, whether it
   * has inserted a trigger zone and not removed it since (`zonePresent`; the host page may still
   * have removed it, which `Page.zoneAttached` tells), how many mutation observers it attached,
   * the callbacks it queued, and what it did to the page so far.
   */
  datatype State = State(
    config: map<string, Value>,
    timers: Timers,
    refs: Refs,
    pointer: Pointer,
    zonePresent: bool,
    observers: nat,
    deferred: seq<Deferred>,
    effects: seq<Effect>)
  {
    /**
     * The timers are consistent; sidebar listeners are only held with a sidebar, and the pointer
     * is only "in the sidebar" while those listeners are attached.
     */
    ghost predicate Valid()
    {
      && timers.Valid()
      && (pointer.sidebarHoverListeners.Some? ==> refs.sidebar.Some?)
      && (pointer.isInSidebar ==> pointer.sidebarHoverListeners.Some?)
    }

    /** The handles held before findSidebarElements, as the locator reads them. */
    function Handles(): Locator.Located
    {
      Locator.Located(refs.sidebar, refs.sidebarButton, None)
    }

    /** findSidebarElements(): the located handles, and a retry queued when no sidebar is known. */
    function FindElements(page: Page): State
    {
      var r := Locator.Locate(page, Handles());
      this.(refs := Refs(r.sidebar, r.button, if r.trigger.Some? then Some(Node(r.trigger.value)) else None),
            deferred := if r.sidebar.None? then deferred + [Relocate] else deferred)
    }

    /**
     * createCustomTriggerArea(): a zone the document holds is removed; a new one is inserted and
     * becomes the trigger element only when the fixed left navigation exists.
     */
    function CreateZone(page: Page): State
    {
      var removed := if page.zoneAttached then effects + [RemoveZone] else effects;
      if |page.fixedNavs| == 0 then this.(zonePresent := false, effects := removed)
      else this.(zonePresent := true, effects := removed + [InsertZone], refs := refs.(triggerElement := Some(SyntheticZone)))
    }

    /** setup(): locate, create the zone, attach one more mutation observer, check the state later. */
    function Setup(page: Page): State
    {
      var s := FindElements(page).CreateZone(page);
      s.(observers := s.observers + 1, deferred := s.deferred + [AttachIfExpanded])
    }

    /** initialize(): setup is queued, and so is the 3 s retry. */
    function Initialize(): State
    {
      this.(deferred := deferred + [Deferred.Setup, SetupIfMissing])
    }

    /** addSidebarHoverListeners(): only with a sidebar, no listeners yet and a fixed navigation. */
    function AddListeners(page: Page): State
    {
      if refs.sidebar.None? || pointer.sidebarHoverListeners.Some? || |page.fixedNavs| == 0 then this
      else this.(pointer := pointer.(sidebarHoverListeners := Some(page.fixedNavs[0].id)))
    }

    /** removeSidebarHoverListeners() */
    function RemoveListeners(): State
    {
      if pointer.sidebarHoverListeners.None? then this
      else this.(pointer := pointer.(sidebarHoverListeners := None, isInSidebar := false))
    }

    /** handleEnterTriggerZone(): cancels a collapse; arms an expand if collapsed and a button is known. */
    function EnterZone(expanded: bool): State
    {
      var t := timers.CancelCollapse();
      this.(timers := if !expanded && refs.sidebarButton.Some? then t.ArmExpand() else t)
    }

    /** handleLeaveTriggerZone(): cancels an expand; arms a collapse once the pointer is in neither area. */
    function LeaveZone(expanded: bool): State
    {
      var t := timers.CancelExpand();
      var arm := expanded && refs.sidebarButton.Some? && !pointer.isInTriggerZone && !pointer.isInSidebar;
      this.(timers := if arm then t.ArmCollapse() else t)
    }

    /** handleDirectMouseEnter() */
    function TriggerEnter(expanded: bool): State
    {
      this.(pointer := pointer.(isInTriggerZone := true)).EnterZone(expanded)
    }

    /** handleDirectMouseLeave() */
    function TriggerLeave(expanded: bool): State
    {
      this.(pointer := pointer.(isInTriggerZone := false)).LeaveZone(expanded)
    }

    /** handleSidebarMouseEnter(): cancels a collapse. */
    function SidebarEnter(): State
    {
      this.(pointer := pointer.(isInSidebar := true), timers := timers.CancelCollapse())
    }

    /** handleSidebarMouseLeave() */
    function SidebarLeave(expanded: bool): State
    {
      this.(pointer := pointer.(isInSidebar := false)).LeaveZone(expanded)
    }

    /**
     * The expand timer's callback. Its handle is not reset. Clicking a null button throws, which
     * ends the callback.
     */
    function ExpandFires(t: nat, expanded: bool): State
    {
      var click := pointer.isInTriggerZone && !expanded && refs.sidebarButton.Some?;
      this.(timers := timers.(pendingExpand := timers.pendingExpand - {t}),
            effects := if click then effects + [Click(refs.sidebarButton.value)] else effects,
            deferred := if click then deferred + [AttachIfExpanded] else deferred)
    }

    /**
     * The collapse timer's callback: it resets `collapseTimer`, whichever timer that holds, unless
     * clicking a null button threw first.
     */
    function CollapseFires(t: nat, expanded: bool): State
    {
      var due := !pointer.isInTriggerZone && !pointer.isInSidebar && expanded;
      var click := due && refs.sidebarButton.Some?;
      var throws := due && refs.sidebarButton.None?;
      this.(timers := timers.(pendingCollapse := timers.pendingCollapse - {t},
                              collapseTimer := if throws then timers.collapseTimer else None),
            effects := if click then effects + [Click(refs.sidebarButton.value)] else effects,
            deferred := if click then deferred + [DetachListeners] else deferred)
    }

    /** Runs the k-th queued callback against the page as it is then. */
    function RunDeferred(k: nat, page: Page): State
      requires k < |deferred|
    {
      var s := this.(deferred := deferred[..k] + deferred[k + 1..]);
      var expanded := Oracle.ExpandedOn(page);
      match deferred[k]
      case Setup => s.Setup(page)
      case SetupIfMissing => if s.refs.sidebar.None? || s.refs.sidebarButton.None? then s.Setup(page) else s
      case Relocate => s.FindElements(page)
      case AttachIfExpanded => if expanded then s.AddListeners(page) else s
      case DetachListeners => s.RemoveListeners()
      case ReconcileListeners =>
        if expanded && s.pointer.sidebarHoverListeners.None? then s.AddListeners(page)
        else if !expanded && s.pointer.sidebarHoverListeners.Some? then s.RemoveListeners()
        else s
    }

    /**
     * The mutation observer's callback, as written: re-locate when the sidebar is gone, re-find the
     * button when it is gone, recreate the zone when the document no longer holds it. Nothing
     * consults `config.enabled`.
     */
    function Observe(page: Page): State
    {
      var s1 := if refs.sidebar.None? || refs.sidebar.value !in page.attached then FindElements(page) else this;
      var refind := (s1.refs.sidebarButton.None? || s1.refs.sidebarButton.value !in page.attached) && s1.refs.sidebar.Some?;
      var s2 := s1.(refs := s1.refs.(sidebarButton := if refind then Locator.ToggleButtonFor(page) else s1.refs.sidebarButton));
      if !page.zoneAttached then s2.CreateZone(page) else s2
    }

    /** The observer callback as evidently intended: inert while the extension is disabled. */
    function ObserveWhileEnabled(page: Page): State
    {
      if Enabled(config) then Observe(page) else this
    }

    /**
     * cleanup(): listeners and the zone the document holds removed, the two timers it holds
     * cleared, every handle and flag reset.
     */
    function Cleanup(page: Page): State
    {
      this.(timers := timers.CancelExpand().CancelCollapse(),
            refs := Refs(None, None, None),
            pointer := Pointer(false, false, None),
            zonePresent := false,
            effects := if page.zoneAttached then effects + [RemoveZone] else effects)
    }

    /** The storage listener: changed keys are merged; a change of `enabled` starts or stops the script. */
    function StorageChanged(changes: map<string, Value>, page: Page): State
    {
      var s := this.(config := Merge(config, changes));
      if "enabled" in changes then
        if Enabled(s.config) then s.Initialize() else s.Cleanup(page)
      else s
    }

    /**
     * The initial storage read: the default keys, each with its stored value if there is one,
     * merged into the config.
     */
    function ConfigLoaded(stored: map<string, Value>): State
    {
      var s := this.(config := Merge(config, Merge(DEFAULT_CONFIG, Defaulted(stored))));
      if Enabled(s.config) then s.Initialize() else s
    }

    /**
     * The message listener. Only `toggle-sidebar` is handled, and only while enabled; a missing
     * button is searched for once. The reply reports the state read before the click.
     */
    function OnMessage(action: string, page: Page): (State, Option<Response>)
    {
      if action != TOGGLE_ACTION || !Enabled(config) then (this, None)
      else
        var s := if refs.sidebarButton.None? then FindElements(page) else this;
        if s.refs.sidebarButton.None? then (s, None)
        else
          (s.(effects := s.effects + [Click(s.refs.sidebarButton.value)], deferred := s.deferred + [ReconcileListeners]),
           Some(Response(true, Oracle.ExpandedOn(page))))
    }
  }

  /** `storage.get(DEFAULT_CONFIG, …)` answers only for the keys of the defaults. */
  function Defaulted(stored: map<string, Value>): (r: map<string, Value>)
    ensures r.Keys == stored.Keys * DEFAULT_CONFIG.Keys
    ensures forall k :: k in r ==> r[k] == stored[k]
  {
    map k | k in stored && k in DEFAULT_CONFIG :: stored[k]
  }

  /** The script's state when it is injected. Browser timer ids are positive, hence `nextTimer := 1`. */
  const INITIAL: State :=
    State(DEFAULT_CONFIG, Timers(None, None, {}, {}, 1), Refs(None, None, None), Pointer(false, false, None),
          false, 0, [], [])

  /** What can happen next: a pointer event, a timer, a mutation, a message or a storage change. */
  datatype Event =
    | Loaded(stored: map<string, Value>)
    | TriggerEnter
    | TriggerLeave
    | SidebarEnter
    | SidebarLeave
    | ExpandTimer(t: nat)
    | CollapseTimer(t: nat)
    | DeferredRuns(k: nat)
    | Mutation
    | Message(action: string)
    | StorageChange(changes: map<string, Value>)

  /**
   * When an event can occur on `page`: pointer events need the element carrying the listener (the
   * zone the script inserted, still in the document, or the sidebar listeners), timers must be
   * pending, a mutation needs an observer.
   */
  predicate Possible(s: State, e: Event, page: Page)
  {
    match e
    case TriggerEnter => s.zonePresent && page.zoneAttached
    case TriggerLeave => s.zonePresent && page.zoneAttached
    case SidebarEnter => s.pointer.sidebarHoverListeners.Some?
    case SidebarLeave => s.pointer.sidebarHoverListeners.Some?
    case ExpandTimer(t) => t in s.timers.pendingExpand
    case CollapseTimer(t) => t in s.timers.pendingCollapse
    case DeferredRuns(k) => k < |s.deferred|
    case Mutation => s.observers > 0
    case _ => true
  }

  /** One step of the script, with `observe` choosing the mutation observer's callback. */
  function StepWith(s: State, e: Event, page: Page, observe: bool): State
    requires Possible(s, e, page)
  {
    var expanded := Oracle.ExpandedOn(page);
    match e
    case Loaded(stored) => s.ConfigLoaded(stored)
    case TriggerEnter => s.TriggerEnter(expanded)
    case TriggerLeave => s.TriggerLeave(expanded)
    case SidebarEnter => s.SidebarEnter()
    case SidebarLeave => s.SidebarLeave(expanded)
    case ExpandTimer(t) => s.ExpandFires(t, expanded)
    case CollapseTimer(t) => s.CollapseFires(t, expanded)
    case DeferredRuns(k) => s.RunDeferred(k, page)
    case Mutation => if observe then s.Observe(page) else s.ObserveWhileEnabled(page)
    case Message(action) => s.OnMessage(action, page).0
    case StorageChange(changes) => s.StorageChanged(changes, page)
  }

  /** The script as written. */
  function StepAsWritten(s: State, e: Event, page: Page): State
    requires Possible(s, e, page)
  {
    StepWith(s, e, page, true)
  }

  /** The script with the observer made inert while disabled. */
  function Step(s: State, e: Event, page: Page): State
    requires Possible(s, e, page)
  {
    StepWith(s, e, page, false)
  }
}

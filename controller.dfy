/**
 * The content script as it runs: its module-level variables are the fields of one `Controller`,
 * and each handler reassigns them in place. Every method is proved to leave the state that the
 * matching `Hover.State` transition describes, and to keep `Valid`.
 */
module Control {
  import opened Wrappers
  import opened Dom
  import opened Config
  import opened Hover
  import Oracle
  import Locator
  import HoverProperties

  class Controller {
    var config: map<string, Value>
    var hoverTimer: Option<nat>
    var collapseTimer: Option<nat>
    var pendingExpand: set<nat>
    var pendingCollapse: set<nat>
    var nextTimer: nat
    var sidebar: Option<nat>
    var sidebarButton: Option<nat>
    var triggerElement: Option<Handle>
    var isInTriggerZone: bool
    var isInSidebar: bool
    var sidebarHoverListeners: Option<nat>
    var zonePresent: bool
    var observers: nat
    var deferred: seq<Deferred>
    var effects: seq<Effect>

    /** The variables as one value of the state machine. */
    ghost function Snapshot(): State
      reads this
    {
      State(config,
            Timers(hoverTimer, collapseTimer, pendingExpand, pendingCollapse, nextTimer),
            Refs(sidebar, sidebarButton, triggerElement),
            Pointer(isInTriggerZone, isInSidebar, sidebarHoverListeners),
            zonePresent, observers, deferred, effects)
    }

    ghost predicate Valid()
      reads this
    {
      Snapshot().Valid()
    }

    /** The script is injected with the default configuration and nothing found yet. */
    constructor()
      ensures Snapshot() == INITIAL && Valid()
    {
      config := DEFAULT_CONFIG;
      hoverTimer, collapseTimer := None, None;
      pendingExpand, pendingCollapse, nextTimer := {}, {}, 1;
      sidebar, sidebarButton, triggerElement := None, None, None;
      isInTriggerZone, isInSidebar, sidebarHoverListeners := false, false, None;
      zonePresent, observers, deferred, effects := false, 0, [], [];
    }

    // ------------------------------------------------------------ set-up

    /** The callback of the initial storage read. */
    method OnConfigLoaded(stored: map<string, Value>)
      requires Valid()
      modifies this
      ensures Snapshot() == old(Snapshot()).ConfigLoaded(stored) && Valid()
    {
      HoverProperties.ConfigHandlersValid(Snapshot(), stored);
      config := config + (DEFAULT_CONFIG + Defaulted(stored));
      if Enabled(config) {
        Initialize();
      }
    }

    method Initialize()
      modifies this
      ensures Snapshot() == old(Snapshot()).Initialize()
    {
      deferred := deferred + [Deferred.Setup, SetupIfMissing];
    }

    method Setup(page: Page)
      modifies this
      ensures Snapshot() == old(Snapshot()).Setup(page)
    {
      FindSidebarElements(page);
      CreateCustomTriggerArea(page);
      observers := observers + 1;
      deferred := deferred + [AttachIfExpanded];
    }

    /** Runs the element search and takes over the handles it leaves; a retry is queued if needed. */
    method FindSidebarElements(page: Page)
      modifies this
      ensures Snapshot() == old(Snapshot()).FindElements(page)
    {
      var r, retry := Locator.FindSidebarElements(page, Locator.Located(sidebar, sidebarButton, None));
      sidebar, sidebarButton := r.sidebar, r.button;
      triggerElement := if r.trigger.Some? then Some(Node(r.trigger.value)) else None;
      if retry {
        deferred := deferred + [Relocate];
      }
    }

    /** The trigger zone, if the document holds one, is removed. */
    method RemoveTriggerArea(page: Page)
      modifies this
      ensures Snapshot() == old(Snapshot()).(zonePresent := false,
                                             effects := if page.zoneAttached then old(effects) + [RemoveZone] else old(effects))
    {
      if page.zoneAttached {
        effects := effects + [RemoveZone];
      }
      zonePresent := false;
    }

    method CreateCustomTriggerArea(page: Page)
      modifies this
      ensures Snapshot() == old(Snapshot()).CreateZone(page)
    {
      RemoveTriggerArea(page);
      if |page.fixedNavs| == 0 {
        return;
      }
      effects := effects + [InsertZone];
      zonePresent := true;
      triggerElement := Some(SyntheticZone);
    }

    method AddSidebarHoverListeners(page: Page)
      modifies this
      ensures Snapshot() == old(Snapshot()).AddListeners(page)
    {
      if sidebar.None? || sidebarHoverListeners.Some? {
        return;
      }
      if |page.fixedNavs| == 0 {
        return;
      }
      sidebarHoverListeners := Some(page.fixedNavs[0].id);
    }

    method RemoveSidebarHoverListeners()
      modifies this
      ensures Snapshot() == old(Snapshot()).RemoveListeners()
    {
      if sidebarHoverListeners.None? {
        return;
      }
      sidebarHoverListeners := None;
      isInSidebar := false;
    }

    // ------------------------------------------------------------ pointer events

    /** `if (hoverTimer) { clearTimeout(hoverTimer); hoverTimer = null; }` */
    method ClearHoverTimer()
      modifies this
      ensures Snapshot() == old(Snapshot()).(timers := old(Snapshot()).timers.CancelExpand())
    {
      if hoverTimer.Some? {
        pendingExpand := pendingExpand - {hoverTimer.value};
        hoverTimer := None;
      }
    }

    /** `if (collapseTimer) { clearTimeout(collapseTimer); collapseTimer = null; }` */
    method ClearCollapseTimer()
      modifies this
      ensures Snapshot() == old(Snapshot()).(timers := old(Snapshot()).timers.CancelCollapse())
    {
      if collapseTimer.Some? {
        pendingCollapse := pendingCollapse - {collapseTimer.value};
        collapseTimer := None;
      }
    }

    method HandleEnterTriggerZone(page: Page)
      modifies this
      ensures Snapshot() == old(Snapshot()).EnterZone(Oracle.ExpandedOn(page))
    {
      ClearCollapseTimer();
      var expanded := Oracle.IsSidebarExpanded(page);
      if !expanded && sidebarButton.Some? {
        pendingExpand := pendingExpand + {nextTimer};
        hoverTimer := Some(nextTimer);
        nextTimer := nextTimer + 1;
      }
    }

    method HandleLeaveTriggerZone(page: Page)
      modifies this
      ensures Snapshot() == old(Snapshot()).LeaveZone(Oracle.ExpandedOn(page))
    {
      ClearHoverTimer();
      var expanded := Oracle.IsSidebarExpanded(page);
      if expanded && sidebarButton.Some? && !isInTriggerZone && !isInSidebar {
        pendingCollapse := pendingCollapse + {nextTimer};
        collapseTimer := Some(nextTimer);
        nextTimer := nextTimer + 1;
      }
    }

    method HandleDirectMouseEnter(page: Page)
      requires Valid() && zonePresent && page.zoneAttached
      modifies this
      ensures Snapshot() == old(Snapshot()).TriggerEnter(Oracle.ExpandedOn(page)) && Valid()
    {
      HoverProperties.PointerHandlersValid(Snapshot(), Oracle.ExpandedOn(page));
      isInTriggerZone := true;
      HandleEnterTriggerZone(page);
    }

    method HandleDirectMouseLeave(page: Page)
      requires Valid() && zonePresent && page.zoneAttached
      modifies this
      ensures Snapshot() == old(Snapshot()).TriggerLeave(Oracle.ExpandedOn(page)) && Valid()
    {
      HoverProperties.PointerHandlersValid(Snapshot(), Oracle.ExpandedOn(page));
      isInTriggerZone := false;
      HandleLeaveTriggerZone(page);
    }

    method HandleSidebarMouseEnter()
      requires Valid() && sidebarHoverListeners.Some?
      modifies this
      ensures Snapshot() == old(Snapshot()).SidebarEnter() && Valid()
    {
      HoverProperties.PointerHandlersValid(Snapshot(), false);
      isInSidebar := true;
      ClearCollapseTimer();
    }

    method HandleSidebarMouseLeave(page: Page)
      requires Valid() && sidebarHoverListeners.Some?
      modifies this
      ensures Snapshot() == old(Snapshot()).SidebarLeave(Oracle.ExpandedOn(page)) && Valid()
    {
      HoverProperties.PointerHandlersValid(Snapshot(), Oracle.ExpandedOn(page));
      isInSidebar := false;
      HandleLeaveTriggerZone(page);
    }

    // ------------------------------------------------------------ timers and queued callbacks

    /** The expand timer `t` fires. */
    method ExpandTimerFires(t: nat, page: Page)
      requires Valid() && t in pendingExpand
      modifies this
      ensures Snapshot() == old(Snapshot()).ExpandFires(t, Oracle.ExpandedOn(page)) && Valid()
    {
      HoverProperties.TimerCallbacksValid(Snapshot(), t, Oracle.ExpandedOn(page));
      pendingExpand := pendingExpand - {t};
      var expanded := Oracle.IsSidebarExpanded(page);
      if isInTriggerZone && !expanded {
        if sidebarButton.None? {
          return;
        }
        effects := effects + [Click(sidebarButton.value)];
        deferred := deferred + [AttachIfExpanded];
      }
    }

    /** The collapse timer `t` fires. */
    method CollapseTimerFires(t: nat, page: Page)
      requires Valid() && t in pendingCollapse
      modifies this
      ensures Snapshot() == old(Snapshot()).CollapseFires(t, Oracle.ExpandedOn(page)) && Valid()
    {
      HoverProperties.TimerCallbacksValid(Snapshot(), t, Oracle.ExpandedOn(page));
      pendingCollapse := pendingCollapse - {t};
      var expanded := Oracle.IsSidebarExpanded(page);
      if !isInTriggerZone && !isInSidebar && expanded {
        if sidebarButton.None? {
          return;
        }
        effects := effects + [Click(sidebarButton.value)];
        deferred := deferred + [DetachListeners];
      }
      collapseTimer := None;
    }

    /** The k-th queued callback runs. */
    method DeferredFires(k: nat, page: Page)
      requires Valid() && k < |deferred|
      modifies this
      ensures Snapshot() == old(Snapshot()).RunDeferred(k, page) && Valid()
    {
      HoverProperties.RunDeferredValid(Snapshot(), k, page);
      var task := deferred[k];
      deferred := deferred[..k] + deferred[k + 1..];
      match task
      case Setup =>
        Setup(page);
      case SetupIfMissing =>
        if sidebar.None? || sidebarButton.None? {
          Setup(page);
        }
      case Relocate =>
        FindSidebarElements(page);
      case AttachIfExpanded =>
        var expanded := Oracle.IsSidebarExpanded(page);
        if expanded {
          AddSidebarHoverListeners(page);
        }
      case DetachListeners =>
        RemoveSidebarHoverListeners();
      case ReconcileListeners =>
        var expanded := Oracle.IsSidebarExpanded(page);
        if expanded && sidebarHoverListeners.None? {
          AddSidebarHoverListeners(page);
        } else if !expanded && sidebarHoverListeners.Some? {
          RemoveSidebarHoverListeners();
        }
    }

    // ------------------------------------------------------------ mutations, messages, storage

    /** The mutation observer's callback, as written. */
    method ObserveMutations(page: Page)
      requires Valid() && observers > 0
      modifies this
      ensures Snapshot() == old(Snapshot()).Observe(page) && Valid()
    {
      HoverProperties.ObserveValid(Snapshot(), page);
      if sidebar.None? || sidebar.value !in page.attached {
        FindSidebarElements(page);
      }
      if sidebarButton.None? || sidebarButton.value !in page.attached {
        if sidebar.Some? {
          sidebarButton := Locator.FindSidebarToggleButton(page);
        }
      }
      if !page.zoneAttached {
        CreateCustomTriggerArea(page);
      }
    }

    /** The mutation observer's callback, inert while the extension is disabled. */
    method ObserveMutationsWhileEnabled(page: Page)
      requires Valid() && observers > 0
      modifies this
      ensures Snapshot() == old(Snapshot()).ObserveWhileEnabled(page) && Valid()
    {
      if Enabled(config) {
        ObserveMutations(page);
      }
    }

    /** The message listener; `response` is the reply sent, if any. */
    method OnMessage(action: string, page: Page) returns (response: Option<Response>)
      requires Valid()
      modifies this
      ensures (Snapshot(), response) == old(Snapshot()).OnMessage(action, page) && Valid()
    {
      HoverProperties.OnMessageValid(Snapshot(), action, page);
      if action != TOGGLE_ACTION {
        return None;
      }
      if !Enabled(config) {
        return None;
      }
      if sidebarButton.None? {
        FindSidebarElements(page);
        if sidebarButton.None? {
          return None;
        }
      }
      var isExpanded := Oracle.IsSidebarExpanded(page);
      effects := effects + [Click(sidebarButton.value)];
      deferred := deferred + [ReconcileListeners];
      response := Some(Response(true, isExpanded));
    }

    /** The storage listener: each changed key is copied into the configuration, one at a time. */
    method OnStorageChanged(changes: map<string, Value>, page: Page)
      requires Valid()
      modifies this
      ensures Snapshot() == old(Snapshot()).StorageChanged(changes, page) && Valid()
    {
      HoverProperties.ConfigHandlersValid(Snapshot(), changes);
      MergeChanges(changes);
      if "enabled" in changes {
        if Enabled(config) {
          Initialize();
        } else {
          Cleanup(page);
        }
      }
    }

    /** `config = {...config, ...changes}`, one key at a time. */
    method MergeChanges(changes: map<string, Value>)
      modifies this`config
      ensures config == Merge(old(config), changes)
    {
      var keys := changes.Keys;
      while keys != {}
        invariant keys <= changes.Keys
        invariant config == old(config) + map k | k in changes.Keys - keys :: changes[k]
        decreases keys
      {
        var key :| key in keys;
        config := config[key := changes[key]];
        keys := keys - {key};
      }
    }

    /** cleanup() */
    method Cleanup(page: Page)
      modifies this
      ensures Snapshot() == old(Snapshot()).Cleanup(page)
    {
      RemoveSidebarHoverListeners();
      RemoveTriggerArea(page);
      ClearHoverTimer();
      ClearCollapseTimer();
      isInTriggerZone, isInSidebar, sidebarButton, sidebar, triggerElement := false, false, None, None, None;
    }
  }
}

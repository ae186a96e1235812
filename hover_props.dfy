/**
 * What the content script's handlers guarantee, stated over the `Hover.State` transitions:
 * the invariant every step keeps, when timers are armed and clicks happen, what the toggle
 * command answers, what cleanup resets, and how a disabled script behaves.
 */
module HoverProperties {
  import opened Wrappers
  import opened Dom
  import opened Config
  import opened Hover
  import Oracle
  import Locator

  // ---------------------------------------------------------------- the invariant

  lemma InitialValid()
    ensures INITIAL.Valid()
    ensures Enabled(INITIAL.config)
  {
  }

  /** A search never forgets a sidebar it already holds. */
  lemma LocateRetainsSidebar(page: Page, prior: Locator.Located)
    requires prior.sidebar.Some?
    ensures Locator.Locate(page, prior).sidebar.Some?
  {
  }

  lemma FindElementsValid(s: State, page: Page)
    requires s.Valid()
    ensures s.FindElements(page).Valid()
  {
    if s.refs.sidebar.Some? {
      LocateRetainsSidebar(page, s.Handles());
    }
  }

  lemma SetupValid(s: State, page: Page)
    requires s.Valid()
    ensures s.Setup(page).Valid()
  {
    FindElementsValid(s, page);
  }

  lemma ObserveValid(s: State, page: Page)
    requires s.Valid()
    ensures s.Observe(page).Valid()
  {
    if s.refs.sidebar.None? || s.refs.sidebar.value !in page.attached {
      FindElementsValid(s, page);
    }
  }

  lemma RunDeferredValid(s: State, k: nat, page: Page)
    requires s.Valid() && k < |s.deferred|
    ensures s.RunDeferred(k, page).Valid()
  {
    var s' := s.(deferred := s.deferred[..k] + s.deferred[k + 1..]);
    assert s'.Valid();
    match s.deferred[k]
    case Setup => SetupValid(s', page);
    case SetupIfMissing => SetupValid(s', page);
    case Relocate => FindElementsValid(s', page);
    case AttachIfExpanded =>
    case DetachListeners =>
    case ReconcileListeners =>
  }

  lemma OnMessageValid(s: State, action: string, page: Page)
    requires s.Valid()
    ensures s.OnMessage(action, page).0.Valid()
  {
    FindElementsValid(s, page);
  }

  /** Each timer operation keeps the timer ids fresh and the two kinds apart. */
  lemma TimerOperationsValid(t: Timers)
    requires t.Valid()
    ensures t.CancelExpand().Valid() && t.CancelCollapse().Valid()
    ensures t.ArmExpand().Valid() && t.ArmCollapse().Valid()
  {
  }

  lemma EnterZoneValid(s: State, expanded: bool)
    requires s.Valid()
    ensures s.EnterZone(expanded).Valid()
  {
    TimerOperationsValid(s.timers);
    TimerOperationsValid(s.timers.CancelCollapse());
  }

  lemma LeaveZoneValid(s: State, expanded: bool)
    requires s.Valid()
    ensures s.LeaveZone(expanded).Valid()
  {
    TimerOperationsValid(s.timers);
    TimerOperationsValid(s.timers.CancelExpand());
  }

  lemma PointerHandlersValid(s: State, expanded: bool)
    requires s.Valid()
    ensures s.TriggerEnter(expanded).Valid() && s.TriggerLeave(expanded).Valid() && s.SidebarLeave(expanded).Valid()
    ensures s.pointer.sidebarHoverListeners.Some? ==> s.SidebarEnter().Valid()
  {
    EnterZoneValid(s.(pointer := s.pointer.(isInTriggerZone := true)), expanded);
    LeaveZoneValid(s.(pointer := s.pointer.(isInTriggerZone := false)), expanded);
    LeaveZoneValid(s.(pointer := s.pointer.(isInSidebar := false)), expanded);
    TimerOperationsValid(s.timers);
  }

  lemma TimerCallbacksValid(s: State, t: nat, expanded: bool)
    requires s.Valid()
    ensures s.ExpandFires(t, expanded).Valid() && s.CollapseFires(t, expanded).Valid()
  {
  }

  lemma ConfigHandlersValid(s: State, changes: map<string, Value>)
    requires s.Valid()
    ensures forall page: Page :: s.StorageChanged(changes, page).Valid()
    ensures s.ConfigLoaded(changes).Valid()
  {
  }

  /**
   * Every step, with the observer as written or corrected, keeps `Valid`: fresh and disjoint
   * timer ids, listeners only with a sidebar, "in the sidebar" only with listeners.
   */
  lemma StepPreservesValid(s: State, e: Event, page: Page, observe: bool)
    requires s.Valid() && Possible(s, e, page)
    ensures StepWith(s, e, page, observe).Valid()
  {
    var expanded := Oracle.ExpandedOn(page);
    match e
    case Loaded(stored) => ConfigHandlersValid(s, stored);
    case StorageChange(changes) => ConfigHandlersValid(s, changes);
    case TriggerEnter => PointerHandlersValid(s, expanded);
    case TriggerLeave => PointerHandlersValid(s, expanded);
    case SidebarEnter => PointerHandlersValid(s, expanded);
    case SidebarLeave => PointerHandlersValid(s, expanded);
    case ExpandTimer(t) => TimerCallbacksValid(s, t, expanded);
    case CollapseTimer(t) => TimerCallbacksValid(s, t, expanded);
    case DeferredRuns(k) => RunDeferredValid(s, k, page);
    case Mutation => ObserveValid(s, page);
    case Message(action) => OnMessageValid(s, action, page);
  }

  // ---------------------------------------------------------------- what the other handlers leave alone

  /** `after` extends `before` by zone insertions and removals only: no click. */
  predicate NoClickAdded(before: seq<Effect>, after: seq<Effect>)
  {
    before <= after && forall k :: |before| <= k < |after| ==> !after[k].Click?
  }

  lemma CreateZoneFrame(s: State, page: Page)
    ensures s.CreateZone(page).timers == s.timers
    ensures NoClickAdded(s.effects, s.CreateZone(page).effects)
  {
  }

  lemma SetupFrame(s: State, page: Page)
    ensures s.Setup(page).timers == s.timers
    ensures NoClickAdded(s.effects, s.Setup(page).effects)
  {
    CreateZoneFrame(s.FindElements(page), page);
  }

  lemma RunDeferredFrame(s: State, k: nat, page: Page)
    requires k < |s.deferred|
    ensures s.RunDeferred(k, page).timers == s.timers
    ensures NoClickAdded(s.effects, s.RunDeferred(k, page).effects)
  {
    var s' := s.(deferred := s.deferred[..k] + s.deferred[k + 1..]);
    SetupFrame(s', page);
  }

  lemma ObserveFrame(s: State, page: Page)
    ensures s.Observe(page).timers == s.timers && s.ObserveWhileEnabled(page).timers == s.timers
    ensures NoClickAdded(s.effects, s.Observe(page).effects)
    ensures NoClickAdded(s.effects, s.ObserveWhileEnabled(page).effects)
  {
    var s1 := if s.refs.sidebar.None? || s.refs.sidebar.value !in page.attached then s.FindElements(page) else s;
    var refind := (s1.refs.sidebarButton.None? || s1.refs.sidebarButton.value !in page.attached) && s1.refs.sidebar.Some?;
    var s2 := s1.(refs := s1.refs.(sidebarButton := if refind then Locator.ToggleButtonFor(page) else s1.refs.sidebarButton));
    CreateZoneFrame(s2, page);
  }

  /**
   * The observer restores a zone the host page removed: with the fixed navigation present the zone
   * is inserted again and is the trigger element; a zone still in the document is left alone.
   */
  lemma ObserveRestoresZone(s: State, page: Page)
    ensures !page.zoneAttached && |page.fixedNavs| > 0 ==>
      && s.Observe(page).zonePresent
      && s.Observe(page).effects == s.effects + [InsertZone]
      && s.Observe(page).refs.triggerElement == Some(SyntheticZone)
    ensures page.zoneAttached ==> s.Observe(page).effects == s.effects && s.Observe(page).zonePresent == s.zonePresent
  {
  }

  lemma OnMessageFrame(s: State, action: string, page: Page)
    ensures s.OnMessage(action, page).0.timers == s.timers
    ensures s.effects <= s.OnMessage(action, page).0.effects
  {
  }

  lemma ConfigFrame(s: State, changes: map<string, Value>, page: Page)
    ensures s.ConfigLoaded(changes).timers == s.timers && s.ConfigLoaded(changes).effects == s.effects
    ensures var r := s.StorageChanged(changes, page);
      && r.timers.nextTimer == s.timers.nextTimer
      && r.timers.pendingExpand <= s.timers.pendingExpand
      && r.timers.pendingCollapse <= s.timers.pendingCollapse
      && NoClickAdded(s.effects, r.effects)
  {
  }

  /**
   * The events other than pointer events arm no timer; only the two timers and the toggle command
   * can click; effects are only ever appended.
   */
  lemma StepFrame(s: State, e: Event, page: Page, observe: bool)
    requires Possible(s, e, page)
    ensures var r := StepWith(s, e, page, observe);
      && s.effects <= r.effects
      && (!e.TriggerEnter? && !e.TriggerLeave? && !e.SidebarEnter? && !e.SidebarLeave? ==>
            && r.timers.nextTimer == s.timers.nextTimer
            && r.timers.pendingExpand <= s.timers.pendingExpand
            && r.timers.pendingCollapse <= s.timers.pendingCollapse)
      && (!e.ExpandTimer? && !e.CollapseTimer? && !e.Message? ==> NoClickAdded(s.effects, r.effects))
  {
    match e
    case Loaded(stored) => ConfigFrame(s, stored, page);
    case StorageChange(changes) => ConfigFrame(s, changes, page);
    case DeferredRuns(k) => RunDeferredFrame(s, k, page);
    case Mutation => ObserveFrame(s, page);
    case Message(action) => OnMessageFrame(s, action, page);
    case _ =>
  }

  // ---------------------------------------------------------------- timers

  /** Ids of the expand timers a step arms. */
  function NewExpand(s: State, e: Event, page: Page, observe: bool): set<nat>
    requires Possible(s, e, page)
  {
    StepWith(s, e, page, observe).timers.pendingExpand - s.timers.pendingExpand
  }

  /**
   * An expand timer is armed exactly when the pointer enters the trigger zone while the sidebar
   * reads collapsed and a button is known; it is then the fresh id held by `hoverTimer`.
   */
  lemma OnlyTriggerEntryArmsExpand(s: State, e: Event, page: Page, observe: bool)
    requires s.Valid() && Possible(s, e, page)
    ensures NewExpand(s, e, page, observe) != {} <==>
      e.TriggerEnter? && !Oracle.ExpandedOn(page) && s.refs.sidebarButton.Some?
    ensures NewExpand(s, e, page, observe) != {} ==>
      && NewExpand(s, e, page, observe) == {s.timers.nextTimer}
      && StepWith(s, e, page, observe).timers.hoverTimer == Some(s.timers.nextTimer)
  {
    StepFrame(s, e, page, observe);
    var r := StepWith(s, e, page, observe);
    if e.TriggerEnter? && !Oracle.ExpandedOn(page) && s.refs.sidebarButton.Some? {
      assert s.timers.nextTimer in r.timers.pendingExpand - s.timers.pendingExpand;
    }
  }

  /** Ids of the collapse timers a step arms. */
  function NewCollapse(s: State, e: Event, page: Page, observe: bool): set<nat>
    requires Possible(s, e, page)
  {
    StepWith(s, e, page, observe).timers.pendingCollapse - s.timers.pendingCollapse
  }

  /**
   * A collapse timer is armed exactly when the pointer leaves the trigger zone or the sidebar and
   * is then in neither, while the sidebar reads expanded and a button is known.
   */
  lemma CollapseArmedOnlyOutsideBothAreas(s: State, e: Event, page: Page, observe: bool)
    requires s.Valid() && Possible(s, e, page)
    ensures NewCollapse(s, e, page, observe) != {} <==>
      && ((e.TriggerLeave? && !s.pointer.isInSidebar) || (e.SidebarLeave? && !s.pointer.isInTriggerZone))
      && Oracle.ExpandedOn(page)
      && s.refs.sidebarButton.Some?
    ensures NewCollapse(s, e, page, observe) != {} ==>
      && NewCollapse(s, e, page, observe) == {s.timers.nextTimer}
      && StepWith(s, e, page, observe).timers.collapseTimer == Some(s.timers.nextTimer)
  {
    StepFrame(s, e, page, observe);
    var r := StepWith(s, e, page, observe);
    if (e.TriggerLeave? || e.SidebarLeave?) && r.timers.pendingCollapse != s.timers.pendingCollapse {
      assert s.timers.nextTimer in r.timers.pendingCollapse - s.timers.pendingCollapse;
    }
    if ((e.TriggerLeave? && !s.pointer.isInSidebar) || (e.SidebarLeave? && !s.pointer.isInTriggerZone))
      && Oracle.ExpandedOn(page) && s.refs.sidebarButton.Some?
    {
      assert s.timers.nextTimer in r.timers.pendingCollapse - s.timers.pendingCollapse;
    }
  }

  /** Entering the trigger zone or the sidebar clears the collapse timer the script holds. */
  lemma EntryCancelsCollapse(s: State, e: Event, page: Page, observe: bool)
    requires s.Valid() && Possible(s, e, page) && (e.TriggerEnter? || e.SidebarEnter?)
    ensures StepWith(s, e, page, observe).timers.collapseTimer.None?
    ensures s.timers.collapseTimer.Some? ==>
      s.timers.collapseTimer.value !in StepWith(s, e, page, observe).timers.pendingCollapse
  {
  }

  /**
   * Leaving the trigger zone or the sidebar clears the expand timer the script holds. An expand
   * timer armed earlier and overwritten in `hoverTimer` stays pending.
   */
  lemma LeavingCancelsExpand(s: State, e: Event, page: Page, observe: bool)
    requires s.Valid() && Possible(s, e, page) && (e.TriggerLeave? || e.SidebarLeave?)
    ensures StepWith(s, e, page, observe).timers.hoverTimer.None?
    ensures StepWith(s, e, page, observe).timers.pendingExpand
         == if s.timers.hoverTimer.Some? then s.timers.pendingExpand - {s.timers.hoverTimer.value} else s.timers.pendingExpand
  {
  }

  // ---------------------------------------------------------------- clicks

  /** The effects a step adds. */
  function NewEffects(s: State, e: Event, page: Page, observe: bool): seq<Effect>
    requires Possible(s, e, page)
  {
    var r := StepWith(s, e, page, observe);
    if |s.effects| <= |r.effects| then r.effects[|s.effects|..] else []
  }

  /**
   * The expand timer clicks the button exactly when the pointer is in the trigger zone, the
   * sidebar reads collapsed and a button is known, and queues the listener check; either way it
   * leaves `hoverTimer` and everything else as it was.
   */
  lemma ExpandTimerClick(s: State, t: nat, page: Page, observe: bool)
    requires Possible(s, ExpandTimer(t), page)
    ensures s.pointer.isInTriggerZone && !Oracle.ExpandedOn(page) && s.refs.sidebarButton.Some? ==>
      && NewEffects(s, ExpandTimer(t), page, observe) == [Click(s.refs.sidebarButton.value)]
      && StepWith(s, ExpandTimer(t), page, observe).deferred == s.deferred + [AttachIfExpanded]
      && StepWith(s, ExpandTimer(t), page, observe)
         == s.(timers := s.timers.(pendingExpand := s.timers.pendingExpand - {t}),
               effects := s.effects + [Click(s.refs.sidebarButton.value)],
               deferred := s.deferred + [AttachIfExpanded])
    ensures !(s.pointer.isInTriggerZone && !Oracle.ExpandedOn(page) && s.refs.sidebarButton.Some?) ==>
      StepWith(s, ExpandTimer(t), page, observe) == s.(timers := s.timers.(pendingExpand := s.timers.pendingExpand - {t}))
  {
    var r := StepWith(s, ExpandTimer(t), page, observe);
    assert s.effects <= r.effects;
  }

  /**
   * The collapse timer clicks exactly when the pointer is in neither area, the sidebar reads
   * expanded and a button is known. It then resets `collapseTimer`, as it also does when nothing
   * is clicked; only a click on a missing button, which throws, leaves the handle in place.
   */
  lemma CollapseTimerClick(s: State, t: nat, page: Page, observe: bool)
    requires Possible(s, CollapseTimer(t), page)
    ensures !s.pointer.isInTriggerZone && !s.pointer.isInSidebar && Oracle.ExpandedOn(page) && s.refs.sidebarButton.Some? ==>
      && NewEffects(s, CollapseTimer(t), page, observe) == [Click(s.refs.sidebarButton.value)]
      && StepWith(s, CollapseTimer(t), page, observe).deferred == s.deferred + [DetachListeners]
      && StepWith(s, CollapseTimer(t), page, observe)
         == s.(timers := s.timers.(pendingCollapse := s.timers.pendingCollapse - {t}, collapseTimer := None),
               effects := s.effects + [Click(s.refs.sidebarButton.value)],
               deferred := s.deferred + [DetachListeners])
    ensures !s.pointer.isInTriggerZone && !s.pointer.isInSidebar && Oracle.ExpandedOn(page) && s.refs.sidebarButton.None? ==>
      StepWith(s, CollapseTimer(t), page, observe) == s.(timers := s.timers.(pendingCollapse := s.timers.pendingCollapse - {t}))
    ensures !(!s.pointer.isInTriggerZone && !s.pointer.isInSidebar && Oracle.ExpandedOn(page)) ==>
      StepWith(s, CollapseTimer(t), page, observe)
        == s.(timers := s.timers.(pendingCollapse := s.timers.pendingCollapse - {t}, collapseTimer := None))
  {
    var r := StepWith(s, CollapseTimer(t), page, observe);
    assert s.effects <= r.effects;
  }

  /** Only a timer or the toggle command clicks; the other events add no click. */
  lemma ClicksOnlyFromTimersAndToggle(s: State, e: Event, page: Page, observe: bool)
    requires Possible(s, e, page)
    requires !e.ExpandTimer? && !e.CollapseTimer? && !e.Message?
    ensures forall k :: 0 <= k < |NewEffects(s, e, page, observe)| ==> !NewEffects(s, e, page, observe)[k].Click?
  {
    StepFrame(s, e, page, observe);
    var r := StepWith(s, e, page, observe);
    forall k | 0 <= k < |NewEffects(s, e, page, observe)|
      ensures !NewEffects(s, e, page, observe)[k].Click?
    {
      assert NewEffects(s, e, page, observe)[k] == r.effects[|s.effects| + k];
    }
  }

  // ---------------------------------------------------------------- the toggle command

  /** While disabled, every message is ignored and no reply is sent. */
  lemma ToggleIgnoredWhileDisabled(s: State, action: string, page: Page)
    requires !Enabled(s.config)
    ensures s.OnMessage(action, page) == (s, None)
  {
  }

  /**
   * A reply is sent exactly for `toggle-sidebar` while enabled with a button known or found; it
   * reports success and the state read before the click, and the click goes to that button.
   */
  lemma ToggleReply(s: State, action: string, page: Page)
    ensures s.OnMessage(action, page).1.Some? <==>
      && action == TOGGLE_ACTION
      && Enabled(s.config)
      && (s.refs.sidebarButton.Some? || Locator.Locate(page, s.Handles()).button.Some?)
    ensures s.OnMessage(action, page).1.Some? ==>
      && s.OnMessage(action, page).1 == Some(Response(true, Oracle.ExpandedOn(page)))
      && var b := if s.refs.sidebarButton.Some? then s.refs.sidebarButton else Locator.Locate(page, s.Handles()).button;
         s.OnMessage(action, page).0.effects == s.effects + [Click(b.value)]
    ensures s.OnMessage(action, page).1.None? ==> s.OnMessage(action, page).0.effects == s.effects
  {
  }

  // ---------------------------------------------------------------- cleanup and the disabled script

  /**
   * cleanup() drops every handle and flag, the listeners and the zone the document holds, and
   * clears the two timers it holds; configuration, queued callbacks and the mutation observers are
   * untouched.
   */
  lemma CleanupResets(s: State, page: Page)
    requires s.Valid()
    ensures var c := s.Cleanup(page);
      && c.Valid()
      && c.refs == Refs(None, None, None)
      && c.pointer == Pointer(false, false, None) && !c.zonePresent
      && c.timers.hoverTimer.None? && c.timers.collapseTimer.None?
      && (s.timers.hoverTimer.Some? ==> s.timers.hoverTimer.value !in c.timers.pendingExpand)
      && (s.timers.collapseTimer.Some? ==> s.timers.collapseTimer.value !in c.timers.pendingCollapse)
      && c.timers.pendingExpand <= s.timers.pendingExpand && c.timers.pendingCollapse <= s.timers.pendingCollapse
      && c.config == s.config && c.deferred == s.deferred && c.observers == s.observers
      && c.effects == if page.zoneAttached then s.effects + [RemoveZone] else s.effects
  {
  }

  /**
   * A disabled script at rest: no zone, no sidebar listeners, the pointer in neither area, no
   * collapse timer pending, and nothing queued but search retries and listener removals, which
   * can bring back neither the zone nor the listeners.
   */
  predicate Dormant(s: State)
  {
    && !Enabled(s.config)
    && !s.zonePresent
    && s.timers.pendingCollapse == {}
    && s.pointer.sidebarHoverListeners.None?
    && !s.pointer.isInTriggerZone
    && !s.pointer.isInSidebar
    && forall k :: 0 <= k < |s.deferred| ==> s.deferred[k].Relocate? || s.deferred[k].DetachListeners?
  }

  /**
   * Disabling leaves the script dormant when its queued callbacks cannot bring the zone back and
   * the only pending collapse timer, if any, is the one it holds (and so clears).
   */
  lemma DisablingGoesDormant(s: State, changes: map<string, Value>, page: Page)
    requires "enabled" in changes && !Truthy(changes["enabled"])
    requires forall k :: 0 <= k < |s.deferred| ==> s.deferred[k].Relocate? || s.deferred[k].DetachListeners?
    requires forall t :: t in s.timers.pendingCollapse ==> s.timers.collapseTimer == Some(t)
    ensures Dormant(s.StorageChanged(changes, page))
  {
    assert Lookup(Merge(s.config, changes), "enabled") == changes["enabled"];
  }

  /**
   * With the corrected observer, a dormant script stays dormant until its configuration changes:
   * no event arms a timer, brings back the zone or does anything to the page.
   */
  lemma DormantStaysDormant(s: State, e: Event, page: Page)
    requires Dormant(s) && Possible(s, e, page) && !e.Loaded? && !e.StorageChange?
    ensures Dormant(Step(s, e, page))
    ensures Step(s, e, page).effects == s.effects
    ensures Step(s, e, page).timers.nextTimer == s.timers.nextTimer
    ensures Step(s, e, page).timers.pendingExpand <= s.timers.pendingExpand
  {
    var r := Step(s, e, page);
    match e
    case DeferredRuns(k) =>
      var rest := s.deferred[..k] + s.deferred[k + 1..];
      assert forall j :: 0 <= j < |rest| ==> rest[j].Relocate? || rest[j].DetachListeners? by {
        forall j | 0 <= j < |rest|
          ensures rest[j].Relocate? || rest[j].DetachListeners?
        {
          if j < k {
            assert rest[j] == s.deferred[j];
          } else {
            assert rest[j] == s.deferred[j + 1];
          }
        }
      }
      var s' := s.(deferred := rest);
      if s.deferred[k].Relocate? {
        var f := s'.FindElements(page);
        assert f.deferred == rest || f.deferred == rest + [Relocate];
      }
    case _ =>
  }

  /**
   * A page with no sidebar candidate whose only fixed left navigation is collapsed (48 px wide)
   * and has no button of its own; the script's zone is not in the document.
   */
  function NarrowNavPage(): Page
  {
    var nav := Element(7, None, Rect(0.0, 0.0, 48.0, 800.0), Style("block", "visible", 1.0), "", 0,
                       false, false, "", "", false, None);
    Page(Viewport(1280.0, 800.0), [], None, [nav], None, [], 0, {0, 7}, false)
  }

  /** The same page once the script's zone is in the document. */
  function ZonePage(): Page
  {
    NarrowNavPage().(zoneAttached := true)
  }

  /** On that page the search finds no sidebar and takes the navigation as button and trigger. */
  lemma NarrowNavPageFacts(prior: Locator.Located)
    requires prior.sidebar.None? && prior.button.None?
    ensures Locator.Locate(NarrowNavPage(), prior) == Locator.Located(None, Some(7), Some(7))
    ensures !Oracle.ExpandedOn(NarrowNavPage()) && !Oracle.ExpandedOn(ZonePage())
  {
    var page := NarrowNavPage();
    assert Locator.LikelyIn(page.sidebarCandidates, page.viewport) == [];
    assert Oracle.Measurable(page.fixedNavs[0]);
    Wrappers.FirstIndexUnique(page.fixedNavs, Oracle.Measurable, 0);
  }

  /** The script loaded with the defaults, set up once on the narrow page, then disabled. */
  function DisabledAfterSetup(): State
  {
    INITIAL.ConfigLoaded(map[]).RunDeferred(0, NarrowNavPage()).StorageChanged(map["enabled" := Bool(false)], ZonePage())
  }

  lemma DisabledAfterSetupFacts()
    ensures var d := DisabledAfterSetup();
      && !Enabled(d.config) && d.observers == 1 && !d.zonePresent
      && d.refs == Refs(None, None, None) && d.pointer == Pointer(false, false, None)
      && d.effects == [InsertZone, RemoveZone]
      && Possible(d, Mutation, NarrowNavPage())
  {
    var page := NarrowNavPage();
    var started := INITIAL.ConfigLoaded(map[]);
    assert Enabled(Merge(DEFAULT_CONFIG, Merge(DEFAULT_CONFIG, map[])));
    assert started.deferred == [Deferred.Setup, SetupIfMissing];
    NarrowNavPageFacts(started.Handles());
    var setUp := started.RunDeferred(0, page);
    assert setUp.observers == 1;
    var d := setUp.StorageChanged(map["enabled" := Bool(false)], ZonePage());
    assert Lookup(d.config, "enabled") == Bool(false);
  }

  /**
   * As written, the disabled script revives: after set-up and disabling, the next mutation (which
   * cleanup's own removal of the zone causes) makes the observer find the button and recreate the
   * zone, and hovering the zone arms an expand timer although `enabled` is false.
   */
  lemma DisabledScriptRearmsAsWritten()
    ensures var d := DisabledAfterSetup();
      var observed := StepAsWritten(d, Mutation, NarrowNavPage());
      && !Enabled(observed.config)
      && observed.zonePresent && observed.refs.sidebarButton == Some(7)
      && observed.effects == d.effects + [InsertZone]
      && Possible(observed, TriggerEnter, ZonePage())
      && NewExpand(observed, TriggerEnter, ZonePage(), true) == {observed.timers.nextTimer}
  {
    var page := NarrowNavPage();
    var d := DisabledAfterSetup();
    DisabledAfterSetupFacts();
    NarrowNavPageFacts(d.Handles());
    var observed := d.Observe(page);
    assert observed.zonePresent && observed.refs.sidebarButton == Some(7);
    assert StepAsWritten(d, Mutation, page) == observed;
    OnlyTriggerEntryArmsExpand(observed, TriggerEnter, ZonePage(), true);
  }

  /** With the corrected observer, the same mutation leaves the disabled script untouched. */
  lemma DisabledScriptStaysInertCorrected()
    ensures var d := DisabledAfterSetup();
      && Step(d, Mutation, NarrowNavPage()) == d
      && !Possible(d, TriggerEnter, ZonePage())
  {
    DisabledAfterSetupFacts();
  }
}

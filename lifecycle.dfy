/** The window-lifecycle handlers of WaitForEvent (src/event.c:405-474,
    519-594, 906-1028): configure-request negotiation, expose, property
    changes, colormap changes, map and unmap requests and destruction.
    Each is a step from the node the handler found (or none) to the node as
    the handler leaves it and the calls it makes, in order. */
module Lifecycle {
  import opened Bits
  import opened XProto
  import opened Options
  import opened Clients
  import opened Context
  import opened Effects

  // ---------------------------------------------------------------------
  // HandleConfigureRequest

  /** The handler treats the request as one for a managed window only when
      the node was found by its content handle. */
  predicate ManagedTarget(found: Option<Client>, w: XID)
  {
    found.Some? && found.value.window == w
  }

  /** Some field the request's value mask selects differs from the node. */
  predicate Changes(c: Client, ev: XEvent)
    requires ev.ConfigureRequest?
  {
    (Bit(ev.valueMask, CW_WIDTH_BIT) && ev.width != c.width) ||
    (Bit(ev.valueMask, CW_HEIGHT_BIT) && ev.height != c.height) ||
    (Bit(ev.valueMask, CW_X_BIT) && ev.x != c.x) ||
    (Bit(ev.valueMask, CW_Y_BIT) && ev.y != c.y)
  }

  /** The node with the selected fields of the request copied in. */
  function Requested(c: Client, ev: XEvent): Client
    requires ev.ConfigureRequest?
  {
    c.(x := if Bit(ev.valueMask, CW_X_BIT) then ev.x else c.x,
       y := if Bit(ev.valueMask, CW_Y_BIT) then ev.y else c.y,
       width := if Bit(ev.valueMask, CW_WIDTH_BIT) then ev.width else c.width,
       height := if Bit(ev.valueMask, CW_HEIGHT_BIT) then ev.height else c.height)
  }

  /** A request changes the node exactly when copying it in gives another node. */
  lemma ChangesIffRequestedDiffers(c: Client, ev: XEvent)
    requires ev.ConfigureRequest?
    ensures Changes(c, ev) <==> Requested(c, ev) != c
  {
    if Requested(c, ev) == c {
      assert Requested(c, ev).width == c.width && Requested(c, ev).height == c.height;
      assert Requested(c, ev).x == c.x && Requested(c, ev).y == c.y;
    }
  }

  /** The node after a changing request: the requested node with the size
      ConstrainSize leaves in it. */
  function Constrained(c: Client, ev: XEvent, cfg: Config): Client
    requires ev.ConfigureRequest?
  {
    var u := Requested(c, ev);
    var s := cfg.constrainSize(u);
    u.(width := s.width, height := s.height)
  }

  /** The two XConfigureWindow calls of a changing request: the frame at the
      node's position with the border added to the size, the content at
      (west, north) inside it, both stacked above the frame, no border. */
  function FrameAndContent(c: Client, n: Client, b: Insets, mask: nat): seq<Effect>
  {
    [ConfigureWindow(c.parent, mask, n.x, n.y, n.width + b.east + b.west,
                     n.height + b.north + b.south, 0, c.parent, ABOVE),
     ConfigureWindow(c.window, mask, b.west, b.north, n.width, n.height, 0, c.parent, ABOVE)]
  }

  /** The request for a window that is not a managed content window, passed
      through with its width and height capped at the root window's. */
  function PassThrough(ev: XEvent, cfg: Config): (e: Effect)
    requires ev.ConfigureRequest?
    ensures e.ConfigureWindow? && e.target == ev.window && e.mask == ev.valueMask
    ensures e.x == ev.x && e.y == ev.y
    ensures e.width <= cfg.rootWidth && (ev.width <= cfg.rootWidth ==> e.width == ev.width)
    ensures e.height <= cfg.rootHeight && (ev.height <= cfg.rootHeight ==> e.height == ev.height)
    ensures e.width == ev.width || e.width == cfg.rootWidth
    ensures e.height == ev.height || e.height == cfg.rootHeight
    ensures e.borderWidth == ev.borderWidth && e.sibling == ev.above && e.stackMode == ev.detail
  {
    ConfigureWindow(ev.window, ev.valueMask, ev.x, ev.y,
                    Min(ev.width, cfg.rootWidth), Min(ev.height, cfg.rootHeight),
                    ev.borderWidth, ev.above, ev.detail)
  }

  /** HandleConfigureRequest. For a managed content window the controller
      is cancelled first; a request that changes nothing stops there; a
      changing one updates the geometry in place, constrains the size and
      configures frame and content. Any other window gets the request
      passed through. */
  function ConfigureRequestStep(found: Option<Client>, ev: XEvent, cfg: Config): (r: Step)
    requires ev.ConfigureRequest?
    ensures r.node.Some? <==> found.Some?
    ensures !ManagedTarget(found, ev.window) ==>
              r.node == found && r.effects == [PassThrough(ev, cfg)]
    ensures ManagedTarget(found, ev.window) ==>
              var c := found.value;
              var n := r.node.value;
              n == c.(x := n.x, y := n.y, width := n.width, height := n.height) &&
              |r.effects| >= |Controller(c, 0)| &&
              r.effects[..|Controller(c, 0)|] == Controller(c, 0) &&
              (CallController(c.window, 0) in r.effects <==> c.controller)
    ensures ManagedTarget(found, ev.window) && !Changes(found.value, ev) ==>
              r == Step(found, Controller(found.value, 0))
    ensures ManagedTarget(found, ev.window) && Changes(found.value, ev) ==>
              var c := found.value;
              var u := Requested(c, ev);
              var n := r.node.value;
              n.x == u.x && n.y == u.y &&
              n.width == cfg.constrainSize(u).width && n.height == cfg.constrainSize(u).height &&
              r.effects == Controller(c, 0) + FrameAndContent(c, n, cfg.borderSize(u), ev.valueMask)
  {
    if ManagedTarget(found, ev.window) then
      var c := found.value;
      if !Changes(c, ev) then
        Step(found, Controller(c, 0))
      else
        var n := Constrained(c, ev, cfg);
        Step(Some(n), Controller(c, 0) + FrameAndContent(c, n, cfg.borderSize(Requested(c, ev)), ev.valueMask))
    else
      Step(found, [PassThrough(ev, cfg)])
  }

  /** Sending the same request for a managed content window a second time
      changes nothing more, and only cancels the controller again, exactly
      when the first did not change the window or ConstrainSize kept every
      selected dimension as requested. */
  lemma ConfigureRepeat(c: Client, ev: XEvent, cfg: Config)
    requires ev.ConfigureRequest? && c.window == ev.window
    ensures var n := ConfigureRequestStep(Some(c), ev, cfg).node.value;
            var s := cfg.constrainSize(Requested(c, ev));
            ConfigureRequestStep(Some(n), ev, cfg) == Step(Some(n), Controller(n, 0)) <==>
              !Changes(c, ev) ||
              ((Bit(ev.valueMask, CW_WIDTH_BIT) ==> s.width == ev.width) &&
               (Bit(ev.valueMask, CW_HEIGHT_BIT) ==> s.height == ev.height))
  {
    if Changes(c, ev) {
      var n := Constrained(c, ev, cfg);
      assert ConfigureRequestStep(Some(c), ev, cfg).node.value == n;
      if Changes(n, ev) {
        assert |ConfigureRequestStep(Some(n), ev, cfg).effects| >= 2;
      }
    }
  }

  // ---------------------------------------------------------------------
  // HandleExpose

  /** Whether HandleExpose handled the event: an exposure of a frame always
      is (after the border is redrawn), one of a dialog's content window is
      left for the dialog, any other managed window's is; for a window that
      is not managed the result is `count != 0`, so the last exposure of a
      series falls through to the other subsystems. */
  function ExposeHandled(found: Option<Client>, ev: XEvent): (handled: bool)
    requires ev.Expose?
    ensures found.None? ==> (handled <==> ev.count != 0)
    ensures found.Some? && ev.window == found.value.parent ==> handled
    ensures found.Some? && ev.window != found.value.parent ==>
              (!handled <==> ev.window == found.value.window && Has(found.value.status, STAT_WMDIALOG))
  {
    match found
    case None => ev.count != 0
    case Some(c) =>
      if ev.window == c.parent then true
      else !(ev.window == c.window && Has(c.status, STAT_WMDIALOG))
  }

  // ---------------------------------------------------------------------
  // HandlePropertyNotify

  /** What a changed property is, in the order the handler tests it: the
      predefined atoms of the switch first, then the interned atoms. */
  datatype PropertyKind =
    | NameProperty | NormalHintsProperty | IgnoredProperty
    | ColormapsProperty | IconProperty | NetNameProperty | StrutProperty
    | OtherProperty

  function ClassifyProperty(a: Atoms, atom: XID): (k: PropertyKind)
    ensures atom == XA_WM_NAME <==> k == NameProperty
    ensures atom == XA_WM_NORMAL_HINTS <==> k == NormalHintsProperty
    ensures k == IgnoredProperty <==>
              atom in {XA_WM_HINTS, XA_WM_ICON_NAME, XA_WM_CLIENT_MACHINE}
    ensures k == ColormapsProperty <==> atom !in PredefinedAtoms() && atom == a.wmColormapWindows
    ensures k == IconProperty <==>
              atom !in PredefinedAtoms() && atom != a.wmColormapWindows && atom == a.netWmIcon
    ensures k == NetNameProperty <==>
              atom !in PredefinedAtoms() && atom != a.wmColormapWindows && atom != a.netWmIcon &&
              atom == a.netWmName
    ensures k == StrutProperty <==>
              atom !in PredefinedAtoms() && atom != a.wmColormapWindows && atom != a.netWmIcon &&
              atom != a.netWmName && (atom == a.netWmStrutPartial || atom == a.netWmStrut)
    ensures k == OtherProperty <==>
              atom !in PredefinedAtoms() &&
              atom !in {a.wmColormapWindows, a.netWmIcon, a.netWmName, a.netWmStrutPartial, a.netWmStrut}
  {
    if atom == XA_WM_NAME then NameProperty
    else if atom == XA_WM_NORMAL_HINTS then NormalHintsProperty
    else if atom == XA_WM_HINTS || atom == XA_WM_ICON_NAME || atom == XA_WM_CLIENT_MACHINE then IgnoredProperty
    else if atom == a.wmColormapWindows then ColormapsProperty
    else if atom == a.netWmIcon then IconProperty
    else if atom == a.netWmName then NetNameProperty
    else if atom == a.netWmStrutPartial then StrutProperty
    else if atom == a.netWmStrut then StrutProperty
    else OtherProperty
  }

  /** The atoms the switch of HandlePropertyNotify names as cases. */
  function PredefinedAtoms(): set<XID>
  {
    {XA_WM_NAME, XA_WM_NORMAL_HINTS, XA_WM_HINTS, XA_WM_ICON_NAME, XA_WM_CLIENT_MACHINE}
  }

  /** Whether the property shows in the window's border or taskbar entry. */
  predicate Shown(k: PropertyKind)
  {
    k in {NameProperty, NormalHintsProperty, IconProperty, NetNameProperty}
  }

  /** The re-read a property change triggers. */
  function Reread(k: PropertyKind, w: XID): seq<Effect>
  {
    match k
    case NameProperty => [ReadWMName(w)]
    case NormalHintsProperty => [ReadWMNormalHints(w)]
    case IgnoredProperty => []
    case ColormapsProperty => [ReadWMColormaps(w), UpdateClientColormap(w)]
    case IconProperty => [LoadIcon(w)]
    case NetNameProperty => [ReadWMName(w)]
    case StrutProperty => [ReadClientStrut(w)]
    case OtherProperty => []
  }

  /** The calls HandlePropertyNotify makes for a managed window: the
      re-read, then, when the property is shown, a border redraw and a
      taskbar and pager refresh. Other windows' properties are ignored. */
  function PropertyEffects(found: Option<Client>, ev: XEvent, a: Atoms): (r: seq<Effect>)
    requires ev.PropertyNotify?
    ensures found.None? ==> r == []
    ensures found.Some? && ClassifyProperty(a, ev.atom) in {IgnoredProperty, OtherProperty} ==> r == []
  {
    match found
    case None => []
    case Some(c) =>
      var k := ClassifyProperty(a, ev.atom);
      Reread(k, c.window) + (if Shown(k) then [DrawBorder(c.window), UpdateTaskBar, UpdatePager] else [])
  }

  /** For a managed window, the border is redrawn and the taskbar and pager
      refreshed exactly when the property is shown, and after the re-read;
      each re-read happens exactly for its properties: the name for the two
      name properties, the size hints, the icon, the colormaps (followed by
      the colormap update) and the strut for the two strut properties. */
  lemma PropertyCalls(c: Client, ev: XEvent, a: Atoms)
    requires ev.PropertyNotify?
    ensures var r, k := PropertyEffects(Some(c), ev, a), ClassifyProperty(a, ev.atom);
            (DrawBorder(c.window) in r <==> Shown(k)) &&
            (UpdateTaskBar in r <==> Shown(k)) && (UpdatePager in r <==> Shown(k)) &&
            (Shown(k) ==> |r| == 4 && r[1..] == [DrawBorder(c.window), UpdateTaskBar, UpdatePager]) &&
            (ReadWMName(c.window) in r <==> k in {NameProperty, NetNameProperty}) &&
            (ReadWMNormalHints(c.window) in r <==> k == NormalHintsProperty) &&
            (LoadIcon(c.window) in r <==> k == IconProperty) &&
            (ReadWMColormaps(c.window) in r <==> k == ColormapsProperty) &&
            (k == ColormapsProperty ==> r == [ReadWMColormaps(c.window), UpdateClientColormap(c.window)]) &&
            (ReadClientStrut(c.window) in r <==> k == StrutProperty)
  {
  }

  /** Whether HandlePropertyNotify handled the event: a dialog's property
      change is left for the dialog, every other one is handled. */
  function PropertyHandled(found: Option<Client>): (handled: bool)
    ensures !handled <==> found.Some? && Has(found.value.status, STAT_WMDIALOG)
  {
    !(found.Some? && Has(found.value.status, STAT_WMDIALOG))
  }

  // ---------------------------------------------------------------------
  // HandleColormapChange

  /** A new colormap of a managed window is recorded in the node and
      installed; an uninstalled one, or one of another window, is ignored. */
  function ColormapStep(found: Option<Client>, ev: XEvent): (r: Step)
    requires ev.ColormapNotify?
    ensures r.node.Some? <==> found.Some?
    ensures found.Some? && ev.isNew ==>
              r == Step(Some(found.value.(cmap := ev.colormap)), [UpdateClientColormap(found.value.window)])
    ensures !(found.Some? && ev.isNew) ==> r == Step(found, [])
  {
    if ev.isNew && found.Some? then
      Step(Some(found.value.(cmap := ev.colormap)), [UpdateClientColormap(found.value.window)])
    else
      Step(found, [])
  }

  /** The same colormap notification a second time leaves the client as the
      first left it, and only the colormap field ever changes. */
  lemma ColormapRepeat(found: Option<Client>, ev: XEvent)
    requires ev.ColormapNotify?
    ensures var n := ColormapStep(found, ev).node;
            ColormapStep(n, ev).node == n &&
            (found.Some? ==> n.value == found.value.(cmap := n.value.cmap))
  {
  }

  // ---------------------------------------------------------------------
  // HandleMapRequest

  const MAP_CLEARED: bv32 := STAT_MINIMIZED | STAT_SDESKTOP

  /** The status of a window that is mapped again: mapped, neither
      minimized nor shown on all desktops, every other flag kept. */
  function MappedStatus(s: bv32): (r: bv32)
    ensures Has(r, STAT_MAPPED) && !Has(r, STAT_MINIMIZED) && !Has(r, STAT_SDESKTOP)
    ensures r & !(STAT_MAPPED | MAP_CLEARED) == s & !(STAT_MAPPED | MAP_CLEARED)
  {
    ClearFlag(ClearFlag(SetFlag(s, STAT_MAPPED), STAT_MINIMIZED), STAT_SDESKTOP)
  }

  /** HandleMapRequest. The swallow subsystem is asked first and, when it
      takes the window, nothing else happens. A window that is not managed
      is handed to AddClientWindow (and mapped as it is when that declines);
      a managed window that is not mapped is mapped, raised and listed
      again. Every request that is not swallowed ends with a restack.
      `swallowed` and `added` are what CheckSwallowMap and AddClientWindow
      answer. */
  function MapRequestStep(found: Option<Client>, ev: XEvent, cfg: Config,
                          swallowed: bool, added: bool): (r: Step)
    requires ev.MapRequest?
    ensures r.node.Some? <==> found.Some?
  {
    if swallowed then
      Step(found, [CheckSwallowMap(ev.window)])
    else
      var s := MapUnswallowed(found, ev.window, cfg, added);
      Step(s.node, [CheckSwallowMap(ev.window)] + s.effects)
  }

  /** What a request that is not swallowed does after CheckSwallowMap. */
  function MapUnswallowed(found: Option<Client>, w: XID, cfg: Config, added: bool): Step
  {
    match found
    case None =>
      Step(None, [AddClientWindow(w)] + (if added then FocusOnClick(cfg, w) else [MapWindow(w)]) + [RestackClients])
    case Some(c) =>
      if Has(c.status, STAT_MAPPED) then
        Step(found, [RestackClients])
      else
        Step(Some(c.(status := MappedStatus(c.status))),
             [MapWindow(c.window), MapWindow(c.parent), RaiseClient(c.window)] +
             FocusOnClick(cfg, c.window) + [UpdateTaskBar, UpdatePager] + [RestackClients])
  }

  /** The swallow subsystem is always asked first; a swallowed window is
      left alone; every other request ends with a restack; a mapped managed
      window only gets the restack, and an unmapped one is marked mapped. */
  lemma MapRequestShape(found: Option<Client>, ev: XEvent, cfg: Config, swallowed: bool, added: bool)
    requires ev.MapRequest?
    ensures var r := MapRequestStep(found, ev, cfg, swallowed, added);
            |r.effects| >= 1 && r.effects[0] == CheckSwallowMap(ev.window) &&
            (swallowed ==> r == Step(found, [CheckSwallowMap(ev.window)])) &&
            (!swallowed ==> r.effects[|r.effects| - 1] == RestackClients) &&
            (found.Some? && (swallowed || Has(found.value.status, STAT_MAPPED)) ==> r.node == found) &&
            (!swallowed && found.Some? && Has(found.value.status, STAT_MAPPED) ==>
               r.effects == [CheckSwallowMap(ev.window), RestackClients]) &&
            (!swallowed && found.Some? && !Has(found.value.status, STAT_MAPPED) ==>
               r.node == Some(found.value.(status := MappedStatus(found.value.status))))
  {
  }

  /** The calls a request that is not swallowed makes: a new window is
      handed to AddClientWindow and mapped as it is only when that declines;
      a managed window that is not mapped has its content and frame mapped,
      is raised and has its taskbar entry refreshed. */
  lemma MapRequestCalls(found: Option<Client>, ev: XEvent, cfg: Config, swallowed: bool, added: bool)
    requires ev.MapRequest? && !swallowed
    ensures var r := MapRequestStep(found, ev, cfg, swallowed, added);
            found.None? ==>
              AddClientWindow(ev.window) in r.effects &&
              (MapWindow(ev.window) in r.effects <==> !added) &&
              (FocusClient(ev.window) in r.effects <==> added && cfg.focusModel == FocusClick)
    ensures var r := MapRequestStep(found, ev, cfg, swallowed, added);
            found.Some? && !Has(found.value.status, STAT_MAPPED) ==>
              var c := found.value;
              MapWindow(c.window) in r.effects && MapWindow(c.parent) in r.effects &&
              RaiseClient(c.window) in r.effects && UpdateTaskBar in r.effects
  {
  }

  // ---------------------------------------------------------------------
  // HandleDestroyNotify

  /** HandleDestroyNotify: a managed content window has its controller told
      that the window is gone and is removed; for a window that is not
      managed the dock is told. A frame's destruction is ignored. */
  function DestroyStep(found: Option<Client>, ev: XEvent): (r: Step)
    requires ev.DestroyNotify?
    ensures r.node == found
    ensures ManagedTarget(found, ev.window) ==>
              r.effects == Controller(found.value, 1) + [RemoveClient(ev.window)]
    ensures found.None? ==> r.effects == [HandleDockDestroy(ev.window)]
    ensures found.Some? && !ManagedTarget(found, ev.window) ==> r.effects == []
    ensures forall e :: e in r.effects && e.RemoveClient? ==> ManagedTarget(found, ev.window)
  {
    match found
    case None => Step(None, [HandleDockDestroy(ev.window)])
    case Some(c) =>
      if c.window == ev.window then Step(found, Controller(c, 1) + [RemoveClient(c.window)])
      else Step(found, [])
  }

  /** What HandleDestroyNotify returns; `dock` is HandleDockDestroy's answer. */
  function DestroyHandled(found: Option<Client>, ev: XEvent, dock: bool): (handled: bool)
    requires ev.DestroyNotify?
    ensures ManagedTarget(found, ev.window) ==> handled
    ensures found.None? ==> handled == dock
    ensures found.Some? && !ManagedTarget(found, ev.window) ==> !handled
  {
    match found
    case None => dock
    case Some(c) => c.window == ev.window
  }

  /** A destroy notification is handled exactly when it removes a client or
      the dock took it; it removes a client exactly when it is handled for a
      managed window, and only that client. */
  lemma DestroyHandledRemoves(found: Option<Client>, ev: XEvent, dock: bool)
    requires ev.DestroyNotify?
    ensures var r := DestroyStep(found, ev);
            DestroyHandled(found, ev, dock) <==>
              RemoveClient(ev.window) in r.effects || (found.None? && dock)
    ensures var r := DestroyStep(found, ev);
            found.Some? ==> (RemoveClient(ev.window) in r.effects <==> DestroyHandled(found, ev, dock))
    ensures forall e :: e in DestroyStep(found, ev).effects && e.RemoveClient? ==> e == RemoveClient(ev.window)
  {
  }

  // ---------------------------------------------------------------------
  // HandleUnmapNotify

  /** HandleUnmapNotify. For a managed content window, a DestroyNotify for
      it already queued (`destroyQueued`) turns the unmap into that
      destruction. Otherwise the controller is told the window is gone and
      a mapped window loses STAT_MAPPED, its frame is unmapped and its
      state written. A window that is not managed is reported to the dock
      as destroyed; an unmap of a frame is ignored. */
  function UnmapStep(found: Option<Client>, ev: XEvent, destroyQueued: bool): (r: Step)
    requires ev.UnmapNotify?
    ensures r.node.Some? <==> found.Some?
  {
    match found
    case None => Step(None, [HandleDockDestroy(ev.window)])
    case Some(c) =>
      if c.window != ev.window then Step(found, [])
      else if destroyQueued then DestroyStep(found, DestroyNotify(ev.window))
      else if Has(c.status, STAT_MAPPED) then
        Step(Some(c.(status := ClearFlag(c.status, STAT_MAPPED))),
             Controller(c, 1) + [UnmapWindow(c.parent), WriteState(c.window), UpdateTaskBar, UpdatePager])
      else
        Step(found, Controller(c, 1))
  }

  /** With a DestroyNotify queued the unmap is handled as that destroy.
      Otherwise the controller is told first; a mapped window loses
      STAT_MAPPED, has its frame unmapped, its state written and taskbar and
      pager refreshed, and afterwards the window is never marked mapped. An
      unmanaged window goes to the dock, and the unmap of a frame changes
      nothing. */
  lemma UnmapShape(found: Option<Client>, ev: XEvent, destroyQueued: bool)
    requires ev.UnmapNotify?
    ensures var r := UnmapStep(found, ev, destroyQueued);
            (ManagedTarget(found, ev.window) && destroyQueued ==>
               r == DestroyStep(found, DestroyNotify(ev.window))) &&
            (ManagedTarget(found, ev.window) && !destroyQueued ==>
               var c := found.value;
               |r.effects| >= |Controller(c, 1)| && r.effects[..|Controller(c, 1)|] == Controller(c, 1) &&
               (Has(c.status, STAT_MAPPED) ==>
                  r.node == Some(c.(status := ClearFlag(c.status, STAT_MAPPED))) &&
                  r.effects[|Controller(c, 1)|..] == [UnmapWindow(c.parent), WriteState(c.window), UpdateTaskBar, UpdatePager]) &&
               (!Has(c.status, STAT_MAPPED) ==> r == Step(found, Controller(c, 1))) &&
               !Has(r.node.value.status, STAT_MAPPED)) &&
            (found.None? ==> r == Step(None, [HandleDockDestroy(ev.window)])) &&
            (found.Some? && !ManagedTarget(found, ev.window) ==> r == Step(found, []))
  {
  }

  /** A mapped window that is unmapped loses STAT_MAPPED, and when it is
      then asked to be mapped again it is mapped, neither minimized nor on
      all desktops, and keeps every other flag and its geometry. */
  lemma UnmapThenMap(c: Client, cfg: Config, added: bool)
    requires Has(c.status, STAT_MAPPED)
    ensures UnmapStep(Some(c), UnmapNotify(c.window), false).node ==
            Some(c.(status := ClearFlag(c.status, STAT_MAPPED)))
    ensures MapRequestStep(Some(c.(status := ClearFlag(c.status, STAT_MAPPED))), MapRequest(c.window),
                           cfg, false, added).node ==
            Some(c.(status := MappedStatus(c.status)))
  {
    var d := c.(status := ClearFlag(c.status, STAT_MAPPED));
    assert !Has(d.status, STAT_MAPPED);
    assert MapUnswallowed(Some(d), c.window, cfg, added).node == Some(d.(status := MappedStatus(d.status)));
    RemapStatus(c.status);
  }

  /** Mapping a window again does not depend on whether it was marked
      mapped before. */
  lemma RemapStatus(s: bv32)
    ensures MappedStatus(ClearFlag(s, STAT_MAPPED)) == MappedStatus(s)
  {
    SetAfterClear(s, STAT_MAPPED);
    assert SetFlag(ClearFlag(s, STAT_MAPPED), STAT_MAPPED) == SetFlag(s, STAT_MAPPED);
  }
}

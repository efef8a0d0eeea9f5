/** The client-message protocol of HandleClientMessage, HandleNetMoveResize
    and HandleNetWMState (src/event.c:598-861): decoding of the message type
    against the interned atoms, and what each recognised message does. */
module Protocol {
  import opened Bits
  import opened XProto
  import opened Options
  import opened Clients
  import opened Context
  import opened Effects

  // ---------------------------------------------------------------------
  // Message types

  /** The messages recognised for a managed window. */
  datatype ClientMessageKind =
    | WinStateMsg | WinLayerMsg | ChangeStateMsg | ActiveWindowMsg
    | DesktopMsg | CloseWindowMsg | MoveResizeMsg | WmStateMsg
    | UnknownClientMsg

  /** The atoms HandleClientMessage compares a managed window's message
      type against, in the order of its comparisons. */
  function ClientTable(a: Atoms): seq<XID>
  {
    [a.winState, a.winLayer, a.wmChangeState, a.netActiveWindow,
     a.netWmDesktop, a.netCloseWindow, a.netMoveResizeWindow, a.netWmState]
  }

  function ClientKindIndex(k: ClientMessageKind): nat
  {
    match k
    case WinStateMsg => 0
    case WinLayerMsg => 1
    case ChangeStateMsg => 2
    case ActiveWindowMsg => 3
    case DesktopMsg => 4
    case CloseWindowMsg => 5
    case MoveResizeMsg => 6
    case WmStateMsg => 7
    case UnknownClientMsg => 8
  }

  /** The message a managed window received: the first atom of the table
      that equals the type, or unknown when none does. */
  function ClassifyClientMessage(a: Atoms, t: XID): (k: ClientMessageKind)
    ensures k == UnknownClientMsg <==> t !in ClientTable(a)
    ensures k != UnknownClientMsg ==>
              ClientKindIndex(k) < |ClientTable(a)| && ClientTable(a)[ClientKindIndex(k)] == t &&
              forall j :: 0 <= j < ClientKindIndex(k) ==> ClientTable(a)[j] != t
  {
    if t == a.winState then WinStateMsg
    else if t == a.winLayer then WinLayerMsg
    else if t == a.wmChangeState then ChangeStateMsg
    else if t == a.netActiveWindow then ActiveWindowMsg
    else if t == a.netWmDesktop then DesktopMsg
    else if t == a.netCloseWindow then CloseWindowMsg
    else if t == a.netMoveResizeWindow then MoveResizeMsg
    else if t == a.netWmState then WmStateMsg
    else UnknownClientMsg
  }

  /** The messages recognised when addressed to the root window. */
  datatype RootMessageKind = RestartMsg | ExitMsg | CurrentDesktopMsg | UnknownRootMsg

  function RootTable(a: Atoms): seq<XID>
  {
    [a.jwmRestart, a.jwmExit, a.netCurrentDesktop]
  }

  function RootKindIndex(k: RootMessageKind): nat
  {
    match k
    case RestartMsg => 0
    case ExitMsg => 1
    case CurrentDesktopMsg => 2
    case UnknownRootMsg => 3
  }

  /** The message the root window received, decoded like ClassifyClientMessage. */
  function ClassifyRootMessage(a: Atoms, t: XID): (k: RootMessageKind)
    ensures k == UnknownRootMsg <==> t !in RootTable(a)
    ensures k != UnknownRootMsg ==>
              RootKindIndex(k) < |RootTable(a)| && RootTable(a)[RootKindIndex(k)] == t &&
              forall j :: 0 <= j < RootKindIndex(k) ==> RootTable(a)[j] != t
  {
    if t == a.jwmRestart then RestartMsg
    else if t == a.jwmExit then ExitMsg
    else if t == a.netCurrentDesktop then CurrentDesktopMsg
    else UnknownRootMsg
  }

  // ---------------------------------------------------------------------
  // Legacy GNOME hints

  /** The status after the hidden bit is applied: STAT_NOLIST follows it
      when the mask selects it, and no other flag moves. */
  function HiddenStatus(status: bv32, setHidden: bool, hidden: bool): (r: bv32)
    ensures r & !STAT_NOLIST == status & !STAT_NOLIST
    ensures Has(r, STAT_NOLIST) <==> if setHidden then hidden else Has(status, STAT_NOLIST)
  {
    if !setHidden then status
    else if hidden then SetFlag(status, STAT_NOLIST)
    else ClearFlag(status, STAT_NOLIST)
  }

  /** The calls of _WIN_STATE: the sticky setting when the mask selects it,
      then the taskbar and pager refresh when the mask selects the hidden bit. */
  function WinStateEffects(w: XID, setSticky: bool, sticky: bool, setHidden: bool): (r: seq<Effect>)
    ensures |r| <= 3
    ensures !setSticky && !setHidden ==> r == []
  {
    (if setSticky then [SetClientSticky(w, sticky)] else []) +
    (if setHidden then [UpdateTaskBar, UpdatePager] else [])
  }

  /** _WIN_STATE: data[0] is the mask of bits to change, data[1] their new
      values. The sticky bit goes through SetClientSticky; the hidden bit
      sets or clears STAT_NOLIST in place and refreshes taskbar and pager. */
  function WinStateStep(c: Client, mask: Long, flags: Long): (r: Step)
    ensures r.node.Some? && r.node.value == c.(status := r.node.value.status)
    ensures r.node.value.status & !STAT_NOLIST == c.status & !STAT_NOLIST
    ensures Has(r.node.value.status, STAT_NOLIST) <==>
              if Bit(mask, WIN_STATE_HIDDEN_BIT) then Bit(flags, WIN_STATE_HIDDEN_BIT)
              else Has(c.status, STAT_NOLIST)
  {
    var setHidden, hidden := Bit(mask, WIN_STATE_HIDDEN_BIT), Bit(flags, WIN_STATE_HIDDEN_BIT);
    Step(Some(c.(status := HiddenStatus(c.status, setHidden, hidden))),
         WinStateEffects(c.window, Bit(mask, WIN_STATE_STICKY_BIT), Bit(flags, WIN_STATE_STICKY_BIT), setHidden))
  }

  /** The sticky setting is made, with the requested value and never its
      opposite, exactly when the mask selects the sticky bit; the taskbar and
      pager are refreshed exactly when it selects the hidden bit. */
  lemma WinStateCalls(c: Client, mask: Long, flags: Long)
    ensures var r, sticky := WinStateStep(c, mask, flags).effects, Bit(flags, WIN_STATE_STICKY_BIT);
            (SetClientSticky(c.window, sticky) in r <==> Bit(mask, WIN_STATE_STICKY_BIT)) &&
            SetClientSticky(c.window, !sticky) !in r &&
            (UpdateTaskBar in r <==> Bit(mask, WIN_STATE_HIDDEN_BIT)) &&
            (UpdatePager in r <==> Bit(mask, WIN_STATE_HIDDEN_BIT))
  {
  }

  // ---------------------------------------------------------------------
  // ICCCM section 4.1.4: WM_CHANGE_STATE

  /** The action a WM_CHANGE_STATE request asks for, after the controller
      has been cancelled: withdraw, iconify or restore; any other state
      value asks for nothing. */
  function ChangeStateEffects(w: XID, state: Long): (r: seq<Effect>)
    ensures |r| <= 1
    ensures state == WITHDRAWN_STATE <==> r == [SetClientWithdrawn(w)]
    ensures state == ICONIC_STATE <==> r == [MinimizeClient(w)]
    ensures state == NORMAL_STATE <==> r == [RestoreClient(w, true)]
  {
    if state == WITHDRAWN_STATE then [SetClientWithdrawn(w)]
    else if state == ICONIC_STATE then [MinimizeClient(w)]
    else if state == NORMAL_STATE then [RestoreClient(w, true)]
    else []
  }

  // ---------------------------------------------------------------------
  // EWMH _NET_WM_DESKTOP

  /** _NET_WM_DESKTOP: the value ~0 (all bits set, -1 as a long) makes the
      window sticky and nothing else; any other value cancels the
      controller, and only a desktop in range clears STAT_STICKY and moves
      the window there. Out-of-range desktops are ignored, not clamped. */
  function NetWmDesktopStep(c: Client, d: Long, desktopCount: nat): (r: Step)
    ensures r.node.Some?
    ensures d == -1 ==> r == Step(Some(c), [SetClientSticky(c.window, true)])
    ensures d != -1 ==> (CallController(c.window, 0) in r.effects <==> c.controller)
    ensures SetClientDesktop(c.window, d) in r.effects <==> d != -1 && 0 <= d < desktopCount
    ensures forall e :: e in r.effects ==> e.SetClientDesktop? ==> e == SetClientDesktop(c.window, d)
    ensures d != -1 && 0 <= d < desktopCount ==>
              r.node.value == c.(status := ClearFlag(c.status, STAT_STICKY)) &&
              !Has(r.node.value.status, STAT_STICKY)
    ensures !(d != -1 && 0 <= d < desktopCount) ==> r.node.value == c
  {
    if d == -1 then
      Step(Some(c), [SetClientSticky(c.window, true)])
    else if 0 <= d < desktopCount then
      Step(Some(c.(status := ClearFlag(c.status, STAT_STICKY))),
           Controller(c, 0) + [SetClientDesktop(c.window, d)])
    else
      Step(Some(c), Controller(c, 0))
  }

  // ---------------------------------------------------------------------
  // EWMH _NET_MOVERESIZE_WINDOW

  datatype Geometry = Geometry(x: int, y: int, width: int, height: int)

  function GeometryOf(c: Client): Geometry
  {
    Geometry(c.x, c.y, c.width, c.height)
  }

  /** The geometry a _NET_MOVERESIZE_WINDOW message asks for. With
      `flags = data[0] >> 8`, flag bits 0..3 (bits 8..11 of data[0]) select
      x, y, width and height from data[1..4]; an unselected field keeps its
      current value. */
  function MoveResizeRequest(data: MessageData, cur: Geometry): (g: Geometry)
    ensures g.x == if Bit(data[0], 8) then data[1] else cur.x
    ensures g.y == if Bit(data[0], 9) then data[2] else cur.y
    ensures g.width == if Bit(data[0], 10) then data[3] else cur.width
    ensures g.height == if Bit(data[0], 11) then data[4] else cur.height
  {
    var flags := ShiftRight8(data[0]);
    BitOfShift(data[0], 0);
    BitOfShift(data[0], 1);
    BitOfShift(data[0], 2);
    BitOfShift(data[0], 3);
    Geometry(if Bit(flags, 0) then data[1] else cur.x,
             if Bit(flags, 1) then data[2] else cur.y,
             if Bit(flags, 2) then data[3] else cur.width,
             if Bit(flags, 3) then data[4] else cur.height)
  }

  /** HandleNetMoveResize: the requested position is shifted back by the
      gravity delta of the node as it was, the size is taken as requested
      (ConstrainSize is not applied), and each value is stored in an `int`
      field. The frame goes to the position less the west/north border with
      the border added to the size; the content sits at (west, north)
      inside it. The low byte of data[0] (the gravity) plays no part. */
  function NetMoveResizeStep(c: Client, data: MessageData, cfg: Config): (r: Step)
    ensures r.node.Some?
  {
    var g := MoveResizeRequest(data, GeometryOf(c));
    var b := cfg.borderSize(c);
    var d := cfg.gravityDelta(c);
    var n := c.(x := Wrap32(g.x - d.dx), y := Wrap32(g.y - d.dy),
                width := Wrap32(g.width), height := Wrap32(g.height));
    Step(Some(n),
         [MoveResizeWindow(c.parent, n.x - b.west, n.y - b.north,
                           n.width + b.east + b.west, n.height + b.north + b.south),
          MoveResizeWindow(c.window, b.west, b.north, n.width, n.height),
          WriteState(c.window), SendConfigureEvent(c.window)])
  }

  /** Only the geometry of the node changes. Each stored value is the
      requested one modulo 2^32, and exactly the requested one when it fits
      in an `int`; the position is the requested one less the gravity
      delta. The frame and the content are moved and resized around the
      border, then the state is written and a configure event sent. */
  lemma NetMoveResizeShape(c: Client, data: MessageData, cfg: Config)
    ensures var r := NetMoveResizeStep(c, data, cfg);
            r.node.Some? &&
            var n := r.node.value;
            var g := MoveResizeRequest(data, GeometryOf(c));
            var d := cfg.gravityDelta(c);
            var b := cfg.borderSize(c);
            n == c.(x := n.x, y := n.y, width := n.width, height := n.height) &&
            (g.x - d.dx - n.x) % TWO_32 == 0 && (g.y - d.dy - n.y) % TWO_32 == 0 &&
            (g.width - n.width) % TWO_32 == 0 && (g.height - n.height) % TWO_32 == 0 &&
            (-TWO_31 <= g.x - d.dx < TWO_31 ==> n.x == g.x - d.dx) &&
            (-TWO_31 <= g.y - d.dy < TWO_31 ==> n.y == g.y - d.dy) &&
            (-TWO_31 <= g.width < TWO_31 ==> n.width == g.width) &&
            (-TWO_31 <= g.height < TWO_31 ==> n.height == g.height) &&
            r.effects == [MoveResizeWindow(c.parent, n.x - b.west, n.y - b.north,
                                           n.width + b.east + b.west, n.height + b.north + b.south),
                          MoveResizeWindow(c.window, b.west, b.north, n.width, n.height),
                          WriteState(c.window), SendConfigureEvent(c.window)]
  {
  }

  /** _NET_MOVERESIZE_WINDOW only moves and resizes the frame and the
      content, writes the state and sends a configure event. */
  lemma MoveResizeCalls(c: Client, data: MessageData, cfg: Config)
    ensures forall e :: e in NetMoveResizeStep(c, data, cfg).effects ==>
              e.MoveResizeWindow? || e == WriteState(c.window) || e == SendConfigureEvent(c.window)
  {
  }

  /** The low byte of data[0], the requested gravity, plays no part: two
      messages that differ only there move and resize the window alike. */
  lemma MoveResizeIgnoresGravity(c: Client, data: MessageData, other: MessageData, cfg: Config)
    requires ShiftRight8(data[0]) == ShiftRight8(other[0])
    requires forall k :: 1 <= k < 5 ==> data[k] == other[k]
    ensures NetMoveResizeStep(c, data, cfg) == NetMoveResizeStep(c, other, cfg)
  {
    assert data[1] == other[1] && data[2] == other[2] && data[3] == other[3] && data[4] == other[4];
    assert MoveResizeRequest(data, GeometryOf(c)) == MoveResizeRequest(other, GeometryOf(c));
  }

  // ---------------------------------------------------------------------
  // EWMH _NET_WM_STATE

  /** The state a property atom of data[1] or data[2] names. */
  datatype StateAtom = StickyState | MaximizeState | ShadeState | OtherState

  /** The else-if chain of HandleNetWMState for one payload value: sticky,
      then either maximize direction, then shaded. */
  function StateAtomOf(v: Long, a: Atoms): (s: StateAtom)
    ensures s == StickyState <==> v == a.netWmStateSticky
    ensures s == MaximizeState <==>
              v != a.netWmStateSticky &&
              (v == a.netWmStateMaximizedVert || v == a.netWmStateMaximizedHorz)
    ensures s == ShadeState <==>
              v != a.netWmStateSticky && v != a.netWmStateMaximizedVert &&
              v != a.netWmStateMaximizedHorz && v == a.netWmStateShaded
  {
    if v == a.netWmStateSticky then StickyState
    else if v == a.netWmStateMaximizedVert then MaximizeState
    else if v == a.netWmStateMaximizedHorz then MaximizeState
    else if v == a.netWmStateShaded then ShadeState
    else OtherState
  }

  /** The actions selected by the two property fields. */
  datatype StateSelection = StateSelection(stick: bool, maximize: bool, shade: bool)

  function SelectedStates(data: MessageData, a: Atoms): StateSelection
  {
    StateSelection(
      StateAtomOf(data[1], a) == StickyState || StateAtomOf(data[2], a) == StickyState,
      StateAtomOf(data[1], a) == MaximizeState || StateAtomOf(data[2], a) == MaximizeState,
      StateAtomOf(data[1], a) == ShadeState || StateAtomOf(data[2], a) == ShadeState)
  }

  /** The `for(x = 1; x <= 2; x++)` loop of HandleNetWMState that turns the
      two property fields into action flags. */
  method ScanStateAtoms(data: MessageData, a: Atoms) returns (r: StateSelection)
    ensures r == SelectedStates(data, a)
  {
    var stick, maximize, shade := false, false, false;
    for x := 1 to 3
      invariant stick <==> (x > 1 && StateAtomOf(data[1], a) == StickyState) ||
                           (x > 2 && StateAtomOf(data[2], a) == StickyState)
      invariant maximize <==> (x > 1 && StateAtomOf(data[1], a) == MaximizeState) ||
                              (x > 2 && StateAtomOf(data[2], a) == MaximizeState)
      invariant shade <==> (x > 1 && StateAtomOf(data[1], a) == ShadeState) ||
                           (x > 2 && StateAtomOf(data[2], a) == ShadeState)
    {
      if data[x] == a.netWmStateSticky {
        stick := true;
      } else if data[x] == a.netWmStateMaximizedVert {
        maximize := true;
      } else if data[x] == a.netWmStateMaximizedHorz {
        maximize := true;
      } else if data[x] == a.netWmStateShaded {
        shade := true;
      }
    }
    r := StateSelection(stick, maximize, shade);
  }

  /** Action 0 (remove): unstick, unmaximize a maximized window, unshade. */
  function StatesRemoved(c: Client, sel: StateSelection): seq<Effect>
  {
    (if sel.stick then [SetClientSticky(c.window, false)] else []) +
    (if sel.maximize && Has(c.status, STAT_MAXIMIZED) then [MaximizeClient(c.window)] else []) +
    (if sel.shade then [UnshadeClient(c.window)] else [])
  }

  /** Action 1 (add): stick, maximize a window that is not maximized, shade. */
  function StatesAdded(c: Client, sel: StateSelection): seq<Effect>
  {
    (if sel.stick then [SetClientSticky(c.window, true)] else []) +
    (if sel.maximize && !Has(c.status, STAT_MAXIMIZED) then [MaximizeClient(c.window)] else []) +
    (if sel.shade then [ShadeClient(c.window)] else [])
  }

  /** Action 2 (toggle): invert sticky and shaded, toggle maximized. */
  function StatesToggled(c: Client, sel: StateSelection): seq<Effect>
  {
    (if sel.stick then [SetClientSticky(c.window, !Has(c.status, STAT_STICKY))] else []) +
    (if sel.maximize then [MaximizeClient(c.window)] else []) +
    (if sel.shade then (if Has(c.status, STAT_SHADED) then [UnshadeClient(c.window)] else [ShadeClient(c.window)])
     else [])
  }

  /** The remove (0) / add (1) / toggle (2) rules of _NET_WM_STATE.
      Maximize is a toggle in the collaborator, so remove calls it only on
      a maximized window, add only on one that is not, toggle always. Any
      other action code does nothing. */
  function NetWmStateEffects(c: Client, action: Long, sel: StateSelection): (r: seq<Effect>)
    ensures |r| <= 3
    ensures action !in {0, 1, 2} ==> r == []
  {
    if action == 0 then StatesRemoved(c, sel)
    else if action == 1 then StatesAdded(c, sel)
    else if action == 2 then StatesToggled(c, sel)
    else []
  }

  /** A call of HandleNetWMState: sticky, maximize or shade on window w. */
  predicate StateCallOn(w: XID, e: Effect)
  {
    (e.SetClientSticky? && e.client == w) || e == MaximizeClient(w) ||
    e == ShadeClient(w) || e == UnshadeClient(w)
  }

  /** Only the sticky, maximize and shade calls on the message's window are
      made. */
  lemma NetWmStateTargets(c: Client, action: Long, sel: StateSelection)
    ensures forall e :: e in NetWmStateEffects(c, action, sel) ==> StateCallOn(c.window, e)
  {
    var r := NetWmStateEffects(c, action, sel);
    if action == 0 {
      assert r == StatesRemoved(c, sel);
    } else if action == 1 {
      assert r == StatesAdded(c, sel);
    } else if action == 2 {
      assert r == StatesToggled(c, sel);
    }
  }

  /** Remove never sticks or shades. */
  lemma NetWmRemoveCalls(c: Client, sel: StateSelection)
    ensures var r := NetWmStateEffects(c, 0, sel);
            (SetClientSticky(c.window, false) in r <==> sel.stick) &&
            SetClientSticky(c.window, true) !in r &&
            (MaximizeClient(c.window) in r <==> sel.maximize && Has(c.status, STAT_MAXIMIZED)) &&
            (UnshadeClient(c.window) in r <==> sel.shade) && ShadeClient(c.window) !in r
  {
  }

  /** Add never unsticks or unshades. */
  lemma NetWmAddCalls(c: Client, sel: StateSelection)
    ensures var r := NetWmStateEffects(c, 1, sel);
            (SetClientSticky(c.window, true) in r <==> sel.stick) &&
            SetClientSticky(c.window, false) !in r &&
            (MaximizeClient(c.window) in r <==> sel.maximize && !Has(c.status, STAT_MAXIMIZED)) &&
            (ShadeClient(c.window) in r <==> sel.shade) && UnshadeClient(c.window) !in r
  {
  }

  /** Toggle inverts the current sticky and shaded values. */
  lemma NetWmToggleCalls(c: Client, sel: StateSelection)
    ensures var r := NetWmStateEffects(c, 2, sel);
            (SetClientSticky(c.window, !Has(c.status, STAT_STICKY)) in r <==> sel.stick) &&
            SetClientSticky(c.window, Has(c.status, STAT_STICKY)) !in r &&
            (MaximizeClient(c.window) in r <==> sel.maximize) &&
            (ShadeClient(c.window) in r <==> sel.shade && !Has(c.status, STAT_SHADED)) &&
            (UnshadeClient(c.window) in r <==> sel.shade && Has(c.status, STAT_SHADED))
  {
  }

  /** For a message that selects maximize, exactly one of remove and add
      calls MaximizeClient (itself a toggle), so whichever the window's
      current state, one of the two leaves it as the other asks. */
  lemma NetWmMaximizeComplement(c: Client, sel: StateSelection)
    requires sel.maximize
    ensures (MaximizeClient(c.window) in NetWmStateEffects(c, 0, sel)) !=
            (MaximizeClient(c.window) in NetWmStateEffects(c, 1, sel))
  {
    NetWmRemoveCalls(c, sel);
    NetWmAddCalls(c, sel);
  }

  // ---------------------------------------------------------------------
  // HandleClientMessage

  /** The effects of a message addressed to the root window. */
  function RootMessageEffects(a: Atoms, t: XID, data: MessageData): (r: seq<Effect>)
    ensures ClassifyRootMessage(a, t) == UnknownRootMsg <==> r == []
    ensures |r| <= 1
  {
    match ClassifyRootMessage(a, t)
    case RestartMsg => [Restart]
    case ExitMsg => [Exit]
    case CurrentDesktopMsg => [ChangeDesktop(data[0])]
    case UnknownRootMsg => []
  }

  /** Each root command is carried out exactly when the type names it. */
  lemma RootMessageCalls(a: Atoms, t: XID, data: MessageData)
    ensures var r := RootMessageEffects(a, t, data);
            (Restart in r <==> ClassifyRootMessage(a, t) == RestartMsg) &&
            (Exit in r <==> ClassifyRootMessage(a, t) == ExitMsg) &&
            (ChangeDesktop(data[0]) in r <==> ClassifyRootMessage(a, t) == CurrentDesktopMsg)
  {
  }

  /** What a managed window's message of kind k does. */
  function MessageStep(c: Client, k: ClientMessageKind, data: MessageData, cfg: Config): (r: Step)
  {
    match k
    case WinStateMsg => WinStateStep(c, data[0], data[1])
    case WinLayerMsg => Step(Some(c), [SetClientLayer(c.window, data[0])])
    case ChangeStateMsg => Step(Some(c), Controller(c, 0) + ChangeStateEffects(c.window, data[0]))
    case ActiveWindowMsg => Step(Some(c), [RestoreClient(c.window, true), FocusClient(c.window)])
    case DesktopMsg => NetWmDesktopStep(c, data[0], cfg.desktopCount)
    case CloseWindowMsg => Step(Some(c), [DeleteClient(c.window)])
    case MoveResizeMsg => NetMoveResizeStep(c, data, cfg)
    case WmStateMsg => Step(Some(c), NetWmStateEffects(c, data[0], SelectedStates(data, cfg.atoms)))
    case UnknownClientMsg => Step(Some(c), [])
  }

  /** The effects of one message to a managed window, decoded by type. */
  function ManagedMessageStep(c: Client, t: XID, data: MessageData, cfg: Config): (r: Step)
    ensures r.node.Some? && r.node.value.window == c.window && r.node.value.parent == c.parent
    ensures ClassifyClientMessage(cfg.atoms, t) == UnknownClientMsg ==> r == Step(Some(c), [])
  {
    MessageStep(c, ClassifyClientMessage(cfg.atoms, t), data, cfg)
  }

  /** Whatever its kind, a message to a managed window cannot restart or
      stop the window manager, switch the desktop or reach the dock. */
  lemma ManagedMessageNoSession(c: Client, k: ClientMessageKind, data: MessageData, cfg: Config)
    ensures forall e :: e in MessageStep(c, k, data, cfg).effects ==> !SessionCommand(e)
  {
    if k == WinStateMsg || k == DesktopMsg {
      StateMessageNoSession(c, k, data, cfg);
    } else if k == WmStateMsg {
      NetWmStateTargets(c, data[0], SelectedStates(data, cfg.atoms));
    } else if k == MoveResizeMsg {
      MoveResizeCalls(c, data, cfg);
    }
  }

  /** The same for the legacy state hint and the desktop message. */
  lemma StateMessageNoSession(c: Client, k: ClientMessageKind, data: MessageData, cfg: Config)
    requires k == WinStateMsg || k == DesktopMsg
    ensures forall e :: e in MessageStep(c, k, data, cfg).effects ==> !SessionCommand(e)
  {
    if k == DesktopMsg {
      assert MessageStep(c, k, data, cfg) == NetWmDesktopStep(c, data[0], cfg.desktopCount);
    }
  }

  /** HandleClientMessage: a message for a managed window (found by content
      or frame handle) is decoded against the window table; otherwise one
      for the root window against the root table; otherwise only the
      system-tray opcode is acted on, by handing it to the dock. */
  function ClientMessageStep(found: Option<Client>, ev: XEvent, cfg: Config): (r: Step)
    requires ev.ClientMessage?
    ensures r.node.Some? <==> found.Some?
    ensures found.Some? ==> r == ManagedMessageStep(found.value, ev.messageType, ev.data, cfg)
    ensures found.None? && ev.window == cfg.rootWindow ==>
              r.effects == RootMessageEffects(cfg.atoms, ev.messageType, ev.data)
  {
    if found.Some? then
      ManagedMessageStep(found.value, ev.messageType, ev.data, cfg)
    else if ev.window == cfg.rootWindow then
      Step(None, RootMessageEffects(cfg.atoms, ev.messageType, ev.data))
    else if ev.messageType == cfg.atoms.netSystemTrayOpcode then
      Step(None, [HandleDockEvent(ev.window)])
    else
      Step(None, [])
  }

  /** Session and desktop-switch commands are obeyed only from the root
      window, and the dock is handed only the system-tray opcode of an
      unmanaged non-root window. */
  lemma ClientMessageCalls(found: Option<Client>, ev: XEvent, cfg: Config)
    requires ev.ClientMessage?
    ensures var r := ClientMessageStep(found, ev, cfg);
            ((Restart in r.effects || Exit in r.effects || ChangeDesktop(ev.data[0]) in r.effects) ==>
               found.None? && ev.window == cfg.rootWindow) &&
            (HandleDockEvent(ev.window) in r.effects <==>
               found.None? && ev.window != cfg.rootWindow && ev.messageType == cfg.atoms.netSystemTrayOpcode)
  {
    if found.Some? {
      ManagedMessageNoSession(found.value, ClassifyClientMessage(cfg.atoms, ev.messageType), ev.data, cfg);
    }
  }
}

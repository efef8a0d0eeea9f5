/** The input handlers of ProcessEvent (src/event.c:251-400, 478-515,
    865-887, 1032-1099): the double-click/drag disambiguator of the frame's
    move zone, the border zones of button 1, the other buttons, key
    bindings, and the cursor bookkeeping of crossing and motion events. */
module Border {
  import opened Bits
  import opened XProto
  import opened Options
  import opened Clients
  import opened Context
  import opened Effects

  // Border actions (BorderActionType). Their numeric values live in border.h,
  // which is not part of this model; the low four bits select the zone and the
  // resize directions sit above them.
  const BA_NONE: int := 0
  const BA_RESIZE: int := 1
  const BA_MOVE: int := 2
  const BA_CLOSE: int := 3
  const BA_MAXIMIZE: int := 4
  const BA_MINIMIZE: int := 5
  const BA_MENU: int := 6

  /** `action & 0x0F`. */
  function Zone(action: int): (z: int)
    ensures 0 <= z < 16
    ensures (action - z) % 16 == 0
  {
    action % 16
  }

  // ---------------------------------------------------------------------
  // The double-click record

  /** The static state of DispatchBorderButtonEvent: one pending click,
      shared by every window. */
  datatype ClickRecord = ClickRecord(time: Time, x: Int32, y: Int32, active: bool)

  const NO_CLICK: ClickRecord := ClickRecord(0, 0, 0, false)

  /** `abs(event->time - lastClickTime)`: the unsigned difference of two
      timestamps converted to a 32-bit `int`, then made non-negative. */
  function ClickInterval(t: Time, last: Time): (d: nat)
    ensures d <= TWO_31
    ensures t == last ==> d == 0
    ensures -TWO_31 <= t - last < TWO_31 ==> d == Abs(t - last)
  {
    Abs(Wrap32(t - last))
  }

  /** The press completes a double click: one is pending, the time since it
      is positive and within doubleClickSpeed, and the pointer moved at most
      doubleClickDelta in each direction. */
  predicate IsDoubleClick(rec: ClickRecord, t: Time, x: Int32, y: Int32, cfg: Config)
  {
    rec.active &&
    0 < ClickInterval(t, rec.time) <= cfg.doubleClickSpeed &&
    Abs(x - rec.x) <= cfg.doubleClickDelta &&
    Abs(y - rec.y) <= cfg.doubleClickDelta
  }

  /** The effects on the click record and the calls of one press on the move
      zone. */
  datatype ClickOutcome = ClickOutcome(effects: seq<Effect>, record: ClickRecord)

  /** A press on the move zone: a double click maximizes the window and
      clears the pending click; otherwise the window is dragged and, when
      MoveClient reports that it did not move (`moved` false), this press
      becomes the pending click. */
  function MovePress(c: Client, ev: XEvent, rec: ClickRecord, cfg: Config, moved: bool): (r: ClickOutcome)
    requires ev.ButtonEvent?
    ensures IsDoubleClick(rec, ev.time, ev.x, ev.y, cfg) ==>
              r == ClickOutcome([MaximizeClient(c.window)], rec.(active := false))
    ensures !IsDoubleClick(rec, ev.time, ev.x, ev.y, cfg) ==>
              r.effects == [MoveClient(c.window, ev.x, ev.y)] &&
              r.record == (if moved then rec.(active := false) else ClickRecord(ev.time, ev.x, ev.y, true))
    ensures MaximizeClient(c.window) in r.effects ==> rec.active && !r.record.active
    ensures r.record.active ==> r.record == ClickRecord(ev.time, ev.x, ev.y, true)
  {
    if IsDoubleClick(rec, ev.time, ev.x, ev.y, cfg) then
      ClickOutcome([MaximizeClient(c.window)], rec.(active := false))
    else if moved then
      ClickOutcome([MoveClient(c.window, ev.x, ev.y)], rec.(active := false))
    else
      ClickOutcome([MoveClient(c.window, ev.x, ev.y)], ClickRecord(ev.time, ev.x, ev.y, true))
  }

  /** A press that does not move the window becomes the pending click; a
      second press close to it in time and place maximizes the window and
      clears the pending click, so a third press drags the window again
      instead of maximizing it once more. */
  lemma DoubleClickSequence(c: Client, ev1: XEvent, ev2: XEvent, ev3: XEvent,
                            rec: ClickRecord, cfg: Config, moved: bool)
    requires ev1.ButtonEvent? && ev2.ButtonEvent? && ev3.ButtonEvent?
    requires !IsDoubleClick(rec, ev1.time, ev1.x, ev1.y, cfg)
    requires 0 < ClickInterval(ev2.time, ev1.time) <= cfg.doubleClickSpeed
    requires Abs(ev2.x - ev1.x) <= cfg.doubleClickDelta && Abs(ev2.y - ev1.y) <= cfg.doubleClickDelta
    ensures var o1 := MovePress(c, ev1, rec, cfg, false);
            var o2 := MovePress(c, ev2, o1.record, cfg, moved);
            var o3 := MovePress(c, ev3, o2.record, cfg, moved);
            o1.effects == [MoveClient(c.window, ev1.x, ev1.y)] && o1.record.active &&
            o2.effects == [MaximizeClient(c.window)] && !o2.record.active &&
            o3.effects == [MoveClient(c.window, ev3.x, ev3.y)]
  {
  }

  /** Where the window menu opens for a press on the menu zone: the pointer
      position less the title bar and, for a window with an outline, the
      border width. */
  function MenuZoneAnchor(c: Client, ev: XEvent, cfg: Config): (p: (int, int))
    requires ev.ButtonEvent?
    ensures var bsize := if Has(c.border, BORDER_OUTLINE) then cfg.borderWidth else 0;
            p.0 + bsize == c.x + ev.x && p.1 + bsize + cfg.titleHeight == c.y + ev.y
  {
    var bsize := if Has(c.border, BORDER_OUTLINE) then cfg.borderWidth else 0;
    (c.x + ev.x - bsize, c.y + ev.y - cfg.titleHeight - bsize)
  }

  /** Where the window menu opens for button 3 on the frame: the pointer
      position, less the border width in both directions for a window with
      an outline, and less the title height for one with a title bar. */
  function Button3Anchor(c: Client, ev: XEvent, cfg: Config): (p: (int, int))
    requires ev.ButtonEvent?
    ensures p.0 == c.x + ev.x - (if Has(c.border, BORDER_OUTLINE) then cfg.borderWidth else 0)
    ensures p.1 == c.y + ev.y - (if Has(c.border, BORDER_OUTLINE) then cfg.borderWidth else 0)
                               - (if Has(c.border, BORDER_TITLE) then cfg.titleHeight else 0)
  {
    var outline := if Has(c.border, BORDER_OUTLINE) then cfg.borderWidth else 0;
    var title := if Has(c.border, BORDER_TITLE) then cfg.titleHeight else 0;
    (ev.x + c.x - outline, ev.y + c.y - outline - title)
  }

  /** For a window with a title bar, the menu zone and button 3 open the
      window menu at the same place; without one, the menu zone still
      takes the title height off the vertical position. */
  lemma MenuAnchorsAgree(c: Client, ev: XEvent, cfg: Config)
    requires ev.ButtonEvent?
    ensures Has(c.border, BORDER_TITLE) ==> MenuZoneAnchor(c, ev, cfg) == Button3Anchor(c, ev, cfg)
    ensures !Has(c.border, BORDER_TITLE) ==>
              MenuZoneAnchor(c, ev, cfg).0 == Button3Anchor(c, ev, cfg).0 &&
              MenuZoneAnchor(c, ev, cfg).1 + cfg.titleHeight == Button3Anchor(c, ev, cfg).1
  {
  }

  /** DispatchBorderButtonEvent: button 1 on the frame acts by the zone under
      the pointer. Resize, move and the menu act on press; close, maximize
      and minimize on release. Only a press on the move zone touches the
      click record. */
  function BorderButton(c: Client, ev: XEvent, rec: ClickRecord, cfg: Config, moved: bool): (r: ClickOutcome)
    requires ev.ButtonEvent?
    ensures var action := cfg.borderActionType(c, ev.x, ev.y);
            var z := Zone(action);
            (z == BA_MOVE && ev.isPress ==> r == MovePress(c, ev, rec, cfg, moved)) &&
            (!(z == BA_MOVE && ev.isPress) ==> r.record == rec) &&
            (z == BA_MOVE && !ev.isPress ==> r.effects == []) &&
            (z == BA_RESIZE ==> r.effects == if ev.isPress then [ResizeClient(c.window, action, ev.x, ev.y)] else []) &&
            (z == BA_MENU ==> r.effects == if ev.isPress then
                                             [ShowWindowMenu(c.window, MenuZoneAnchor(c, ev, cfg).0, MenuZoneAnchor(c, ev, cfg).1)]
                                           else []) &&
            (z == BA_CLOSE ==> r.effects == if ev.isPress then [] else [DeleteClient(c.window)]) &&
            (z == BA_MAXIMIZE ==> r.effects == if ev.isPress then [] else [MaximizeClient(c.window)]) &&
            (z == BA_MINIMIZE ==> r.effects == if ev.isPress then [] else [MinimizeClient(c.window)]) &&
            (z !in {BA_RESIZE, BA_MOVE, BA_MENU, BA_CLOSE, BA_MAXIMIZE, BA_MINIMIZE} ==> r.effects == [])
  {
    var action := cfg.borderActionType(c, ev.x, ev.y);
    var z := Zone(action);
    if z == BA_RESIZE then
      ClickOutcome(if ev.isPress then [ResizeClient(c.window, action, ev.x, ev.y)] else [], rec)
    else if z == BA_MOVE then
      if ev.isPress then MovePress(c, ev, rec, cfg, moved) else ClickOutcome([], rec)
    else if z == BA_MENU then
      var p := MenuZoneAnchor(c, ev, cfg);
      ClickOutcome(if ev.isPress then [ShowWindowMenu(c.window, p.0, p.1)] else [], rec)
    else if z == BA_CLOSE then
      ClickOutcome(if ev.isPress then [] else [DeleteClient(c.window)], rec)
    else if z == BA_MAXIMIZE then
      ClickOutcome(if ev.isPress then [] else [MaximizeClient(c.window)], rec)
    else if z == BA_MINIMIZE then
      ClickOutcome(if ev.isPress then [] else [MinimizeClient(c.window)], rec)
    else
      ClickOutcome([], rec)
  }

  // ---------------------------------------------------------------------
  // HandleButtonEvent

  /** What the collaborators answer during one button event. */
  datatype ButtonReplies = ButtonReplies(moved: bool, rootMenu: bool)

  /** The calls for a button on a frame, after the raise and focus. */
  function FrameButton(c: Client, ev: XEvent, rec: ClickRecord, cfg: Config, moved: bool): ClickOutcome
    requires ev.ButtonEvent?
  {
    if ev.button == BUTTON1 then BorderButton(c, ev, rec, cfg, moved)
    else if ev.button == BUTTON2 then ClickOutcome([MoveClient(c.window, ev.x, ev.y)], rec)
    else if ev.button == BUTTON3 then
      var p := Button3Anchor(c, ev, cfg);
      ClickOutcome([ShowWindowMenu(c.window, p.0, p.1)], rec)
    else if ev.button == BUTTON4 then ClickOutcome([ShadeClient(c.window)], rec)
    else if ev.button == BUTTON5 then ClickOutcome([UnshadeClient(c.window)], rec)
    else ClickOutcome([], rec)
  }

  /** The calls for a button on the root window when no root menu is bound
      to it: the wheel switches desktops. */
  function RootWheel(button: nat): seq<Effect>
  {
    if button == BUTTON4 then [PreviousDesktop]
    else if button == BUTTON5 then [NextDesktop]
    else []
  }

  /** The calls for a button on a content window: buttons 1 to 3 raise and
      focus it, and with Alt held drag it; the click is always replayed to
      the application. */
  function ContentButton(c: Client, ev: XEvent, cfg: Config): seq<Effect>
    requires ev.ButtonEvent?
  {
    (if ev.button in {BUTTON1, BUTTON2, BUTTON3} then
       [RaiseClient(c.window)] + FocusOnClick(cfg, c.window) +
       (if Bit(ev.state, MOD1_BIT) then [MoveClient(c.window, ev.x, ev.y)] else [])
     else []) + [ReplayPointer]
  }

  /** HandleButtonEvent. `frame` is the node found by frame handle,
      `owner` the node found by either handle. A button on a frame raises
      the window, focuses it under click-to-focus and acts by button; a
      press on the root window opens the root menu or, when none is bound,
      switches desktops with the wheel; a button on a content window is
      replayed. The pager is refreshed in every case. */
  function ButtonStep(frame: Option<Client>, owner: Option<Client>, ev: XEvent, rec: ClickRecord,
                      cfg: Config, replies: ButtonReplies): (r: ClickOutcome)
    requires ev.ButtonEvent?
  {
    if frame.Some? then
      var c := frame.value;
      var o := FrameButton(c, ev, rec, cfg, replies.moved);
      ClickOutcome([RaiseClient(c.window)] + FocusOnClick(cfg, c.window) + o.effects + [UpdatePager], o.record)
    else if ev.window == cfg.rootWindow && ev.isPress then
      ClickOutcome([ShowRootMenu(ev.button, ev.x, ev.y)] +
                   (if replies.rootMenu then [] else RootWheel(ev.button)) + [UpdatePager], rec)
    else if owner.Some? then
      ClickOutcome(ContentButton(owner.value, ev, cfg) + [UpdatePager], rec)
    else
      ClickOutcome([UpdatePager], rec)
  }

  /** The pager is refreshed last in every case; the double-click record
      changes only on a button-1 press in the move zone of a frame; a frame
      is raised first, a press on the root window opens the root menu
      first, a click on a content window is replayed, and any other button
      only refreshes the pager. */
  lemma ButtonShape(frame: Option<Client>, owner: Option<Client>, ev: XEvent, rec: ClickRecord,
                    cfg: Config, replies: ButtonReplies)
    requires ev.ButtonEvent?
    ensures var r := ButtonStep(frame, owner, ev, rec, cfg, replies);
            |r.effects| >= 1 && r.effects[|r.effects| - 1] == UpdatePager &&
            (r.record != rec ==> frame.Some? && ev.button == BUTTON1 && ev.isPress &&
                                 Zone(cfg.borderActionType(frame.value, ev.x, ev.y)) == BA_MOVE) &&
            (frame.Some? ==> r.effects[0] == RaiseClient(frame.value.window)) &&
            (frame.None? && ev.window == cfg.rootWindow && ev.isPress ==>
               r.effects[0] == ShowRootMenu(ev.button, ev.x, ev.y)) &&
            (frame.None? && !(ev.window == cfg.rootWindow && ev.isPress) && owner.Some? ==>
               ReplayPointer in r.effects) &&
            (frame.None? && !(ev.window == cfg.rootWindow && ev.isPress) && owner.None? ==>
               r.effects == [UpdatePager])
  {
  }

  // ---------------------------------------------------------------------
  // HandleKeyPress

  // Key actions (KeyType). Their numeric values live in key.h, which is not
  // part of this model: any distinct values below 256 behave the same.
  const KEY_NONE: int := 0
  const KEY_NEXT: int := 7
  const KEY_NEXT_STACKED: int := 8
  const KEY_CLOSE: int := 9
  const KEY_MIN: int := 10
  const KEY_MAX: int := 11
  const KEY_SHADE: int := 12
  const KEY_MOVE: int := 13
  const KEY_RESIZE: int := 14
  const KEY_ROOT: int := 15
  const KEY_WIN: int := 16
  const KEY_DESKTOP: int := 17
  const KEY_EXEC: int := 18
  const KEY_RESTART: int := 19
  const KEY_EXIT: int := 20

  /** The actions HandleKeyPress acts on. */
  function KeyActions(): set<int>
  {
    {KEY_EXEC, KEY_DESKTOP, KEY_NEXT, KEY_NEXT_STACKED, KEY_CLOSE, KEY_SHADE, KEY_MOVE,
     KEY_RESIZE, KEY_MIN, KEY_MAX, KEY_ROOT, KEY_WIN, KEY_RESTART, KEY_EXIT}
  }

  /** The binding GetKey returns: the action in the low byte, its argument
      (a desktop number plus one) above it. */
  function KeyOf(action: int, arg: int): (key: int)
    requires 0 <= action < 256
    ensures key % 256 == action
  {
    arg * 256 + action
  }

  /** `key & 0xFF` and `key >> 8`. */
  function KeySplit(key: int): (r: (int, int))
    ensures 0 <= r.0 < 256
    ensures r.1 * 256 + r.0 == key
  {
    (LowByte(key), ShiftRight8(key))
  }

  /** HandleKeyPress for the binding `key` with `active` the active window:
      the window-directed bindings act only when a window is active; the
      desktop binding switches to desktop `arg - 1`, or to the next desktop
      when the argument is zero. */
  function KeyEffects(key: int, active: Option<Client>, ev: XEvent): (r: seq<Effect>)
    requires ev.KeyPress?
    ensures |r| <= 1
    ensures var (action, arg) := KeySplit(key);
            (action == KEY_DESKTOP ==> r == if arg != 0 then [ChangeDesktop(arg - 1)] else [NextDesktop]) &&
            (action == KEY_EXEC ==> r == [RunKeyCommand(ev.keycode, ev.state)]) &&
            (action == KEY_RESTART ==> r == [Restart]) &&
            (action == KEY_EXIT ==> r == [Exit]) &&
            (action == KEY_ROOT ==> r == [ShowRootMenu(1, 0, 0)]) &&
            (action == KEY_NEXT ==> r == [FocusNext]) &&
            (action == KEY_NEXT_STACKED ==> r == [FocusNextStackedCircular]) &&
            (action in {KEY_CLOSE, KEY_SHADE, KEY_MOVE, KEY_RESIZE, KEY_MIN, KEY_MAX, KEY_WIN} ==>
               (r == [] <==> active.None?)) &&
            (action !in KeyActions() ==> r == [])
    ensures active.Some? && KeySplit(key).0 == KEY_SHADE ==>
              r == if Has(active.value.status, STAT_SHADED) then [UnshadeClient(active.value.window)]
                   else [ShadeClient(active.value.window)]
    ensures active.Some? ==>
              var c, action := active.value, KeySplit(key).0;
              (action == KEY_CLOSE ==> r == [DeleteClient(c.window)]) &&
              (action == KEY_MOVE ==> r == [MoveClientKeyboard(c.window)]) &&
              (action == KEY_RESIZE ==> r == [ResizeClientKeyboard(c.window)]) &&
              (action == KEY_MIN ==> r == [MinimizeClient(c.window)]) &&
              (action == KEY_MAX ==> r == [MaximizeClient(c.window)]) &&
              (action == KEY_WIN ==> r == [ShowWindowMenu(c.window, c.x, c.y)])
  {
    var (action, arg) := KeySplit(key);
    if action == KEY_EXEC then [RunKeyCommand(ev.keycode, ev.state)]
    else if action == KEY_DESKTOP then (if arg != 0 then [ChangeDesktop(arg - 1)] else [NextDesktop])
    else if action == KEY_NEXT then [FocusNext]
    else if action == KEY_NEXT_STACKED then [FocusNextStackedCircular]
    else if action == KEY_ROOT then [ShowRootMenu(1, 0, 0)]
    else if action == KEY_RESTART then [Restart]
    else if action == KEY_EXIT then [Exit]
    else match active
      case None => []
      case Some(c) =>
        if action == KEY_CLOSE then [DeleteClient(c.window)]
        else if action == KEY_SHADE then
          (if Has(c.status, STAT_SHADED) then [UnshadeClient(c.window)] else [ShadeClient(c.window)])
        else if action == KEY_MOVE then [MoveClientKeyboard(c.window)]
        else if action == KEY_RESIZE then [ResizeClientKeyboard(c.window)]
        else if action == KEY_MIN then [MinimizeClient(c.window)]
        else if action == KEY_MAX then [MaximizeClient(c.window)]
        else if action == KEY_WIN then [ShowWindowMenu(c.window, c.x, c.y)]
        else []
  }

  /** The split recovers the action and argument of a binding. */
  lemma KeySplitOfKey(action: int, arg: int)
    requires 0 <= action < 256
    ensures KeySplit(KeyOf(action, arg)) == (action, arg)
  {
    var key := KeyOf(action, arg);
    var (a, b) := KeySplit(key);
    DivUnique(key, 256, arg, action);
    assert b == arg;
  }

  /** A binding is determined by its split. */
  lemma KeyOfSplit(key: int)
    ensures KeyOf(KeySplit(key).0, KeySplit(key).1) == key
  {
  }

  // ---------------------------------------------------------------------
  // HandleEnterNotify, HandleLeaveNotify, HandleMotionNotify

  /** HandleEnterNotify. The pointer cache is updated; under sloppy focus an
      inactive managed window takes the focus. Entering a frame recomputes
      the border action and sets its cursor; entering a content window with
      a border action pending resets it and the frame's cursor. */
  function EnterStep(found: Option<Client>, ev: XEvent, cfg: Config): (r: Step)
    requires ev.Crossing?
    ensures r.node.Some? <==> found.Some?
  {
    var pos := [SetMousePosition(ev.xRoot, ev.yRoot)];
    match found
    case None => Step(None, pos)
    case Some(c) =>
      var focus := if !Has(c.status, STAT_ACTIVE) && cfg.focusModel == FocusSloppy then [FocusClient(c.window)] else [];
      if c.parent == ev.window then
        var action := cfg.borderActionType(c, ev.x, ev.y);
        Step(Some(c.(borderAction := action)), pos + focus + [DefineCursor(c.parent, action)])
      else if c.borderAction != BA_NONE then
        Step(Some(c.(borderAction := BA_NONE)), pos + focus + [SetDefaultCursor(c.parent)])
      else
        Step(found, pos + focus)
  }

  /** HandleLeaveNotify: the pointer cache is updated and a frame the pointer
      leaves gets the default cursor back. */
  function LeaveEffects(frame: Option<Client>, ev: XEvent): (r: seq<Effect>)
    requires ev.Crossing?
    ensures |r| >= 1 && r[0] == SetMousePosition(ev.xRoot, ev.yRoot)
    ensures frame.None? <==> |r| == 1
    ensures frame.Some? ==> r == [SetMousePosition(ev.xRoot, ev.yRoot), SetDefaultCursor(frame.value.parent)]
  {
    [SetMousePosition(ev.xRoot, ev.yRoot)] +
    (if frame.Some? then [SetDefaultCursor(frame.value.parent)] else [])
  }

  /** HandleMotionNotify. A hint is ignored. Otherwise the pointer cache is
      updated and, over the frame of a window with an outline, a change of
      border action is recorded and shown by the cursor. */
  function MotionStep(frame: Option<Client>, ev: XEvent, cfg: Config): (r: Step)
    requires ev.MotionNotify?
    ensures r.node.Some? <==> frame.Some?
  {
    if ev.isHint then Step(frame, [])
    else
      var pos := [SetMousePosition(ev.xRoot, ev.yRoot)];
      match frame
      case None => Step(None, pos)
      case Some(c) =>
        if Has(c.border, BORDER_OUTLINE) then
          var action := cfg.borderActionType(c, ev.x, ev.y);
          if c.borderAction != action then
            Step(Some(c.(borderAction := action)), pos + [DefineCursor(c.parent, action)])
          else Step(frame, pos)
        else Step(frame, pos)
  }

  /** The pointer cache is updated first. Entering a managed window
      changes no more than its border action and focuses it exactly under
      sloppy focus when it is inactive; entering its frame records the new
      border action and shows it by the cursor; entering its content clears
      a pending border action and resets the cursor exactly when one was
      pending. */
  lemma EnterCalls(found: Option<Client>, ev: XEvent, cfg: Config)
    requires ev.Crossing?
    ensures var r := EnterStep(found, ev, cfg);
            |r.effects| >= 1 && r.effects[0] == SetMousePosition(ev.xRoot, ev.yRoot) &&
            (found.None? ==> r.effects == [SetMousePosition(ev.xRoot, ev.yRoot)])
    ensures found.Some? ==>
              var r, c := EnterStep(found, ev, cfg), found.value;
              var n := r.node.value;
              n == c.(borderAction := n.borderAction) &&
              (FocusClient(c.window) in r.effects <==>
                 !Has(c.status, STAT_ACTIVE) && cfg.focusModel == FocusSloppy) &&
              (ev.window == c.parent ==>
                 n.borderAction == cfg.borderActionType(c, ev.x, ev.y) &&
                 DefineCursor(c.parent, n.borderAction) in r.effects) &&
              (ev.window != c.parent ==> n.borderAction == BA_NONE || n == c) &&
              (ev.window != c.parent ==> (SetDefaultCursor(c.parent) in r.effects <==> c.borderAction != BA_NONE))
  {
  }

  /** A hint changes nothing. Otherwise the pointer cache is updated first,
      and over the frame of a managed window only its border action can
      change: exactly when the window has an outline and the action differs,
      in which case the new action is recorded and shown by the cursor. */
  lemma MotionCalls(frame: Option<Client>, ev: XEvent, cfg: Config)
    requires ev.MotionNotify?
    ensures var r := MotionStep(frame, ev, cfg);
            (ev.isHint ==> r == Step(frame, [])) &&
            (!ev.isHint ==> |r.effects| >= 1 && r.effects[0] == SetMousePosition(ev.xRoot, ev.yRoot))
    ensures frame.Some? ==>
              var r, c := MotionStep(frame, ev, cfg), frame.value;
              var n := r.node.value;
              n == c.(borderAction := n.borderAction) &&
              (n != c <==> !ev.isHint && Has(c.border, BORDER_OUTLINE) &&
                           cfg.borderActionType(c, ev.x, ev.y) != c.borderAction) &&
              (n != c ==> n.borderAction == cfg.borderActionType(c, ev.x, ev.y) &&
                          DefineCursor(c.parent, n.borderAction) in r.effects)
  {
  }
}

/** The part of the X protocol the event core sees: event records, the
    `long` payload of client messages, server timestamps and the standard
    constants of X.h and Xatom.h that the handlers test. */
module XProto {

  const LONG_MIN: int := -0x8000_0000_0000_0000
  const LONG_LIMIT: int := 0x8000_0000_0000_0000

  /** A C `long` (64 bits). */
  type Long = v: int | LONG_MIN <= v < LONG_LIMIT

  /** A C `int` (32 bits). */
  type Int32 = v: int | -0x8000_0000 <= v < 0x8000_0000

  /** An X server timestamp (`Time`, a CARD32 on the wire). */
  type Time = t: int | 0 <= t < 0x1_0000_0000

  /** An X resource id (a window handle, an atom, a colormap). */
  type XID = nat

  /** `data.l` of a format-32 ClientMessage: always five longs. */
  type MessageData = s: seq<Long> | |s| == 5 witness [0, 0, 0, 0, 0]

  /** One XEvent, by type. Fields are the ones the handlers read. */
  datatype XEvent =
    | ConfigureRequest(window: XID, valueMask: nat, x: Int32, y: Int32, width: Int32, height: Int32,
                       borderWidth: int, above: XID, detail: int)
    | MapRequest(window: XID)
    | PropertyNotify(window: XID, atom: XID)
    | ClientMessage(window: XID, messageType: XID, data: MessageData)
    | UnmapNotify(window: XID)
    | Expose(window: XID, count: int)
    | ColormapNotify(window: XID, colormap: XID, isNew: bool)
    | DestroyNotify(window: XID)
    | SelectionClear(window: XID)
    | ResizeRequest(window: XID)
    | MotionNotify(window: XID, x: Int32, y: Int32, xRoot: Int32, yRoot: Int32, isHint: bool)
    | ButtonEvent(isPress: bool, window: XID, button: nat, x: Int32, y: Int32, time: Time, state: nat)
    | KeyPress(window: XID, keycode: nat, state: nat)
    | KeyRelease(window: XID)
    | Crossing(isEnter: bool, window: XID, x: Int32, y: Int32, xRoot: Int32, yRoot: Int32)
    | ConfigureNotify(window: XID)
    | CreateNotify(window: XID)
    | MapNotify(window: XID)
    | ReparentNotify(window: XID)
    | GraphicsExpose(window: XID)
    | NoExpose(window: XID)
    | OtherEvent(window: XID, eventType: nat)

  // XConfigureWindow value-mask bits: CWX = 1 << 0, CWY = 1 << 1, CWWidth = 1 << 2, CWHeight = 1 << 3.
  const CW_X_BIT: nat := 0
  const CW_Y_BIT: nat := 1
  const CW_WIDTH_BIT: nat := 2
  const CW_HEIGHT_BIT: nat := 3

  /** Stack mode `Above`. */
  const ABOVE: int := 0

  /** Modifier `Mod1Mask` = 1 << 3. */
  const MOD1_BIT: nat := 3

  // Pointer buttons.
  const BUTTON1: nat := 1
  const BUTTON2: nat := 2
  const BUTTON3: nat := 3
  const BUTTON4: nat := 4
  const BUTTON5: nat := 5

  // ICCCM section 4.1.3.1 window states carried by WM_CHANGE_STATE.
  const WITHDRAWN_STATE: int := 0
  const NORMAL_STATE: int := 1
  const ICONIC_STATE: int := 3

  // Predefined atoms of Xatom.h.
  const XA_WM_HINTS: XID := 35
  const XA_WM_CLIENT_MACHINE: XID := 36
  const XA_WM_ICON_NAME: XID := 37
  const XA_WM_NAME: XID := 39
  const XA_WM_NORMAL_HINTS: XID := 40

  // Bits of the legacy GNOME _WIN_STATE mask.
  const WIN_STATE_STICKY_BIT: nat := 0
  const WIN_STATE_HIDDEN_BIT: nat := 4
}

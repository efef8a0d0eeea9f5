/** What the event core takes from the rest of the window manager: its
    configuration, the interned atoms, the collaborators whose definitions
    live in other files (kept uninterpreted as function values), and the
    answers that stateful collaborators give while one event is processed. */
module Context {
  import opened XProto
  import opened Options
  import opened Clients
  import opened Effects

  /** Frame border thickness on each side (GetBorderSize). */
  datatype Insets = Insets(north: int, south: int, east: int, west: int)

  /** A width and height (what ConstrainSize leaves in the node). */
  datatype Size = Size(width: Int32, height: Int32)

  /** The position correction of GetGravityDelta. */
  datatype Delta = Delta(dx: int, dy: int)

  datatype FocusModel = FocusSloppy | FocusClick

  /** The atoms interned at startup (`atoms[ATOM_...]`). */
  datatype Atoms = Atoms(
    winState: XID, winLayer: XID, wmChangeState: XID,
    netActiveWindow: XID, netWmDesktop: XID, netCloseWindow: XID,
    netMoveResizeWindow: XID, netWmState: XID,
    jwmRestart: XID, jwmExit: XID, netCurrentDesktop: XID,
    netSystemTrayOpcode: XID,
    netWmStateSticky: XID, netWmStateMaximizedVert: XID,
    netWmStateMaximizedHorz: XID, netWmStateShaded: XID,
    wmColormapWindows: XID, netWmIcon: XID, netWmName: XID,
    netWmStrutPartial: XID, netWmStrut: XID)

  /** Global settings and the uninterpreted collaborators. */
  datatype Config = Config(
    rootWindow: XID,
    rootWidth: int, rootHeight: int,
    desktopCount: nat,
    borderWidth: int, titleHeight: int,
    doubleClickSpeed: int, doubleClickDelta: int,
    focusModel: FocusModel,
    atoms: Atoms,
    borderSize: Client -> Insets,                // GetBorderSize
    gravityDelta: Client -> Delta,               // GetGravityDelta
    constrainSize: Client -> Size,               // ConstrainSize
    borderActionType: (Client, int, int) -> int, // GetBorderActionType
    timeDifference: (int, int) -> int,           // GetTimeDifference
    getKey: (nat, nat) -> int)                   // GetKey on keycode and modifier state

  /** What the collaborators answer during one pass of the event loop. */
  datatype Replies = Replies(
    now: int,              // GetCurrentTime, in milliseconds
    mouseX: int, mouseY: int,   // GetMousePosition
    swallowMap: bool,      // CheckSwallowMap
    addClient: bool,       // AddClientWindow returned a node
    dock: bool,            // HandleDockDestroy / HandleDockSelectionClear / HandleDockResizeRequest
    tray: bool, dialog: bool, swallow: bool, popup: bool,  // the four fallback claimants
    shouldExit: bool)      // the global shutdown flag when the loop condition is read

  /** What one handler does to the node it found (None when it found none)
      and the calls it makes, in order. */
  datatype Step = Step(node: Option<Client>, effects: seq<Effect>)

  /** `if(np->controller) (np->controller)(arg);` */
  function Controller(c: Client, arg: int): seq<Effect>
  {
    if c.controller then [CallController(c.window, arg)] else []
  }

  /** `if(focusModel == FOCUS_CLICK) FocusClient(...);` */
  function FocusOnClick(cfg: Config, w: XID): seq<Effect>
  {
    if cfg.focusModel == FocusClick then [FocusClient(w)] else []
  }
}

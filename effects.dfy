/** The effect log: every call the event core makes into the X server or
    into a collaborator whose code is not part of this model, in order,
    with its arguments. A managed window is named by its content handle. */
module Effects {
  import opened XProto

  /** The four subsystems that are offered an event nobody else handled. */
  datatype Claimant = Tray | Dialog | Swallow | Popup

  datatype Effect =
    // requests to the X server
    | ConfigureWindow(target: XID, mask: nat, x: int, y: int, width: int, height: int,
                      borderWidth: int, sibling: XID, stackMode: int)
    | MoveResizeWindow(target: XID, x: int, y: int, width: int, height: int)
    | MapWindow(target: XID)
    | UnmapWindow(target: XID)
    | DefineCursor(target: XID, action: int)   // the cursor GetFrameCursor gives for the action
    | SetDefaultCursor(target: XID)
    | ReplayPointer
    // the controller callback of an interactive move/resize
    | CallController(client: XID, wasDestroyed: int)
    // window actions
    | AddClientWindow(target: XID)
    | RemoveClient(client: XID)
    | RaiseClient(client: XID)
    | FocusClient(client: XID)
    | RestackClients
    | SetClientSticky(client: XID, on: bool)
    | SetClientLayer(client: XID, layer: int)
    | SetClientWithdrawn(client: XID)
    | SetClientDesktop(client: XID, desktop: int)
    | MinimizeClient(client: XID)
    | RestoreClient(client: XID, raise: bool)
    | MaximizeClient(client: XID)
    | ShadeClient(client: XID)
    | UnshadeClient(client: XID)
    | DeleteClient(client: XID)
    | MoveClient(client: XID, x: int, y: int)
    | ResizeClient(client: XID, action: int, x: int, y: int)
    | MoveClientKeyboard(client: XID)
    | ResizeClientKeyboard(client: XID)
    | FocusNext
    | FocusNextStackedCircular
    // property re-reads and redraws
    | ReadWMName(client: XID)
    | ReadWMNormalHints(client: XID)
    | ReadWMColormaps(client: XID)
    | UpdateClientColormap(client: XID)
    | LoadIcon(client: XID)
    | ReadClientStrut(client: XID)
    | DrawBorder(client: XID)
    | WriteState(client: XID)
    | SendConfigureEvent(client: XID)
    | UpdateTaskBar
    | UpdatePager
    // menus, desktops, session
    | ShowWindowMenu(client: XID, x: int, y: int)
    | ShowRootMenu(button: int, x: int, y: int)
    | ChangeDesktop(desktop: int)
    | NextDesktop
    | PreviousDesktop
    | RunKeyCommand(keycode: nat, state: nat)
    | Restart
    | Exit
    // pointer cache and periodic callbacks
    | SetMousePosition(x: int, y: int)
    | SignalTaskbar(now: int, x: int, y: int)
    | SignalTrayButton(now: int, x: int, y: int)
    | SignalClock(now: int, x: int, y: int)
    | SignalTray(now: int, x: int, y: int)
    | SignalPopup(now: int, x: int, y: int)
    // swallow, dock and the fallback claimants
    | CheckSwallowMap(target: XID)
    | HandleDockEvent(target: XID)
    | HandleDockDestroy(target: XID)
    | HandleDockSelectionClear(target: XID)
    | HandleDockResizeRequest(target: XID)
    | Offer(claimant: Claimant)

  /** The commands that act on the whole session rather than on one window:
      restart, exit, a desktop switch and a system-tray request. */
  predicate SessionCommand(e: Effect)
  {
    e.Restart? || e.Exit? || e.ChangeDesktop? || e.HandleDockEvent?
  }
}

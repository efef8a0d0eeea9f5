# jwm event core in Dafny

This project models `src/event.c` of jwm, a lightweight X11 window manager,
and proves properties of that model. The file is the manager's event loop
and window-protocol core. `WaitForEvent` takes events from the X server's
queue. It runs the throttled periodic callbacks (`Signal`) and routes each
event by type to a handler. An event that no handler counts as handled goes
in order to the tray, dialog, swallow and popup subsystems. `ProcessEvent`
dispatches the pointer and keyboard events that the loop hands back.

The handlers update managed clients in place: geometry, status flags, the
border action under the pointer and the colormap. They call into jwm's other
subsystems to redraw borders, update the task bar and pager, write state,
move, resize, maximize, shade, restack, open menus and so on.

## How the model is built

- **Clients.** `Clients.ClientNode` is a class. Its mutable fields are the
  ones event.c writes: `x`, `y`, `width`, `height`, `status`, `borderAction`
  and `cmap`. The window and parent handles, the border flags, the gravity
  and the controller are constant fields, since event.c only reads them. `Clients.Client` is the value view (`View()`) that
  the step functions work on. Status and border flags are `bv32` words, as
  in C.
- **The dispatcher.** `Dispatch.Dispatcher` is a class holding:
  - the client registry, as a `seq<ClientNode>`;
  - the pending X event queue, as a `seq<XEvent>`;
  - the log of calls made into other subsystems, as a `seq<Effect>`;
  - the static double-click record of `DispatchBorderButtonEvent`
    (`lastClickTime`, `lastX`, `lastY`, `doubleClickActive`);
  - the static time of the last `Signal` run.
- **Handlers.** Each handler is a method of the dispatcher that mirrors the
  C branches. Its `ensures` ties the new client state and the appended calls
  to a pure step function (`Lifecycle.ConfigureRequestStep`,
  `Protocol.ClientMessageStep`, `Border.ButtonStep`, ...). The properties
  are proved as lemmas about those functions.
- **Other subsystems.** A call into another subsystem is an `Effect` value
  appended to the log. The answer such a call returns is a parameter:
  - `MoveClient` returns whether the client moved;
  - `AddClientWindow`, `CheckSwallowMap`, the dock handlers and the tray,
    dialog, swallow and popup handlers return whether they took the event;
  - `ShowRootMenu` returns whether it showed a menu;
  - the shutdown flag, the clock and the pointer position come in as values.

  The answers for one pass of the loop form a `Context.Replies` or
  `Context.ButtonReplies` record. Functions whose result the core uses but
  cannot see are fields of `Context.Config`: `GetBorderSize`,
  `GetGravityDelta`, `ConstrainSize`, `GetBorderActionType`,
  `GetTimeDifference` and `GetKey`.
- **C integers.** The `long` to `int` stores of `HandleNetMoveResize` wrap
  modulo 2^32 (`Bits.Wrap32`). In `DispatchBorderButtonEvent`,
  `abs(event->time - lastClickTime)` is taken on the wrapped 32-bit
  difference (`Border.ClickInterval`). Dafny's Euclidean `/` and `%` are
  used only on values where C gives the same result.

Two behaviours of the code are worth stating on their own:

- A repeated ConfigureRequest is a no-op only when `ConstrainSize` keeps the
  requested width and height (`Lifecycle.ConfigureRepeat`, both directions).
- The motion loop of `ProcessEvent` drops the drained events. Only
  `DiscardMotionEvents` feeds them to `SetMousePosition`.

## Model

| member | source | states |
|---|---|---|
| Bits.SplitByte | src/event.c:332-341 | splits a key into an action byte 0..255 and the rest, and the two recombine to the key |
| Bits.Wrap32 | src/event.c:767-770 | the C `long` to `int` store: the result is a 32-bit signed value congruent to the input mod 2^32, and equal to it when it fits |
| Bits.Abs | src/event.c:1051-1054 | `abs` returns the operand or its negation, never negative |
| Bits.Min | src/event.c:467-468 | the smaller of the two operands; forwarded requests are capped to the root width and height with it |
| Bits.BitOfShift | src/event.c:737 | bit k of `flags >> 8` is bit k+8 of flags, which is how the message's bits 8..11 become the x, y, width and height selectors |
| Clients.SetFlag | src/event.c:623 | `status |= f` sets the bits of f and leaves every other bit as it was |
| Clients.ClearFlag | src/event.c:625 | `status &= ~f` clears the bits of f and leaves every other bit as it was |
| Registry.FindClientByWindow | src/event.c:412 | a found client is in the registry and owns the handle as window or frame; no client is found only when none owns it (the function lives in client.c, which is not part of this model) |
| Registry.FindClientByParent | src/event.c:255 | a found client is in the registry with that frame; no client is found only when no client has it |
| Registry.Without | src/event.c:1016 | RemoveClient leaves exactly the other clients in the registry |
| Registry.FindOwnHandles | src/event.c:412 | with unique handles, each client is found by its own window and its own frame |
| Registry.RemovedIsForgotten | src/event.c:1016 | after removal the registry stays unique and neither handle of the removed client finds anything, so a stale handle cannot reach it |
| EventQueue.RemoveAt | src/event.c:975-978 | taking out event i removes exactly that event: the events before it stay in place, the ones after it move up by one in order, and nothing is added |
| EventQueue.MotionSplit | src/event.c:211-213 | the motion and non-motion subsequences partition the queue by event type |
| EventQueue.FirstMotion | src/event.c:212 | JXCheckTypedEvent finds the first motion event, with none before it, or reports that there is none |
| EventQueue.FirstDestroyFor | src/event.c:975-978 | the look-ahead finds the first DestroyNotify for the window, or there is none in the queue |
| EventQueue.TakeFirstMotion | src/event.c:212 | taking the first motion event removes the head of the motion subsequence and leaves the others in order |
| EventQueue.NoMotionFound | src/event.c:212 | when no motion event is found, the motion subsequence is empty |
| EventQueue.NoMotionLeft | src/event.c:212 | a queue without motion events is its own non-motion subsequence |
| EventQueue.LastOn | src/event.c:233-236 | the last drained motion event on the window, with none on it after that |
| EventQueue.CoalescedForShape | src/event.c:228-239 | DiscardMotionEvents keeps the caller's event when no drained event is on the window, or else the last drained event on the window; when all are on the window it keeps the newest |
| EventQueue.NewestIsDrained | src/event.c:211-213 | the event the motion loop ends with is one of the drained events when any were queued, is a motion event when all are, and is always the last one drained |
| EventQueue.MotionsAreMotions | src/event.c:212 | every event in the motion subsequence is a MotionNotify |
| EventQueue.PositionsAt | src/event.c:233 | drained event j produces the j-th SetMousePosition call, with its root coordinates |
| Routing.SignalStep | src/event.c:169-191 | the five callbacks run, in order, exactly when at least 50 ms have passed since the last run, and only then does the last-run time move |
| Routing.SignalThrottle | src/event.c:178-181 | a call within 50 ms of a run does nothing; a throttled call leaves the next call measured from the same last run |
| Routing.RoutingClassesPartition | src/event.c:88-148 | every event type is either always handled, never handled, or left to its handler to decide, and never in two of these classes |
| Routing.OfferFromOrder | src/event.c:150-161 | the fallback offers go out in the order tray, dialog, swallow, popup, and all but the last one asked declined |
| Routing.OfferFromClaimant | src/event.c:150-161 | nobody claims an event exactly when all four were asked and all declined; a claimant is the last one asked |
| Routing.FallbackDrops | src/event.c:150-161 | an event stays unhandled after the fallback exactly when the switch did not handle it and all four subsystems declined, and then all four were asked in order |
| Routing.FallbackPicksFirst | src/event.c:150-161 | the first subsystem that claims gets the event, after exactly the offers before it |
| Border.Zone | src/event.c:1043 | `action & 0x0F` is in 0..15 and agrees with the action mod 16 |
| Border.ClickInterval | src/event.c:1051-1052 | the absolute 32-bit difference of two click times: zero for equal times, and the true distance when it fits |
| Border.MovePress | src/event.c:1048-1068 | a press in the move zone maximizes and clears the record when it is a double click, and otherwise moves; a move that did not drag records the press as pending |
| Border.DoubleClickSequence | src/event.c:1048-1068 | press, quick close press, press: move, maximize, move; the third press never maximizes again |
| Border.MenuZoneAnchor | src/event.c:1069-1079 | the window menu opens at the click point less the outline width and the title height |
| Border.Button3Anchor | src/event.c:268-279 | the button-3 menu opens at the click point less the outline width and, when there is a title, its height |
| Border.MenuAnchorsAgree | src/event.c:268-279 | with a title both menus open at the same point; without one the button-3 menu sits one title height lower |
| Border.BorderButton | src/event.c:1032-1099 | each border zone makes the call the source assigns and only on press or only on release as written; a move-zone release makes no call; only a move-zone press touches the click record |
| Border.ButtonShape | src/event.c:251-320 | a frame click raises the client first, a root press opens the root menu, a content click replays the pointer, the pager is always updated last, and only a move-zone button-1 press changes the click record |
| Border.KeyOf | src/event.c:332-341 | a key packs its action into the low byte |
| Border.KeySplit | src/event.c:332-341 | `key & 0xFF` and `key >> 8` give an action byte and an argument that recombine to the key |
| Border.KeySplitOfKey | src/event.c:332-341 | splitting a packed key gives back its action and argument |
| Border.KeyOfSplit | src/event.c:332-341 | packing the two parts of a split key gives back the key |
| Border.KeyEffects | src/event.c:324-401 | each key action makes its own one call: next, next-stacked, close, move, resize, minimize, maximize and window menu name theirs; window actions need an active client; shade toggles on the client's shaded flag; unknown actions do nothing |
| Border.EnterStep | src/event.c:478-500 | the client is kept exactly when one was found |
| Border.EnterCalls | src/event.c:478-500 | the pointer position is always recorded; sloppy focus focuses an inactive client; on the frame the border action is reclassified and the cursor set; elsewhere a live border action resets the cursor |
| Border.MotionStep | src/event.c:865-887 | the client is kept exactly when the frame was found |
| Border.MotionCalls | src/event.c:865-887 | a hint does nothing; otherwise the pointer position is recorded, and the client changes exactly when an outlined frame's border action differs, which sets the cursor |
| Lifecycle.ChangesIffRequestedDiffers | src/event.c:419-439 | the change test of HandleConfigureRequest fires exactly when applying the request alters the client |
| Lifecycle.PassThrough | src/event.c:461-471 | an unmanaged request is forwarded with its own fields, width and height capped to the root size |
| Lifecycle.ConfigureRequestStep | src/event.c:405-474 | runs the controller first, forwards unmanaged requests, and for a managed window that changes sets x, y and the constrained size and moves frame and content; otherwise changes nothing |
| Lifecycle.ConfigureRepeat | src/event.c:412-459 | the same request a second time is a no-op exactly when the first changed nothing or ConstrainSize kept every requested width and height |
| Lifecycle.ClassifyProperty | src/event.c:550-579 | each property atom goes to exactly one case of the switch, predefined atoms first, and each case, icon, _NET_WM_NAME and the ignored default included, is characterised by the atoms that reach it |
| Lifecycle.PropertyEffects | src/event.c:542-594 | properties of unmanaged windows and ignored atoms cause no calls |
| Lifecycle.PropertyCalls | src/event.c:550-585 | the redraw, task bar and pager calls happen exactly for the shown properties, after the one reread; size hints, colormaps and the icon are reread exactly for their atoms, colormaps followed by the colormap update; names and struts are reread exactly for their atoms |
| Lifecycle.ColormapRepeat | src/event.c:906-917 | a colormap notification changes at most the colormap field, and the same notification a second time changes nothing more |
| Lifecycle.MappedStatus | src/event.c:946-949 | mapping sets mapped and clears minimized and show-desktop, leaving every other status bit alone |
| Lifecycle.MapRequestStep | src/event.c:921-961 | the client is kept exactly when one was found |
| Lifecycle.MapRequestShape | src/event.c:921-961 | swallow is tried first and ends the request when it takes the window; otherwise the request ends with a restack, an already mapped client is left alone, and an unmapped one gets the mapped status |
| Lifecycle.MapRequestCalls | src/event.c:931-958 | a new window is added, mapped only when adding declined it, and focused only under click focus; an unmapped client has window and frame mapped, is raised and joins the task bar |
| Lifecycle.DestroyStep | src/event.c:1005-1028 | a destroyed managed window runs its controller and is removed; an unknown window goes to the dock; only the managed case removes a client |
| Lifecycle.DestroyHandledRemoves | src/event.c:1005-1028 | a destroy notification counts as handled exactly when it removes a client or the dock took an unknown window; for a managed window it is handled exactly when the client is removed, and only that window is ever removed |
| Lifecycle.UnmapStep | src/event.c:965-1001 | the client is kept exactly when one was found |
| Lifecycle.UnmapShape | src/event.c:965-1001 | a queued destroy is handled as the destroy; otherwise the controller runs and a mapped client is unmapped with its frame hidden and its state written; the client is never left mapped |
| Lifecycle.UnmapThenMap | src/event.c:984-993 | unmapping and mapping a mapped client again gives exactly the status of mapping it once |
| Lifecycle.RemapStatus | src/event.c:946-949 | the mapped status does not depend on whether the mapped bit was set before |
| Protocol.ClassifyClientMessage | src/event.c:607-696 | a message type picks the first matching branch of the if-chain, and is unknown exactly when it matches none |
| Protocol.ClassifyRootMessage | src/event.c:698-712 | a root message picks the first matching branch, and is unknown exactly when it matches none |
| Protocol.HiddenStatus | src/event.c:621-626 | the hidden request sets or clears the no-list bit as flagged, or leaves it, and nothing else |
| Protocol.WinStateEffects | src/event.c:613-629 | a WIN_STATE message with neither sticky nor hidden in the mask makes no call |
| Protocol.WinStateStep | src/event.c:608-629 | event.c itself writes only the no-list bit of the status, and it follows the hidden flag exactly when the mask selects it |
| Protocol.WinStateCalls | src/event.c:613-629 | sticky is set to the flag's value exactly when selected and never to the opposite; task bar and pager update exactly when hidden is selected |
| Protocol.ChangeStateEffects | src/event.c:635-653 | withdrawn, iconic and normal states make their one call each, and any other state makes none |
| Protocol.NetWmDesktopStep | src/event.c:660-674 | desktop -1 makes the client sticky; a desktop in range clears sticky and moves the client there; an out-of-range desktop moves nothing |
| Protocol.MoveResizeRequest | src/event.c:736-755 | flag bits 8..11 select which of x, y, width and height come from the message, the rest stay |
| Protocol.NetMoveResizeShape | src/event.c:725-782 | the new geometry is the requested one less the gravity delta, stored as 32-bit int, and frame and content are moved and resized by the border, then state written and configure sent |
| Protocol.MoveResizeCalls | src/event.c:772-780 | a move/resize message only moves windows, writes state and sends a configure event |
| Protocol.MoveResizeIgnoresGravity | src/event.c:757-762 | the gravity byte of the message is ignored: messages equal in bits 8 and up and in the four values give the same result |
| Protocol.StateAtomOf | src/event.c:799-813 | each atom of a _NET_WM_STATE message is sticky, maximize or shade by the first matching test, or none |
| Protocol.ScanStateAtoms | src/event.c:795-813 | the loop over the two state atoms selects exactly the states of the selection function |
| Protocol.NetWmStateEffects | src/event.c:815-860 | an action other than remove, add or toggle makes no call |
| Protocol.NetWmStateTargets | src/event.c:815-860 | every call a _NET_WM_STATE message makes is a sticky, maximize, shade or unshade call on the message's window |
| Protocol.NetWmRemoveCalls | src/event.c:816-826 | remove unsticks, unmaximizes a maximized client and unshades, exactly for the selected states, and never sticks or shades |
| Protocol.NetWmAddCalls | src/event.c:827-837 | add sticks, maximizes an unmaximized client and shades, exactly for the selected states, and never unsticks or unshades |
| Protocol.NetWmToggleCalls | src/event.c:838-856 | toggle flips sticky and shaded from the client's current flags and toggles maximize, exactly for the selected states |
| Protocol.NetWmMaximizeComplement | src/event.c:816-837 | for a selected maximize, exactly one of remove and add calls MaximizeClient |
| Protocol.RootMessageEffects | src/event.c:698-712 | a root message makes exactly one call when it is recognised and none otherwise |
| Protocol.RootMessageCalls | src/event.c:698-712 | restart, exit and desktop change happen exactly for their root message types |
| Protocol.ManagedMessageStep | src/event.c:607-696 | a managed message keeps the client's handles, and an unknown type changes nothing |
| Protocol.ManagedMessageNoSession | src/event.c:607-696 | no message to a managed window restarts, exits or changes the desktop |
| Protocol.StateMessageNoSession | src/event.c:608-674 | the WIN_STATE and _NET_WM_DESKTOP branches make no session-wide call |
| Protocol.ClientMessageStep | src/event.c:598-720 | a client message goes to the managed branch when a client is found and to the root branch for the root window |
| Protocol.ClientMessageCalls | src/event.c:698-718 | session-wide calls come only from root messages; the dock gets exactly the tray opcode messages for unknown non-root windows |
| Dispatch.DecidedIsGrounded | src/event.c:88-161 | after the switch and the fallback, an always-handled event is handled, and a never-handled event is handled exactly when the tray, dialog, swallow or popup subsystem claims it |
| Dispatch.LogOkAt | src/event.c:63-165 | each single pass of a log that is borne out is: its final verdict is grounded in the event type, and a pass without an event is unhandled |
| Dispatch.AllContinuedAt | src/event.c:163 | in a run of passes that all continued, every pass took an event that ended handled with no exit asked for |
| Dispatch.TakenAll | src/event.c:76-86 | when every pass took an event, the taken events are the passes' events, one per pass and in order |
| Dispatch.Dispatcher.constructor | src/event.c:1034-1036 | a new dispatcher has an empty log, no pending click and no last Signal time |
| Dispatch.RouteStepKeepsClient | src/event.c:88-148 | the switch keeps the client it found; never-handled types make no call but the motion record and are unhandled; always-handled types are handled; the other types are handled as their handler says |
| Dispatch.Dispatcher.CancelController | src/event.c:415-417 | the controller is invoked exactly when the client has one |
| Dispatch.Dispatcher.Signal | src/event.c:169-191 | updates the last-run time and the log as SignalStep says |
| Dispatch.Dispatcher.CopyRequest | src/event.c:419-439 | copies the selected fields into the client and returns whether any differed |
| Dispatch.Dispatcher.HandleConfigureRequest | src/event.c:405-474 | the client and the log end as ConfigureRequestStep says |
| Dispatch.Dispatcher.HandleExpose | src/event.c:519-538 | returns ExposeHandled and redraws the border exactly for a frame expose |
| Dispatch.Dispatcher.RereadProperty | src/event.c:550-579 | rereads the classified property and returns whether it is shown |
| Dispatch.Dispatcher.HandlePropertyNotify | src/event.c:542-594 | returns PropertyHandled and logs PropertyEffects |
| Dispatch.Dispatcher.HandleColormapChange | src/event.c:906-917 | the client and the log end as ColormapStep says |
| Dispatch.Dispatcher.ApplySticky | src/event.c:613-619 | sets sticky to the flag exactly when the mask selects it |
| Dispatch.Dispatcher.ApplyHidden | src/event.c:621-629 | updates the no-list bit by HiddenStatus and the task bar and pager when selected |
| Dispatch.Dispatcher.HandleWinState | src/event.c:608-629 | the client and the log end as WinStateStep says |
| Dispatch.Dispatcher.HandleChangeState | src/event.c:635-653 | runs the controller, then the state's call |
| Dispatch.Dispatcher.HandleNetWmDesktop | src/event.c:660-674 | the client and the log end as NetWmDesktopStep says |
| Dispatch.Dispatcher.RequestedGeometry | src/event.c:736-755 | decodes the requested geometry as MoveResizeRequest |
| Dispatch.Dispatcher.HandleNetMoveResize | src/event.c:725-782 | the client and the log end as NetMoveResizeStep says |
| Dispatch.Dispatcher.RemoveStates | src/event.c:816-826 | logs the remove calls |
| Dispatch.Dispatcher.AddStates | src/event.c:827-837 | logs the add calls |
| Dispatch.Dispatcher.ToggleStates | src/event.c:838-856 | logs the toggle calls |
| Dispatch.Dispatcher.HandleNetWMState | src/event.c:787-861 | scans the atoms and logs NetWmStateEffects for the action |
| Dispatch.Dispatcher.HandleManagedMessage | src/event.c:607-696 | the client and the log end as ManagedMessageStep says |
| Dispatch.Dispatcher.HandleRootMessage | src/event.c:698-712 | logs RootMessageEffects |
| Dispatch.Dispatcher.HandleClientMessage | src/event.c:598-720 | the client and the log end as ClientMessageStep says |
| Dispatch.Dispatcher.MapNewWindow | src/event.c:931-944 | adds the window, then focuses under click focus when adding succeeded and maps it when adding declined |
| Dispatch.Dispatcher.MapManaged | src/event.c:945-958 | sets the mapped status and maps, raises, focuses and lists the client |
| Dispatch.Dispatcher.MapUnswallowedWindow | src/event.c:931-960 | the client and the log end as the non-swallowed branch says |
| Dispatch.Dispatcher.HandleMapRequest | src/event.c:921-961 | the client and the log end as MapRequestStep says |
| Dispatch.Dispatcher.HandleDestroyNotify | src/event.c:1005-1028 | logs DestroyStep, returns DestroyHandled, and removes the client exactly for a destroyed managed window |
| Dispatch.Dispatcher.UnmapManaged | src/event.c:980-993 | runs the controller and unmaps a mapped client by UnmapShape's calls |
| Dispatch.Dispatcher.HandleUnmapNotify | src/event.c:965-1001 | the client and the log end as UnmapStep says; a queued destroy is taken from the queue and the client from the registry |
| Dispatch.Dispatcher.RouteRequest | src/event.c:88-114 | the configure, map, client-message and colormap cases end as RouteStep says and count as handled, leaving the registry and the queue as they were |
| Dispatch.Dispatcher.RouteUnmap | src/event.c:104-107 | the log and the client end as RouteStep says; a queued destroy for a managed window takes that event out of the queue and the client out of the registry, and nothing else leaves either |
| Dispatch.Dispatcher.RouteDecided | src/event.c:97-123 | the log ends as RouteStep says, the handled flag is RoutedHandled, the queue is unchanged, and the registry loses a client exactly when the event is a DestroyNotify for the content window of a managed client |
| Dispatch.Dispatcher.RouteRest | src/event.c:124-147 | motion records the pointer and counts as unhandled; the ignorable notifications count as handled, other types as unhandled, with no call; the registry and the queue stay as they were |
| Dispatch.Dispatcher.Route | src/event.c:88-148 | the switch: the log, the client, the registry and the queue end as RouteStep and the look-ahead say; always-handled types count as handled, never-handled ones do not, the others as their handler says; motion only records the pointer |
| Dispatch.Dispatcher.OfferUnhandled | src/event.c:150-161 | logs the fallback offers and returns whether the event was handled after them |
| Dispatch.Dispatcher.RouteAndOffer | src/event.c:88-161 | the log is the switch's calls followed by the fallback's offers, and the event is handled as the fallback leaves it; the registry loses only a destroyed managed client and the queue only the destroy event the unmap look-ahead finds |
| Dispatch.Dispatcher.Pass | src/event.c:72-163 | one pass logs Signal's callbacks, then the calls the switch makes for the head of the queue, then the fallback's offers, and leaves the client as RouteStep says; the queue loses its head and, for an unmap with a queued destroy, that destroy, and the registry only the destroyed client; with an empty queue only Signal runs and nothing else changes |
| Dispatch.Dispatcher.NextPass | src/event.c:72-163 | one pass takes an event exactly when the queue was not empty, namely its head; the queue loses exactly that event and the events the record says the pass dropped, counted with multiplicity, and nothing else; its record says the switch verdict is RoutedHandled for the client the head's window names, the final verdict is what the fallback leaves, both are grounded in the event type, and only an UnmapNotify drops anything, the DestroyNotify of its own window; a pass on an empty queue is unhandled and drops nothing; no client joins the registry |
| Dispatch.Dispatcher.WaitForEvent | src/event.c:63-165 | every pass but the last took an event that ended handled with no exit asked for (`AllContinued`), and the last one returned its event and verdict, which did not continue or found the queue empty; each pass's record is borne out (`LogOk`): its switch verdict is RoutedHandled for the client found, its final verdict is what the fallback leaves of it, and both are grounded in the event type; the first event taken is the head of the queue; every event of the starting queue, counted with multiplicity, is either still queued, or was taken by a pass, or was dropped by a pass's unmap look-ahead (`Accounted`), so no event is lost; no client joins the registry |
| Dispatch.LookAheadTook | src/event.c:972-978 | besides the head, the unmap look-ahead takes out of the queue at most the first queued DestroyNotify of the unmapped window, and nothing else |
| Dispatch.DroppedAreDestroys | src/event.c:975-978 | in a log of passes that is borne out, every event dropped besides the passes' own is a DestroyNotify, at most one per pass |
| Dispatch.Dispatcher.CheckTypedMotion | src/event.c:212 | takes out the first queued motion event, if any, leaving the other events in order |
| Dispatch.Dispatcher.CoalesceMotion | src/event.c:211-213 | drains every queued motion event and returns the newest one |
| Dispatch.Dispatcher.DiscardOne | src/event.c:232-237 | one iteration of the draining loop keeps the queue's non-motion events, the recorded positions and the coalesced event in step |
| Dispatch.Dispatcher.RecordMotion | src/event.c:233-236 | one drained event adds its position and becomes the kept event when it is on the window |
| Dispatch.Dispatcher.DiscardMotionEvents | src/event.c:228-239 | drains all motion events, records each one's position in order and keeps the last one on the window |
| Dispatch.Dispatcher.DispatchBorderButtonEvent | src/event.c:1032-1099 | the log and the click record end as BorderButton says |
| Dispatch.Dispatcher.FrameButtonEvent | src/event.c:261-288 | the log and the click record end as the frame-button function says |
| Dispatch.Dispatcher.ContentButtonEvent | src/event.c:297-316 | logs the content-window button calls |
| Dispatch.Dispatcher.FrameButtonBranch | src/event.c:255-288 | raises and focuses the client before the frame button calls |
| Dispatch.Dispatcher.RootButtonBranch | src/event.c:289-296 | a root press opens the root menu and, when no menu shows, scrolls the desktop by the wheel |
| Dispatch.Dispatcher.HandleButtonEvent | src/event.c:251-320 | the log and the click record end as ButtonStep says |
| Dispatch.Dispatcher.HandleKeyPress | src/event.c:324-401 | logs KeyEffects for the bound key and the active client |
| Dispatch.Dispatcher.EnterManaged | src/event.c:486-498 | the client and the log end as EnterStep says for a found client |
| Dispatch.Dispatcher.HandleEnterNotify | src/event.c:478-500 | the client and the log end as EnterStep says |
| Dispatch.Dispatcher.HandleLeaveNotify | src/event.c:504-515 | logs LeaveEffects |
| Dispatch.Dispatcher.MotionManaged | src/event.c:877-885 | the client and the log end as MotionStep says for a found frame |
| Dispatch.Dispatcher.HandleMotionNotify | src/event.c:865-887 | the client and the log end as MotionStep says |
| Dispatch.Dispatcher.ProcessEvent | src/event.c:195-224 | button and key events go to their handlers, crossing events to enter or leave, motion is coalesced to the newest queued event first; the entered client and the moved-over frame end as EnterStep and MotionStep say, and every other event leaves every client unchanged |
| Dispatch.Dispatcher.ProcessPointer | src/event.c:205-214 | enter and leave go to their handlers, the entered client ending as EnterStep says and a leave changing no client; motion drains the queue's motion events and the newest one's frame ends as MotionStep says |

## Left out

- The blocking `select` on the X connection, with its one-second timeout,
  and `JXPending` are not modelled. A pass with an empty queue ends without
  an event where the C code would block. Only the `Signal` call made each
  pass is modelled; the calls made on a select timeout are left out.
- The server grab and `JXSync` are left out. They order requests on the
  wire and do not change the core's state.
- The bodies of the other subsystems' functions are left out (client.c,
  border.c, desktop.c, the tray, the pager and the rest). They are not part
  of this model: each call is an `Effect`, and each answer the core uses is
  a parameter or a `Config` function.
- The values of the `STAT_*`, `BORDER_*`, `BA_*` and `KEY_*` constants are
  defined outside event.c. The model gives them distinct placeholder
  values. The proofs use only that they are distinct single bits, or
  distinct codes.
- The controller callback, which event.c invokes directly at lines 416,
  638, 667, 981 and 1013, is modelled as a `CallController` call. Its body
  is not visible, and its effect on `np->controller` is not modelled.
- `AddClientWindow` is a call with an answer. The client it would create
  is not added to the registry, because its construction lives in client.c.
- Arithmetic on C `int` in the arguments of calls is done on unbounded
  integers, for example `np->x - north` and `x + width`. Only the stores in
  `HandleNetMoveResize` and the click-time difference model the 32-bit
  width.
- `abs` of the most negative `int` is left out. `Border.ClickInterval`
  returns 2^31 there.
- Debug logging (`Debug`, `GetAtomName`) and the shape extension branch of
  `WaitForEvent` are left out, since jwm may be built without the shape
  extension.
- The cursor lookup of `GetFrameCursor` is represented by the border action
  passed to `DefineCursor`.
- The installation of colormaps is left out: `UpdateClientColormap` stands
  for it.
- The keyboard binding table (`GetKey`) is a `Config` function. The active
  client and the dock's answers are parameters.
- `HandleSelectionClear` is modelled inside `Dispatch.Dispatcher.RouteDecided`
  as the dock call and the dock's answer.
- Dispatch.Dispatcher.WaitForEvent: states when the loop stops, which
  events the passes take or drop (every other event stays queued) and what
  each pass decided for its event, not the concatenation of the calls of
  every pass, nor the order of the queued events after the first one
  taken, nor which client each pass found beyond its being the one the
  verdict is computed for. The calls and the new state of a single pass
  are stated by `Pass`.
- Protocol.WinStateStep: the client state is what event.c itself writes.
  `SetClientSticky` (lines 615 and 617) is assumed not to change the
  client, so the no-list bit is written on the status from before the
  message.
- Protocol.NetWmToggleCalls: the shaded test at line 850 reads the status
  from before the message. `SetClientSticky` and `MaximizeClient` (lines
  841-847) are assumed not to change the client.
- Lifecycle.Constrained: `ConstrainSize` (line 447) is assumed to change only
  the width and height; the model takes its result as a size.
- The calls into other subsystems in general are assumed not to change the
  client: the client state in the model is what event.c itself writes.
- Protocol.NetWmStateEffects: bounds the number of calls; which calls each
  action makes is stated by NetWmRemoveCalls, NetWmAddCalls and
  NetWmToggleCalls.

/** The event core as the C code runs it: a dispatcher object that owns the
    registry of managed windows, the pending-event queue, the log of calls
    made, the static double-click record of DispatchBorderButtonEvent and
    the static time of Signal's last run. Each handler updates the nodes in
    place and appends its calls to the log, and is proved to do what the
    step function of its handler states. */
module Dispatch {
  import opened Bits
  import opened XProto
  import opened Options
  import opened Clients
  import opened Context
  import opened Effects
  import opened Registry
  import opened EventQueue
  import opened Protocol
  import opened Lifecycle
  import opened Border
  import opened Routing

  /** A possibly missing node as an optional value. */
  function ViewOf(np: ClientNode?): Option<Client>
    reads np
  {
    if np == null then None else Some(np.View())
  }

  /** The node a handler may change: the one it found, if any. */
  function Node(np: ClientNode?): set<object>
  {
    if np == null then {} else {np}
  }

  /** Whether the unmap of the managed content window w finds a
      DestroyNotify for it in the queue q behind it. */
  predicate DestroyQueued(found: Option<Client>, w: XID, q: seq<XEvent>)
  {
    found.Some? && found.value.window == w && FirstDestroyFor(q, w).Some?
  }

  /** What the switch of WaitForEvent does with one event: the client found
      for its window afterwards and the calls made, from the client
      FindClientByWindow finds before, the queue behind the event and the
      answers of the pass. */
  function RouteStep(found: Option<Client>, ev: XEvent, q: seq<XEvent>, rp: Replies, cfg: Config): Step
  {
    if ev.ConfigureRequest? then ConfigureRequestStep(found, ev, cfg)
    else if ev.MapRequest? then MapRequestStep(found, ev, cfg, rp.swallowMap, rp.addClient)
    else if ev.ClientMessage? then ClientMessageStep(found, ev, cfg)
    else if ev.ColormapNotify? then ColormapStep(found, ev)
    else if ev.UnmapNotify? then UnmapStep(found, ev, DestroyQueued(found, ev.window, q))
    else if ev.PropertyNotify? then Step(found, PropertyEffects(found, ev, cfg.atoms))
    else if ev.Expose? then
      Step(found, if found.Some? && ev.window == found.value.parent then [DrawBorder(found.value.window)] else [])
    else if ev.DestroyNotify? then DestroyStep(found, ev)
    else if ev.SelectionClear? then Step(found, [HandleDockSelectionClear(ev.window)])
    else if ev.ResizeRequest? then Step(found, [HandleDockResizeRequest(ev.window)])
    else if ev.MotionNotify? then Step(found, [SetMousePosition(ev.xRoot, ev.yRoot)])
    else Step(found, [])
  }

  /** Whether the switch of WaitForEvent counts the event as handled. */
  predicate RoutedHandled(found: Option<Client>, ev: XEvent, rp: Replies)
  {
    if AlwaysHandled(ev) then true
    else if ev.PropertyNotify? then PropertyHandled(found)
    else if ev.Expose? then ExposeHandled(found, ev)
    else if ev.DestroyNotify? then DestroyHandled(found, ev, rp.dock)
    else if ev.SelectionClear? || ev.ResizeRequest? then rp.dock
    else false
  }

  /** The switch keeps the client it found as a client, and routes only
      calls that concern the event's own window or the whole desktop. */
  lemma RouteStepKeepsClient(found: Option<Client>, ev: XEvent, q: seq<XEvent>, rp: Replies, cfg: Config)
    ensures RouteStep(found, ev, q, rp, cfg).node.Some? <==> found.Some?
    ensures NeverHandled(ev) ==> !RoutedHandled(found, ev, rp)
    ensures NeverHandled(ev) ==>
              RouteStep(found, ev, q, rp, cfg).effects == if ev.MotionNotify? then [SetMousePosition(ev.xRoot, ev.yRoot)] else []
    ensures AlwaysHandled(ev) ==> RoutedHandled(found, ev, rp)
    ensures ev.PropertyNotify? ==> RoutedHandled(found, ev, rp) == PropertyHandled(found)
    ensures ev.Expose? ==> RoutedHandled(found, ev, rp) == ExposeHandled(found, ev)
    ensures ev.DestroyNotify? ==> RoutedHandled(found, ev, rp) == DestroyHandled(found, ev, rp.dock)
    ensures ev.SelectionClear? || ev.ResizeRequest? ==> RoutedHandled(found, ev, rp) == rp.dock
  {
    RoutingClassesPartition(ev);
    if ev.UnmapNotify? {
      UnmapShape(found, ev, DestroyQueued(found, ev.window, q));
    }
  }

  /** What one pass of the loop decided for the event it took: `routed` is
      the switch's verdict for the client found before the switch, and
      `handled` what is left of it after the fallback's offers. */
  predicate PassDecided(found: Option<Client>, e: XEvent, rp: Replies, routed: bool, handled: bool)
  {
    routed == RoutedHandled(found, e, rp) && handled == HandledAfter(routed, Fallback(routed, rp))
  }

  /** The handled flag of a pass as the event type alone fixes it: the
      always-handled types end handled, and the never-handled ones exactly
      when one of the four subsystems claims them. */
  predicate Grounded(handled: bool, e: XEvent, rp: Replies)
  {
    (AlwaysHandled(e) ==> handled) &&
    (NeverHandled(e) ==> handled == (rp.tray || rp.dialog || rp.swallow || rp.popup))
  }

  /** A pass's decision is grounded in the event's type and the claimants'
      answers. */
  lemma DecidedIsGrounded(found: Option<Client>, e: XEvent, q: seq<XEvent>, rp: Replies, cfg: Config,
                          routed: bool, handled: bool)
    requires PassDecided(found, e, rp, routed, handled)
    ensures Grounded(handled, e, rp)
  {
    RouteStepKeepsClient(found, e, q, rp, cfg);
    FallbackDrops(routed, rp);
  }

  /** What one pass of WaitForEvent did: the event it took off the queue
      (none when the queue was empty), the client FindClientByWindow found
      for it before the switch, the switch's verdict and the verdict after
      the fallback, and the events the pass took out of the queue besides its
      own (the DestroyNotify the unmap look-ahead consumed, if any). */
  datatype PassRecord =
    PassRecord(event: Option<XEvent>, found: Option<Client>, routed: bool, handled: bool, dropped: seq<XEvent>)

  /** A pass record that the switch and the fallback bear out; a pass
      without an event counts as unhandled and takes nothing, and only an
      UnmapNotify takes a second event, the DestroyNotify of its window. */
  predicate PassOk(p: PassRecord, rp: Replies)
  {
    match p.event
    case None => !p.handled && p.dropped == []
    case Some(e) =>
      PassDecided(p.found, e, rp, p.routed, p.handled) && Grounded(p.handled, e, rp) &&
      (p.dropped == [] || (e.UnmapNotify? && p.dropped == [DestroyNotify(e.window)]))
  }

  /** Every record of the log is borne out, pass k having had the answers
      `replies(k)`. */
  predicate LogOk(log: seq<PassRecord>, replies: nat -> Replies)
    decreases |log|
  {
    log == [] || (LogOk(log[..|log| - 1], replies) && PassOk(log[|log| - 1], replies(|log| - 1)))
  }

  /** Every pass of the log took an event that ended handled, with no exit
      asked for: the condition of the do-while held after each of them. */
  predicate AllContinued(log: seq<PassRecord>, replies: nat -> Replies)
    decreases |log|
  {
    log == [] ||
    (AllContinued(log[..|log| - 1], replies) && log[|log| - 1].event.Some? &&
     Continues(log[|log| - 1].handled, replies(|log| - 1).shouldExit))
  }

  /** The events the passes of the log took off the queue, in order. */
  function Taken(log: seq<PassRecord>): (r: seq<XEvent>)
    ensures |r| <= |log|
    decreases |log|
  {
    if log == [] then []
    else Taken(log[..|log| - 1]) + (match log[|log| - 1].event case None => [] case Some(e) => [e])
  }

  /** The events the passes of the log consumed besides their own, in order. */
  function Dropped(log: seq<PassRecord>): (r: seq<XEvent>)
    ensures |log| == 0 ==> r == []
    decreases |log|
  {
    if log == [] then [] else Dropped(log[..|log| - 1]) + log[|log| - 1].dropped
  }

  /** Every event of `all` is either still in `queue` or was consumed by a
      pass of the log, as its own event or by the unmap look-ahead. */
  predicate Accounted(queue: seq<XEvent>, log: seq<PassRecord>, all: multiset<XEvent>)
  {
    multiset(queue) + multiset(Taken(log)) + multiset(Dropped(log)) == all
  }

  /** Every client of `cs` is one of `pool`: no pass registers a client. */
  predicate Among(cs: seq<ClientNode>, pool: seq<ClientNode>)
  {
    forall i :: 0 <= i < |cs| ==> cs[i] in pool
  }

  lemma AmongTrans(a: seq<ClientNode>, b: seq<ClientNode>, c: seq<ClientNode>)
    requires Among(a, b) && Among(b, c)
    ensures Among(a, c)
  {
  }

  /** How a pass record relates the queue before and after the pass: a pass
      takes an event exactly when the queue held one, namely its head, and
      shortens the queue; without one it leaves the queue alone. */
  predicate Took(before: seq<XEvent>, after: seq<XEvent>, p: PassRecord)
  {
    (p.event.None? <==> before == []) &&
    (p.event.None? ==> after == before && p.dropped == []) &&
    (p.event.Some? ==> p.event.value == before[0] && |after| < |before|)
  }

  /** The unmap look-ahead takes out at most the queued DestroyNotify of the
      event's window: what the queue loses besides the head is exactly that. */
  lemma LookAheadTook(e: XEvent, q: seq<XEvent>, after: seq<XEvent>, removes: bool)
    requires removes ==> e.UnmapNotify? && FirstDestroyFor(q, e.window).Some?
    requires after == (if removes then RemoveAt(q, FirstDestroyFor(q, e.window).value) else q)
    ensures var dropped := if after == q then [] else [DestroyNotify(e.window)];
            multiset(after) + multiset{e} + multiset(dropped) == multiset([e] + q) &&
            (dropped == [] || e.UnmapNotify?) && |after| <= |q|
  {
  }

  /** Appending a record that is borne out keeps the log borne out, and
      keeps it continued when the new pass continued the loop. */
  lemma AppendPassLog(log: seq<PassRecord>, p: PassRecord, replies: nat -> Replies)
    requires LogOk(log, replies) && PassOk(p, replies(|log|))
    ensures LogOk(log + [p], replies)
    ensures (log + [p])[..|log|] == log && (log + [p])[|log|] == p
    ensures log != [] ==> (log + [p])[0] == log[0]
    ensures AllContinued(log, replies) && p.event.Some? && Continues(p.handled, replies(|log|).shouldExit) ==>
            AllContinued(log + [p], replies)
  {
    assert (log + [p])[..|log|] == log;
  }

  /** Appending a pass keeps the account of the queue. */
  lemma AppendPassAccount(log: seq<PassRecord>, p: PassRecord, before: seq<XEvent>, after: seq<XEvent>,
                          all: multiset<XEvent>)
    requires Accounted(before, log, all)
    requires Took(before, after, p)
    requires p.event.Some? ==> multiset(after) + multiset{p.event.value} + multiset(p.dropped) == multiset(before)
    ensures Accounted(after, log + [p], all)
    ensures p.event.Some? ==> p.event.value in all
  {
    assert (log + [p])[..|log|] == log;
    assert Dropped(log + [p]) == Dropped(log) + p.dropped;
    if p.event.Some? {
      assert Taken(log + [p]) == Taken(log) + [p.event.value];
    } else {
      assert Taken(log + [p]) == Taken(log);
    }
  }

  /** What the loop of WaitForEvent knows after appending the record `p` of
      one more pass to `log`, the queue having gone from `before` to `after`
      and `q0` being the queue the loop started with: the loop invariant
      holds again when the pass continued the loop, and the results are
      accounted for when it did not. */
  lemma AfterPass(q0: seq<XEvent>, before: seq<XEvent>, after: seq<XEvent>, log: seq<PassRecord>,
                  p: PassRecord, replies: nat -> Replies, log': seq<PassRecord>, n: nat)
    requires |log| + 1 == n && log' == log + [p] && |before| + |log| <= |q0|
    requires LogOk(log, replies) && AllContinued(log, replies)
    requires log == [] ==> before == q0
    requires q0 != [] && log != [] ==> log[0].event == Some(q0[0])
    requires Accounted(before, log, multiset(q0))
    requires Took(before, after, p) && PassOk(p, replies(|log|))
    requires p.event.Some? ==> multiset(after) + multiset{p.event.value} + multiset(p.dropped) == multiset(before)
    ensures |log'| == n && LogOk(log', replies)
    ensures q0 != [] ==> log'[0].event == Some(q0[0])
    ensures Accounted(after, log', multiset(q0))
    ensures p.event.Some? && Continues(p.handled, replies(n - 1).shouldExit) ==>
              AllContinued(log', replies) && |after| + n <= |q0|
    ensures AllContinued(log'[..n - 1], replies) && log'[n - 1] == p
    ensures p.event.Some? ==> p.event.value in q0 && |after| + n <= |q0|
    ensures p.event.None? ==> after == [] && !p.handled && |after| + n <= |q0| + 1
  {
    AppendPassLog(log, p, replies);
    AppendPassAccount(log, p, before, after, multiset(q0));
  }

  /** In a log that is borne out, every event consumed besides the passes'
      own is a DestroyNotify, at most one per pass. */
  lemma {:induction false} DroppedAreDestroys(log: seq<PassRecord>, replies: nat -> Replies)
    requires LogOk(log, replies)
    ensures |Dropped(log)| <= |log|
    ensures forall d :: d in Dropped(log) ==> d.DestroyNotify?
  {
    if log != [] {
      DroppedAreDestroys(log[..|log| - 1], replies);
    }
  }

  /** Each single pass of a log that is borne out is. */
  lemma {:induction false} LogOkAt(log: seq<PassRecord>, replies: nat -> Replies, k: nat)
    requires LogOk(log, replies) && k < |log|
    ensures PassOk(log[k], replies(k))
    ensures log[k].event.Some? ==> Grounded(log[k].handled, log[k].event.value, replies(k))
    ensures log[k].event.None? ==> !log[k].handled
    decreases |log|
  {
    if k < |log| - 1 {
      LogOkAt(log[..|log| - 1], replies, k);
      assert log[..|log| - 1][k] == log[k];
    }
  }

  /** In a run of passes that all continued, each pass took an event that
      was handled, with no exit asked for. */
  lemma {:induction false} AllContinuedAt(log: seq<PassRecord>, replies: nat -> Replies, k: nat)
    requires AllContinued(log, replies) && k < |log|
    ensures log[k].event.Some? && Continues(log[k].handled, replies(k).shouldExit)
    decreases |log|
  {
    if k < |log| - 1 {
      AllContinuedAt(log[..|log| - 1], replies, k);
      assert log[..|log| - 1][k] == log[k];
    }
  }

  /** When every pass took an event, Taken lists exactly those events. */
  lemma {:induction false} TakenAll(log: seq<PassRecord>, replies: nat -> Replies)
    requires AllContinued(log, replies)
    ensures |Taken(log)| == |log|
    ensures forall k :: 0 <= k < |log| ==> log[k].event == Some(Taken(log)[k])
    decreases |log|
  {
    if log != [] {
      var n := |log| - 1;
      TakenAll(log[..n], replies);
      forall k | 0 <= k < |log|
        ensures log[k].event == Some(Taken(log)[k])
      {
        if k < n {
          assert log[..n][k] == log[k];
        }
      }
    }
  }

  class Dispatcher {
    const cfg: Config
    var clients: seq<ClientNode>
    var queue: seq<XEvent>
    var effects: seq<Effect>
    // static state of DispatchBorderButtonEvent
    var lastClickTime: Time
    var lastX: Int32
    var lastY: Int32
    var doubleClickActive: bool
    // static state of Signal
    var last: int

    constructor (cfg: Config, clients: seq<ClientNode>, queue: seq<XEvent>)
      ensures this.cfg == cfg && this.clients == clients && this.queue == queue
      ensures effects == [] && ClickState() == NO_CLICK && last == 0
    {
      this.cfg := cfg;
      this.clients := clients;
      this.queue := queue;
      effects := [];
      lastClickTime, lastX, lastY, doubleClickActive := 0, 0, 0, false;
      last := 0;
    }

    /** The double-click record as a value. */
    function ClickState(): ClickRecord
      reads this
    {
      ClickRecord(lastClickTime, lastX, lastY, doubleClickActive)
    }

    /** The node FindClientByWindow finds for w, as a value. */
    function ByWindow(w: XID): Option<Client>
      reads this`clients, clients
    {
      ViewOf(FindClientByWindow(clients, w))
    }

    /** The node FindClientByParent finds for w, as a value. */
    function ByParent(w: XID): Option<Client>
      reads this`clients, clients
    {
      ViewOf(FindClientByParent(clients, w))
    }

    method Emit(es: seq<Effect>)
      modifies this`effects
      ensures effects == old(effects) + es
    {
      effects := effects + es;
    }

    /** `if(np->controller) (np->controller)(arg);` */
    method CancelController(np: ClientNode, arg: int)
      modifies this`effects
      ensures effects == old(effects) + Controller(np.View(), arg)
    {
      if np.controller {
        Emit([CallController(np.window, arg)]);
      }
    }

    // -------------------------------------------------------------------
    // Signal

    method Signal(now: int, mouseX: int, mouseY: int)
      modifies this`last, this`effects
      ensures var s := SignalStep(old(last), now, mouseX, mouseY, cfg);
              last == s.last && effects == old(effects) + s.effects
    {
      if cfg.timeDifference(now, last) < MIN_TIME_DELTA {
        return;
      }
      last := now;
      Emit(Callbacks(now, mouseX, mouseY));
    }

    // -------------------------------------------------------------------
    // HandleConfigureRequest

    /** The four `if((event->value_mask & CW...) && ...)` updates: each
        selected field that differs is copied into the node. */
    method CopyRequest(np: ClientNode, ev: XEvent) returns (changed: bool)
      requires ev.ConfigureRequest?
      modifies np
      ensures np.View() == Requested(old(np.View()), ev)
      ensures changed == Changes(old(np.View()), ev)
    {
      changed := false;
      if Bit(ev.valueMask, CW_WIDTH_BIT) && ev.width != np.width {
        np.width := ev.width;
        changed := true;
      }
      if Bit(ev.valueMask, CW_HEIGHT_BIT) && ev.height != np.height {
        np.height := ev.height;
        changed := true;
      }
      if Bit(ev.valueMask, CW_X_BIT) && ev.x != np.x {
        np.x := ev.x;
        changed := true;
      }
      if Bit(ev.valueMask, CW_Y_BIT) && ev.y != np.y {
        np.y := ev.y;
        changed := true;
      }
    }

    method HandleConfigureRequest(ev: XEvent)
      requires ev.ConfigureRequest?
      modifies this`effects, Node(FindClientByWindow(clients, ev.window))
      ensures var r := ConfigureRequestStep(old(ByWindow(ev.window)), ev, cfg);
              effects == old(effects) + r.effects && ByWindow(ev.window) == r.node
    {
      var np := FindClientByWindow(clients, ev.window);
      if np != null && np.window == ev.window {
        ghost var c := np.View();
        ghost var e0 := effects;
        CancelController(np, 0);
        var changed := CopyRequest(np, ev);
        if !changed {
          assert ConfigureRequestStep(Some(c), ev, cfg) == Step(Some(c), Controller(c, 0));
          return;
        }
        var b := cfg.borderSize(np.View());
        var size := cfg.constrainSize(np.View());
        np.width, np.height := size.width, size.height;
        ghost var n := np.View();
        assert n == Constrained(c, ev, cfg);
        Emit([ConfigureWindow(np.parent, ev.valueMask, np.x, np.y, np.width + b.east + b.west,
                              np.height + b.north + b.south, 0, np.parent, ABOVE),
              ConfigureWindow(np.window, ev.valueMask, b.west, b.north, np.width, np.height,
                              0, np.parent, ABOVE)]);
        assert effects == e0 + (Controller(c, 0) + FrameAndContent(c, n, b, ev.valueMask));
      } else {
        Emit([ConfigureWindow(ev.window, ev.valueMask, ev.x, ev.y,
                              Min(ev.width, cfg.rootWidth), Min(ev.height, cfg.rootHeight),
                              ev.borderWidth, ev.above, ev.detail)]);
      }
    }

    // -------------------------------------------------------------------
    // HandleExpose, HandlePropertyNotify, HandleColormapChange

    method HandleExpose(ev: XEvent) returns (handled: bool)
      requires ev.Expose?
      modifies this`effects
      ensures handled == ExposeHandled(ByWindow(ev.window), ev)
      ensures var np := FindClientByWindow(clients, ev.window);
              effects == old(effects) +
                         if np != null && ev.window == np.parent then [DrawBorder(np.window)] else []
    {
      var np := FindClientByWindow(clients, ev.window);
      if np != null {
        if ev.window == np.parent {
          Emit([DrawBorder(np.window)]);
          return true;
        } else if ev.window == np.window && Has(np.status, STAT_WMDIALOG) {
          return false;
        } else {
          return true;
        }
      } else {
        return ev.count != 0;
      }
    }

    /** The switch on the atom: the re-read it triggers, and whether the
        property is one the border or taskbar shows. */
    method RereadProperty(np: ClientNode, atom: XID) returns (changed: bool)
      modifies this`effects
      ensures changed == Shown(ClassifyProperty(cfg.atoms, atom))
      ensures effects == old(effects) + Reread(ClassifyProperty(cfg.atoms, atom), np.window)
    {
      var a := cfg.atoms;
      changed := false;
      if atom == XA_WM_NAME {
        Emit([ReadWMName(np.window)]);
        changed := true;
      } else if atom == XA_WM_NORMAL_HINTS {
        Emit([ReadWMNormalHints(np.window)]);
        changed := true;
      } else if atom == XA_WM_HINTS || atom == XA_WM_ICON_NAME || atom == XA_WM_CLIENT_MACHINE {
      } else if atom == a.wmColormapWindows {
        Emit([ReadWMColormaps(np.window), UpdateClientColormap(np.window)]);
      } else if atom == a.netWmIcon {
        Emit([LoadIcon(np.window)]);
        changed := true;
      } else if atom == a.netWmName {
        Emit([ReadWMName(np.window)]);
        changed := true;
      } else if atom == a.netWmStrutPartial {
        Emit([ReadClientStrut(np.window)]);
      } else if atom == a.netWmStrut {
        Emit([ReadClientStrut(np.window)]);
      }
    }

    method HandlePropertyNotify(ev: XEvent) returns (handled: bool)
      requires ev.PropertyNotify?
      modifies this`effects
      ensures handled == PropertyHandled(ByWindow(ev.window))
      ensures effects == old(effects) + PropertyEffects(ByWindow(ev.window), ev, cfg.atoms)
    {
      var np := FindClientByWindow(clients, ev.window);
      if np != null {
        var changed := RereadProperty(np, ev.atom);
        if changed {
          Emit([DrawBorder(np.window), UpdateTaskBar, UpdatePager]);
        }
        return !Has(np.status, STAT_WMDIALOG);
      }
      return true;
    }

    method HandleColormapChange(ev: XEvent)
      requires ev.ColormapNotify?
      modifies this`effects, Node(FindClientByWindow(clients, ev.window))
      ensures var r := ColormapStep(old(ByWindow(ev.window)), ev);
              effects == old(effects) + r.effects && ByWindow(ev.window) == r.node
    {
      if ev.isNew {
        var np := FindClientByWindow(clients, ev.window);
        if np != null {
          np.cmap := ev.colormap;
          Emit([UpdateClientColormap(np.window)]);
        }
      }
    }

    // -------------------------------------------------------------------
    // HandleClientMessage

    /** The sticky part of _WIN_STATE. */
    method ApplySticky(np: ClientNode, mask: Long, flags: Long)
      modifies this`effects
      ensures effects == old(effects) +
                (if Bit(mask, WIN_STATE_STICKY_BIT) then [SetClientSticky(np.window, Bit(flags, WIN_STATE_STICKY_BIT))] else [])
    {
      if Bit(mask, WIN_STATE_STICKY_BIT) {
        if Bit(flags, WIN_STATE_STICKY_BIT) {
          Emit([SetClientSticky(np.window, true)]);
        } else {
          Emit([SetClientSticky(np.window, false)]);
        }
      }
    }

    /** The hidden part of _WIN_STATE. */
    method ApplyHidden(np: ClientNode, mask: Long, flags: Long)
      modifies this`effects, np
      ensures np.View() == old(np.View()).(status := HiddenStatus(old(np.status), Bit(mask, WIN_STATE_HIDDEN_BIT), Bit(flags, WIN_STATE_HIDDEN_BIT)))
      ensures effects == old(effects) + (if Bit(mask, WIN_STATE_HIDDEN_BIT) then [UpdateTaskBar, UpdatePager] else [])
    {
      if Bit(mask, WIN_STATE_HIDDEN_BIT) {
        if Bit(flags, WIN_STATE_HIDDEN_BIT) {
          np.status := SetFlag(np.status, STAT_NOLIST);
        } else {
          np.status := ClearFlag(np.status, STAT_NOLIST);
        }
        Emit([UpdateTaskBar, UpdatePager]);
      }
    }

    method HandleWinState(np: ClientNode, mask: Long, flags: Long)
      modifies this`effects, np
      ensures var r := WinStateStep(old(np.View()), mask, flags);
              effects == old(effects) + r.effects && Some(np.View()) == r.node
    {
      ApplySticky(np, mask, flags);
      ApplyHidden(np, mask, flags);
    }

    method HandleChangeState(np: ClientNode, state: Long)
      modifies this`effects
      ensures effects == old(effects) + Controller(np.View(), 0) + ChangeStateEffects(np.window, state)
    {
      CancelController(np, 0);
      if state == WITHDRAWN_STATE {
        Emit([SetClientWithdrawn(np.window)]);
      } else if state == ICONIC_STATE {
        Emit([MinimizeClient(np.window)]);
      } else if state == NORMAL_STATE {
        Emit([RestoreClient(np.window, true)]);
      }
    }

    method HandleNetWmDesktop(np: ClientNode, d: Long)
      modifies this`effects, np
      ensures var r := NetWmDesktopStep(old(np.View()), d, cfg.desktopCount);
              effects == old(effects) + r.effects && Some(np.View()) == r.node
    {
      if d == -1 {
        Emit([SetClientSticky(np.window, true)]);
      } else {
        CancelController(np, 0);
        if d >= 0 && d < cfg.desktopCount {
          np.status := ClearFlag(np.status, STAT_STICKY);
          Emit([SetClientDesktop(np.window, d)]);
        }
      }
    }

    /** The `flags = event->data.l[0] >> 8` tests of HandleNetMoveResize:
        each selected field is taken from the message, the others from the
        node. */
    method RequestedGeometry(data: MessageData, np: ClientNode) returns (g: Geometry)
      ensures g == MoveResizeRequest(data, GeometryOf(np.View()))
    {
      var flags := ShiftRight8(data[0]);
      var x: int, y: int, width: int, height: int := np.x, np.y, np.width, np.height;
      if Bit(flags, 0) {
        x := data[1];
      }
      if Bit(flags, 1) {
        y := data[2];
      }
      if Bit(flags, 2) {
        width := data[3];
      }
      if Bit(flags, 3) {
        height := data[4];
      }
      BitOfShift(data[0], 0);
      BitOfShift(data[0], 1);
      BitOfShift(data[0], 2);
      BitOfShift(data[0], 3);
      g := Geometry(x, y, width, height);
    }

    method HandleNetMoveResize(ev: XEvent, np: ClientNode)
      requires ev.ClientMessage?
      modifies this`effects, np
      ensures var r := NetMoveResizeStep(old(np.View()), ev.data, cfg);
              effects == old(effects) + r.effects && Some(np.View()) == r.node
    {
      var g := RequestedGeometry(ev.data, np);
      var b := cfg.borderSize(np.View());
      var d := cfg.gravityDelta(np.View());
      np.x, np.y, np.width, np.height := Wrap32(g.x - d.dx), Wrap32(g.y - d.dy), Wrap32(g.width), Wrap32(g.height);
      Emit([MoveResizeWindow(np.parent, np.x - b.west, np.y - b.north,
                             np.width + b.east + b.west, np.height + b.north + b.south),
            MoveResizeWindow(np.window, b.west, b.north, np.width, np.height),
            WriteState(np.window), SendConfigureEvent(np.window)]);
    }

    /** The remove branch of HandleNetWMState. */
    method RemoveStates(np: ClientNode, sel: StateSelection)
      modifies this`effects
      ensures effects == old(effects) + StatesRemoved(np.View(), sel)
    {
      if sel.stick {
        Emit([SetClientSticky(np.window, false)]);
      }
      if sel.maximize && Has(np.status, STAT_MAXIMIZED) {
        Emit([MaximizeClient(np.window)]);
      }
      if sel.shade {
        Emit([UnshadeClient(np.window)]);
      }
    }

    /** The add branch of HandleNetWMState. */
    method AddStates(np: ClientNode, sel: StateSelection)
      modifies this`effects
      ensures effects == old(effects) + StatesAdded(np.View(), sel)
    {
      if sel.stick {
        Emit([SetClientSticky(np.window, true)]);
      }
      if sel.maximize && !Has(np.status, STAT_MAXIMIZED) {
        Emit([MaximizeClient(np.window)]);
      }
      if sel.shade {
        Emit([ShadeClient(np.window)]);
      }
    }

    /** The toggle branch of HandleNetWMState. */
    method ToggleStates(np: ClientNode, sel: StateSelection)
      modifies this`effects
      ensures effects == old(effects) + StatesToggled(np.View(), sel)
    {
      if sel.stick {
        if Has(np.status, STAT_STICKY) {
          Emit([SetClientSticky(np.window, false)]);
        } else {
          Emit([SetClientSticky(np.window, true)]);
        }
      }
      if sel.maximize {
        Emit([MaximizeClient(np.window)]);
      }
      if sel.shade {
        if Has(np.status, STAT_SHADED) {
          Emit([UnshadeClient(np.window)]);
        } else {
          Emit([ShadeClient(np.window)]);
        }
      }
    }

    method HandleNetWMState(ev: XEvent, np: ClientNode)
      requires ev.ClientMessage?
      modifies this`effects
      ensures effects == old(effects) + NetWmStateEffects(np.View(), ev.data[0], SelectedStates(ev.data, cfg.atoms))
    {
      var sel := ScanStateAtoms(ev.data, cfg.atoms);
      var action := ev.data[0];
      if action == 0 {
        RemoveStates(np, sel);
      } else if action == 1 {
        AddStates(np, sel);
      } else if action == 2 {
        ToggleStates(np, sel);
      }
    }

    /** The part of HandleClientMessage for a managed window. */
    method HandleManagedMessage(ev: XEvent, np: ClientNode)
      requires ev.ClientMessage?
      modifies this`effects, np
      ensures var r := ManagedMessageStep(old(np.View()), ev.messageType, ev.data, cfg);
              effects == old(effects) + r.effects && Some(np.View()) == r.node
    {
      var a := cfg.atoms;
      var t := ev.messageType;
      if t == a.winState {
        HandleWinState(np, ev.data[0], ev.data[1]);
      } else if t == a.winLayer {
        Emit([SetClientLayer(np.window, ev.data[0])]);
      } else if t == a.wmChangeState {
        HandleChangeState(np, ev.data[0]);
      } else if t == a.netActiveWindow {
        Emit([RestoreClient(np.window, true), FocusClient(np.window)]);
      } else if t == a.netWmDesktop {
        HandleNetWmDesktop(np, ev.data[0]);
      } else if t == a.netCloseWindow {
        Emit([DeleteClient(np.window)]);
      } else if t == a.netMoveResizeWindow {
        HandleNetMoveResize(ev, np);
      } else if t == a.netWmState {
        HandleNetWMState(ev, np);
      }
    }

    /** The part of HandleClientMessage for the root window. */
    method HandleRootMessage(ev: XEvent)
      requires ev.ClientMessage?
      modifies this`effects
      ensures effects == old(effects) + RootMessageEffects(cfg.atoms, ev.messageType, ev.data)
    {
      var a := cfg.atoms;
      if ev.messageType == a.jwmRestart {
        Emit([Restart]);
      } else if ev.messageType == a.jwmExit {
        Emit([Exit]);
      } else if ev.messageType == a.netCurrentDesktop {
        Emit([ChangeDesktop(ev.data[0])]);
      }
    }

    method HandleClientMessage(ev: XEvent)
      requires ev.ClientMessage?
      modifies this`effects, Node(FindClientByWindow(clients, ev.window))
      ensures var r := ClientMessageStep(old(ByWindow(ev.window)), ev, cfg);
              effects == old(effects) + r.effects && ByWindow(ev.window) == r.node
    {
      var np := FindClientByWindow(clients, ev.window);
      if np != null {
        HandleManagedMessage(ev, np);
      } else if ev.window == cfg.rootWindow {
        HandleRootMessage(ev);
      } else if ev.messageType == cfg.atoms.netSystemTrayOpcode {
        Emit([HandleDockEvent(ev.window)]);
      }
    }

    // -------------------------------------------------------------------
    // HandleMapRequest, HandleUnmapNotify, HandleDestroyNotify

    /** The branch of HandleMapRequest for a window not yet managed. */
    method MapNewWindow(w: XID, added: bool)
      modifies this`effects
      ensures effects == old(effects) + [AddClientWindow(w)] +
                         (if added then FocusOnClick(cfg, w) else [MapWindow(w)])
    {
      Emit([AddClientWindow(w)]);
      if added {
        Emit(FocusOnClick(cfg, w));
      } else {
        Emit([MapWindow(w)]);
      }
    }

    /** The branch of HandleMapRequest for a managed window that is not mapped. */
    method MapManaged(np: ClientNode)
      modifies this`effects, np
      ensures np.View() == old(np.View()).(status := MappedStatus(old(np.status)))
      ensures effects == old(effects) + [MapWindow(np.window), MapWindow(np.parent), RaiseClient(np.window)] +
                         FocusOnClick(cfg, np.window) + [UpdateTaskBar, UpdatePager]
    {
      np.status := SetFlag(np.status, STAT_MAPPED);
      np.status := ClearFlag(np.status, STAT_MINIMIZED);
      np.status := ClearFlag(np.status, STAT_SDESKTOP);
      Emit([MapWindow(np.window), MapWindow(np.parent), RaiseClient(np.window)]);
      Emit(FocusOnClick(cfg, np.window));
      Emit([UpdateTaskBar, UpdatePager]);
    }

    /** HandleMapRequest after CheckSwallowMap has declined the window;
        `added` is the answer of AddClientWindow. */
    method MapUnswallowedWindow(np: ClientNode?, w: XID, added: bool)
      modifies this`effects, Node(np)
      ensures var s := MapUnswallowed(old(ViewOf(np)), w, cfg, added);
              effects == old(effects) + s.effects && ViewOf(np) == s.node
    {
      if np == null {
        MapNewWindow(w, added);
      } else if !Has(np.status, STAT_MAPPED) {
        MapManaged(np);
      }
      Emit([RestackClients]);
    }

    /** `swallowed` and `added` are the answers of CheckSwallowMap and
        AddClientWindow. */
    method HandleMapRequest(ev: XEvent, swallowed: bool, added: bool)
      requires ev.MapRequest?
      modifies this`effects, Node(FindClientByWindow(clients, ev.window))
      ensures var r := MapRequestStep(old(ByWindow(ev.window)), ev, cfg, swallowed, added);
              effects == old(effects) + r.effects && ByWindow(ev.window) == r.node
    {
      var np := FindClientByWindow(clients, ev.window);
      Emit([CheckSwallowMap(ev.window)]);
      if !swallowed {
        MapUnswallowedWindow(np, ev.window, added);
      }
    }

    /** `dock` is the answer of HandleDockDestroy. A managed content window
        is removed from the registry. */
    method HandleDestroyNotify(ev: XEvent, dock: bool) returns (handled: bool)
      requires ev.DestroyNotify?
      modifies this`effects, this`clients
      ensures var np := FindClientByWindow(old(clients), ev.window);
              var r := DestroyStep(old(ViewOf(FindClientByWindow(clients, ev.window))), ev);
              effects == old(effects) + r.effects &&
              handled == DestroyHandled(old(ViewOf(FindClientByWindow(clients, ev.window))), ev, dock) &&
              clients == if np != null && np.window == ev.window then Without(old(clients), np) else old(clients)
      ensures forall i :: 0 <= i < |clients| ==> clients[i] in old(clients)
    {
      var np := FindClientByWindow(clients, ev.window);
      if np != null && np.window == ev.window {
        CancelController(np, 1);
        Emit([RemoveClient(np.window)]);
        clients := Without(clients, np);
        return true;
      } else if np == null {
        Emit([HandleDockDestroy(ev.window)]);
        return dock;
      }
      return false;
    }

    /** The unmap of a managed content window with no DestroyNotify queued:
        the controller is told the window is gone and a mapped window loses
        STAT_MAPPED, has its frame unmapped and its state written. */
    method UnmapManaged(np: ClientNode)
      modifies this`effects, np
      ensures var c := old(np.View());
              np.View() == (if Has(c.status, STAT_MAPPED) then c.(status := ClearFlag(c.status, STAT_MAPPED)) else c) &&
              effects == old(effects) + Controller(c, 1) +
                         (if Has(c.status, STAT_MAPPED)
                          then [UnmapWindow(c.parent), WriteState(c.window), UpdateTaskBar, UpdatePager] else [])
    {
      CancelController(np, 1);
      if Has(np.status, STAT_MAPPED) {
        np.status := ClearFlag(np.status, STAT_MAPPED);
        Emit([UnmapWindow(np.parent), WriteState(np.window), UpdateTaskBar, UpdatePager]);
      }
    }

    /** The look-ahead for a queued DestroyNotify takes that event out of the
        queue and handles it instead of the unmap. */
    method HandleUnmapNotify(ev: XEvent, dock: bool)
      requires ev.UnmapNotify?
      modifies this`effects, this`clients, this`queue, Node(FindClientByWindow(clients, ev.window))
      ensures var np := FindClientByWindow(old(clients), ev.window);
              var look := FirstDestroyFor(old(queue), ev.window);
              var queued := np != null && np.window == ev.window && look.Some?;
              var r := UnmapStep(old(ViewOf(FindClientByWindow(clients, ev.window))), ev, queued);
              effects == old(effects) + r.effects &&
              ViewOf(np) == r.node &&
              queue == (if queued then RemoveAt(old(queue), look.value) else old(queue)) &&
              clients == (if queued then Without(old(clients), np) else old(clients))
      ensures |queue| <= old(|queue|)
      ensures forall i :: 0 <= i < |clients| ==> clients[i] in old(clients)
    {
      var np := FindClientByWindow(clients, ev.window);
      if np != null && np.window == ev.window {
        var look := FirstDestroyFor(queue, np.window);
        if look.Some? {
          queue := RemoveAt(queue, look.value);
          var _ := HandleDestroyNotify(DestroyNotify(np.window), dock);
          return;
        }
        UnmapManaged(np);
      } else if np == null {
        Emit([HandleDockDestroy(ev.window)]);
      }
    }

    // -------------------------------------------------------------------
    // WaitForEvent

    /** The cases of the switch of WaitForEvent whose handler returns
        nothing and leaves the queue and the registry alone: the event
        always counts as handled. */
    method RouteRequest(ev: XEvent, rp: Replies) returns (handled: bool)
      requires ev.ConfigureRequest? || ev.MapRequest? || ev.ClientMessage? || ev.ColormapNotify?
      modifies this`effects, Node(FindClientByWindow(clients, ev.window))
      ensures var r := RouteStep(old(ByWindow(ev.window)), ev, old(queue), rp, cfg);
              effects == old(effects) + r.effects && ViewOf(old(FindClientByWindow(clients, ev.window))) == r.node
      ensures handled == RoutedHandled(old(ByWindow(ev.window)), ev, rp)
      ensures clients == old(clients) && queue == old(queue)
    {
      if ev.ConfigureRequest? {
        HandleConfigureRequest(ev);
      } else if ev.MapRequest? {
        HandleMapRequest(ev, rp.swallowMap, rp.addClient);
      } else if ev.ClientMessage? {
        HandleClientMessage(ev);
      } else {
        HandleColormapChange(ev);
      }
      handled := true;
    }

    /** The UnmapNotify case of the switch of WaitForEvent: the look-ahead
        may shorten the queue and the registry. */
    method RouteUnmap(ev: XEvent, rp: Replies) returns (handled: bool)
      requires ev.UnmapNotify?
      modifies this`effects, this`clients, this`queue, Node(FindClientByWindow(clients, ev.window))
      ensures var r := RouteStep(old(ByWindow(ev.window)), ev, old(queue), rp, cfg);
              effects == old(effects) + r.effects && ViewOf(old(FindClientByWindow(clients, ev.window))) == r.node
      ensures handled == RoutedHandled(old(ByWindow(ev.window)), ev, rp)
      ensures var np := old(FindClientByWindow(clients, ev.window));
              var look := FirstDestroyFor(old(queue), ev.window);
              var removed := np != null && np.window == ev.window && (ev.DestroyNotify? || (ev.UnmapNotify? && look.Some?));
              clients == (if removed then Without(old(clients), np) else old(clients)) &&
              queue == (if ev.UnmapNotify? && removed then RemoveAt(old(queue), look.value) else old(queue))
      ensures |queue| <= old(|queue|)
      ensures forall i :: 0 <= i < |clients| ==> clients[i] in old(clients)
    {
      HandleUnmapNotify(ev, rp.dock);
      handled := true;
    }

    /** The cases of the switch of WaitForEvent whose handler decides
        whether the event counts as handled. */
    method RouteDecided(ev: XEvent, rp: Replies) returns (handled: bool)
      requires HandlerDecides(ev)
      modifies this`effects, this`clients
      ensures var r := RouteStep(old(ByWindow(ev.window)), ev, old(queue), rp, cfg);
              effects == old(effects) + r.effects && ViewOf(old(FindClientByWindow(clients, ev.window))) == r.node
      ensures handled == RoutedHandled(old(ByWindow(ev.window)), ev, rp)
      ensures var np := old(FindClientByWindow(clients, ev.window));
              clients == (if np != null && np.window == ev.window && ev.DestroyNotify? then Without(old(clients), np)
                          else old(clients)) && queue == old(queue)
      ensures forall i :: 0 <= i < |clients| ==> clients[i] in old(clients)
    {
      if ev.PropertyNotify? {
        handled := HandlePropertyNotify(ev);
      } else if ev.Expose? {
        handled := HandleExpose(ev);
      } else if ev.DestroyNotify? {
        handled := HandleDestroyNotify(ev, rp.dock);
      } else if ev.SelectionClear? {
        Emit([HandleDockSelectionClear(ev.window)]);
        handled := rp.dock;
      } else {
        Emit([HandleDockResizeRequest(ev.window)]);
        handled := rp.dock;
      }
    }

    /** The cases of the switch that call no handler: the pointer cache for
        motion, nothing for the rest. */
    method RouteRest(ev: XEvent, rp: Replies) returns (handled: bool)
      requires !(ev.ConfigureRequest? || ev.MapRequest? || ev.ClientMessage? || ev.ColormapNotify?)
      requires !ev.UnmapNotify? && !HandlerDecides(ev)
      modifies this`effects
      ensures var r := RouteStep(old(ByWindow(ev.window)), ev, old(queue), rp, cfg);
              effects == old(effects) + r.effects && ViewOf(old(FindClientByWindow(clients, ev.window))) == r.node
      ensures handled == RoutedHandled(old(ByWindow(ev.window)), ev, rp)
      ensures clients == old(clients) && queue == old(queue)
    {
      if ev.MotionNotify? {
        Emit([SetMousePosition(ev.xRoot, ev.yRoot)]);
        handled := false;
      } else {
        handled := AlwaysHandled(ev);
      }
    }

    /** The switch of WaitForEvent for one event, with the collaborators'
        answers of this pass. */
    method Route(ev: XEvent, rp: Replies) returns (handled: bool)
      modifies this`effects, this`clients, this`queue, Node(FindClientByWindow(clients, ev.window))
      ensures var r := RouteStep(old(ByWindow(ev.window)), ev, old(queue), rp, cfg);
              effects == old(effects) + r.effects && ViewOf(old(FindClientByWindow(clients, ev.window))) == r.node
      ensures handled == RoutedHandled(old(ByWindow(ev.window)), ev, rp)
      ensures var np := old(FindClientByWindow(clients, ev.window));
              var look := FirstDestroyFor(old(queue), ev.window);
              var removed := np != null && np.window == ev.window && (ev.DestroyNotify? || (ev.UnmapNotify? && look.Some?));
              clients == (if removed then Without(old(clients), np) else old(clients)) &&
              queue == (if ev.UnmapNotify? && removed then RemoveAt(old(queue), look.value) else old(queue))
      ensures |queue| <= old(|queue|)
      ensures forall i :: 0 <= i < |clients| ==> clients[i] in old(clients)
      ensures AlwaysHandled(ev) ==> handled
      ensures NeverHandled(ev) ==> !handled
      ensures ev.PropertyNotify? ==> handled == PropertyHandled(old(ByWindow(ev.window)))
      ensures ev.Expose? ==> handled == ExposeHandled(old(ByWindow(ev.window)), ev)
      ensures ev.DestroyNotify? ==> handled == DestroyHandled(old(ByWindow(ev.window)), ev, rp.dock)
      ensures ev.SelectionClear? || ev.ResizeRequest? ==> handled == rp.dock
      ensures ev.MotionNotify? ==> effects == old(effects) + [SetMousePosition(ev.xRoot, ev.yRoot)]
      ensures NeverHandled(ev) && !ev.MotionNotify? ==> effects == old(effects)
    {
      RouteStepKeepsClient(ByWindow(ev.window), ev, queue, rp, cfg);
      if ev.ConfigureRequest? || ev.MapRequest? || ev.ClientMessage? || ev.ColormapNotify? {
        handled := RouteRequest(ev, rp);
      } else if ev.UnmapNotify? {
        handled := RouteUnmap(ev, rp);
      } else if HandlerDecides(ev) {
        handled := RouteDecided(ev, rp);
      } else {
        handled := RouteRest(ev, rp);
      }
    }

    /** The four `if(!handled)` offers after the switch. */
    method OfferUnhandled(routed: bool, rp: Replies) returns (handled: bool)
      modifies this`effects
      ensures effects == old(effects) + Fallback(routed, rp).effects
      ensures handled == HandledAfter(routed, Fallback(routed, rp))
    {
      handled := routed;
      if !handled {
        Emit([Offer(Tray)]);
        handled := rp.tray;
      }
      if !handled {
        Emit([Offer(Dialog)]);
        handled := rp.dialog;
      }
      if !handled {
        Emit([Offer(Swallow)]);
        handled := rp.swallow;
      }
      if !handled {
        Emit([Offer(Popup)]);
        handled := rp.popup;
      }
    }

    /** The switch for one event taken off the queue, then the fallback's
        offers. */
    method RouteAndOffer(e: XEvent, rp: Replies) returns (routed: bool, handled: bool)
      modifies this`effects, this`clients, this`queue, Node(FindClientByWindow(clients, e.window))
      ensures var found := old(ByWindow(e.window));
              var r := RouteStep(found, e, old(queue), rp, cfg);
              routed == RoutedHandled(found, e, rp) &&
              effects == old(effects) + r.effects + Fallback(routed, rp).effects &&
              ViewOf(old(FindClientByWindow(clients, e.window))) == r.node
      ensures handled == HandledAfter(routed, Fallback(routed, rp))
      ensures var f := Fallback(routed, rp).effects;
              |effects| >= |f| && effects[|effects| - |f|..] == f
      ensures var np := old(FindClientByWindow(clients, e.window));
              var look := FirstDestroyFor(old(queue), e.window);
              var removed := np != null && np.window == e.window && (e.DestroyNotify? || (e.UnmapNotify? && look.Some?));
              clients == (if removed then Without(old(clients), np) else old(clients)) &&
              queue == (if e.UnmapNotify? && removed then RemoveAt(old(queue), look.value) else old(queue))
      ensures |queue| <= old(|queue|)
      ensures forall i :: 0 <= i < |clients| ==> clients[i] in old(clients)
    {
      routed := Route(e, rp);
      handled := OfferUnhandled(routed, rp);
    }

    /** One pass of the do-while loop: Signal, the next event, the switch and
        the fallback. With the queue empty the pass ends without an event
        (where the C code waits in select). */
    method Pass(rp: Replies) returns (ev: Option<XEvent>, routed: bool, handled: bool)
      modifies this`effects, this`clients, this`queue, this`last,
               if queue == [] then {} else Node(FindClientByWindow(clients, queue[0].window))
      ensures var s := SignalStep(old(last), rp.now, rp.mouseX, rp.mouseY, cfg);
              ev.None? ==> effects == old(effects) + s.effects
      ensures ev.None? <==> old(queue) == []
      ensures ev.None? ==> queue == old(queue) && !handled
      ensures ev.Some? ==> ev.value == old(queue)[0] && |queue| < old(|queue|)
      ensures ev.Some? ==>
                var s := SignalStep(old(last), rp.now, rp.mouseX, rp.mouseY, cfg);
                var found := old(ByWindow(ev.value.window));
                var r := RouteStep(found, ev.value, old(queue)[1..], rp, cfg);
                routed == RoutedHandled(found, ev.value, rp) &&
                effects == old(effects) + s.effects + r.effects + Fallback(routed, rp).effects &&
                ViewOf(old(FindClientByWindow(clients, ev.value.window))) == r.node
      ensures ev.Some? ==> handled == HandledAfter(routed, Fallback(routed, rp))
      ensures last == SignalStep(old(last), rp.now, rp.mouseX, rp.mouseY, cfg).last
      ensures ev.None? ==> clients == old(clients)
      ensures ev.Some? ==>
                var q := old(queue)[1..];
                var np := old(FindClientByWindow(clients, ev.value.window));
                var look := FirstDestroyFor(q, ev.value.window);
                var removed := np != null && np.window == ev.value.window &&
                               (ev.value.DestroyNotify? || (ev.value.UnmapNotify? && look.Some?));
                clients == (if removed then Without(old(clients), np) else old(clients)) &&
                queue == (if ev.value.UnmapNotify? && removed then RemoveAt(q, look.value) else q)
      ensures ev.Some? ==> multiset(queue) + multiset{ev.value} <= multiset(old(queue))
      ensures forall i :: 0 <= i < |clients| ==> clients[i] in old(clients)
    {
      Signal(rp.now, rp.mouseX, rp.mouseY);
      if queue == [] {
        return None, false, false;
      }
      var e := queue[0];
      queue := queue[1..];
      ghost var np, q := FindClientByWindow(clients, e.window), queue;
      assert np == old(FindClientByWindow(clients, e.window));
      assert ByWindow(e.window) == old(ByWindow(e.window));
      assert old(queue) == [e] + q;
      routed, handled := RouteAndOffer(e, rp);
      ev := Some(e);
    }

    /** A pass as the loop of WaitForEvent sees it: which event left the
        queue, the record of what became of it, and that every event the
        queue lost is the pass's own or one it dropped. */
    method NextPass(rp: Replies) returns (ev: Option<XEvent>, handled: bool, ghost p: PassRecord)
      modifies this`effects, this`clients, this`queue, this`last,
               if queue == [] then {} else Node(FindClientByWindow(clients, queue[0].window))
      ensures Took(old(queue), queue, p)
      ensures ev.Some? ==> multiset(queue) + multiset{ev.value} + multiset(p.dropped) == multiset(old(queue))
      ensures p.event == ev && p.handled == handled && PassOk(p, rp)
      ensures ev.Some? ==> p.found == old(ByWindow(ev.value.window))
      ensures Among(clients, old(clients))
    {
      ghost var found := if queue == [] then None else ByWindow(queue[0].window);
      ghost var q := if queue == [] then [] else queue[1..];
      ghost var np := if queue == [] then null else FindClientByWindow(clients, queue[0].window);
      assert queue != [] ==> queue == [queue[0]] + q;
      var routed;
      ev, routed, handled := Pass(rp);
      if ev.Some? {
        DecidedIsGrounded(found, ev.value, q, rp, cfg, routed, handled);
        LookAheadTook(ev.value, q, queue, np != null && np.window == ev.value.window && ev.value.UnmapNotify? &&
                                          FirstDestroyFor(q, ev.value.window).Some?);
        ghost var dropped := if queue == q then [] else [DestroyNotify(ev.value.window)];
        p := PassRecord(ev, found, routed, handled, dropped);
      } else {
        p := PassRecord(None, None, false, false, []);
      }
    }

    /** WaitForEvent. `replies(k)` are the collaborators' answers during pass
        k. The loop keeps taking events while each was handled and no exit
        was asked for, and returns the event that ended it with the number
        of passes made. `log` records what each pass did: every pass but
        the last continued the loop, and the last one returned its event
        and verdict. Every event of the queue is either still queued or was
        taken by a pass, as its own event or by the unmap look-ahead. */
    method WaitForEvent(replies: nat -> Replies)
      returns (ev: Option<XEvent>, handled: bool, passes: nat, ghost log: seq<PassRecord>)
      modifies this`effects, this`clients, this`queue, this`last, clients
      ensures passes >= 1 && |log| == passes
      ensures LogOk(log, replies)
      ensures AllContinued(log[..passes - 1], replies)
      ensures log[passes - 1].event == ev && log[passes - 1].handled == handled
      ensures ev.Some? ==> !Continues(handled, replies(passes - 1).shouldExit)
      ensures ev.Some? ==> ev.value in old(queue)
      ensures ev.None? ==> queue == [] && !handled
      ensures old(queue) != [] ==> log[0].event == Some(old(queue)[0])
      ensures Accounted(queue, log, multiset(old(queue)))
      ensures Among(clients, old(clients))
      ensures |queue| + passes <= old(|queue|) + 1
      ensures ev.Some? ==> |queue| + passes <= old(|queue|)
    {
      passes, log := 0, [];
      while true
        invariant |queue| + passes <= old(|queue|)
        invariant |log| == passes
        invariant LogOk(log, replies) && AllContinued(log, replies)
        invariant passes == 0 ==> queue == old(queue)
        invariant old(queue) != [] && passes > 0 ==> log[0].event == Some(old(queue)[0])
        invariant Accounted(queue, log, multiset(old(queue)))
        invariant Among(clients, old(clients))
        decreases |queue|
      {
        ghost var p, before, registered := *, queue, clients;
        ev, handled, p := NextPass(replies(passes));
        AmongTrans(clients, registered, old(clients));
        AfterPass(old(queue), before, queue, log, p, replies, log + [p], passes + 1);
        log := log + [p];
        passes := passes + 1;
        if ev.None? || !Continues(handled, replies(passes - 1).shouldExit) {
          return;
        }
      }
    }

    // -------------------------------------------------------------------
    // ProcessEvent

    /** JXCheckTypedEvent for MotionNotify: the first queued motion event,
        taken out of the queue, if there is one. */
    method CheckTypedMotion() returns (m: Option<XEvent>)
      modifies this`queue
      ensures m.None? ==> queue == old(queue) && Motions(queue) == [] && NonMotion(queue) == queue
      ensures m.Some? ==> m.value.MotionNotify? && Motions(old(queue)) == [m.value] + Motions(queue) &&
                          NonMotion(queue) == NonMotion(old(queue)) && |queue| < |old(queue)|
    {
      var i := FirstMotion(queue);
      if i.None? {
        NoMotionFound(queue);
        NoMotionLeft(queue);
        return None;
      }
      TakeFirstMotion(queue);
      m := Some(queue[i.value]);
      queue := RemoveAt(queue, i.value);
    }

    /** `while(JXCheckTypedEvent(display, MotionNotify, event));`: every
        queued motion event is taken out and the event becomes the newest. */
    method CoalesceMotion(ev: XEvent) returns (e: XEvent)
      modifies this`queue
      ensures queue == NonMotion(old(queue))
      ensures e == Newest(Motions(old(queue)), ev)
      ensures ev.MotionNotify? ==> e.MotionNotify?
    {
      e := ev;
      ghost var taken: seq<XEvent> := [];
      while true
        invariant Motions(old(queue)) == taken + Motions(queue)
        invariant NonMotion(queue) == NonMotion(old(queue))
        invariant e == Newest(taken, ev)
        invariant ev.MotionNotify? ==> e.MotionNotify?
        decreases |queue|
      {
        var m := CheckTypedMotion();
        if m.None? {
          break;
        }
        e := m.value;
        taken := taken + [e];
      }
    }

    /** One turn of the loop of DiscardMotionEvents: `taken` are the motion
        events drained so far from `ms`, whose pointer updates follow `base`
        in the log, and `e0` is the event so far. */
    method DiscardOne(ev: XEvent, w: XID, e0: XEvent, ghost ms: seq<XEvent>, ghost taken: seq<XEvent>,
                      ghost base: seq<Effect>) returns (m: Option<XEvent>, e: XEvent)
      requires ms == taken + Motions(queue)
      requires effects == base + Positions(taken) && e0 == CoalescedFor(taken, w, ev)
      modifies this`queue, this`effects
      ensures NonMotion(queue) == NonMotion(old(queue))
      ensures m.None? ==> queue == old(queue) && Motions(queue) == [] && ms == taken && effects == old(effects) && e == e0
      ensures m.Some? ==>
                var t := taken + [m.value];
                m.value.MotionNotify? && ms == t + Motions(queue) &&
                effects == base + Positions(t) && e == CoalescedFor(t, w, ev) && |queue| < |old(queue)|
    {
      m := CheckTypedMotion();
      e := e0;
      if m.None? {
        assert taken + Motions(queue) == taken;
        return;
      }
      e := RecordMotion(ev, w, e0, m.value, taken, base);
      ghost var rest := Motions(queue);
      assert ms == taken + ([m.value] + rest);
      assert taken + ([m.value] + rest) == (taken + [m.value]) + rest;
    }

    /** The pointer update of one drained motion event m, and the event so
        far after it. */
    method RecordMotion(ev: XEvent, w: XID, e0: XEvent, m: XEvent, ghost taken: seq<XEvent>,
                        ghost base: seq<Effect>) returns (e: XEvent)
      requires m.MotionNotify?
      requires effects == base + Positions(taken) && e0 == CoalescedFor(taken, w, ev)
      modifies this`effects
      ensures effects == base + Positions(taken + [m]) && e == CoalescedFor(taken + [m], w, ev)
    {
      PositionsSnoc(taken, m);
      CoalescedSnoc(taken, w, ev, m);
      ghost var p := Positions(taken + [m]);
      assert base + p == (base + Positions(taken)) + [SetMousePosition(m.xRoot, m.yRoot)];
      Emit([SetMousePosition(m.xRoot, m.yRoot)]);
      e := if m.window == w then m else e0;
    }

    /** DiscardMotionEvents: every queued motion event is taken out and
        updates the pointer cache; the event becomes the newest of them that
        is for window w. */
    method DiscardMotionEvents(ev: XEvent, w: XID) returns (e: XEvent)
      modifies this`queue, this`effects
      ensures queue == NonMotion(old(queue))
      ensures var ms := Motions(old(queue));
              effects == old(effects) + Positions(ms) && e == CoalescedFor(ms, w, ev)
    {
      e := ev;
      ghost var ms, base := Motions(queue), effects;
      ghost var taken: seq<XEvent> := [];
      while true
        invariant ms == taken + Motions(queue)
        invariant NonMotion(queue) == NonMotion(old(queue))
        invariant effects == base + Positions(taken)
        invariant e == CoalescedFor(taken, w, ev)
        decreases |queue|
      {
        var m;
        m, e := DiscardOne(ev, w, e, ms, taken, base);
        if m.None? {
          break;
        }
        taken := taken + [m.value];
      }
      NoMotionLeft(queue);
    }

    method DispatchBorderButtonEvent(ev: XEvent, np: ClientNode, moved: bool)
      requires ev.ButtonEvent?
      modifies this`effects, this`lastClickTime, this`lastX, this`lastY, this`doubleClickActive
      ensures var o := BorderButton(np.View(), ev, old(ClickState()), cfg, moved);
              effects == old(effects) + o.effects && ClickState() == o.record
    {
      var action := cfg.borderActionType(np.View(), ev.x, ev.y);
      var zone := Zone(action);
      if zone == BA_RESIZE {
        if ev.isPress {
          Emit([ResizeClient(np.window, action, ev.x, ev.y)]);
        }
      } else if zone == BA_MOVE {
        if ev.isPress {
          if doubleClickActive
             && ClickInterval(ev.time, lastClickTime) > 0
             && ClickInterval(ev.time, lastClickTime) <= cfg.doubleClickSpeed
             && Abs(ev.x - lastX) <= cfg.doubleClickDelta
             && Abs(ev.y - lastY) <= cfg.doubleClickDelta {
            Emit([MaximizeClient(np.window)]);
            doubleClickActive := false;
          } else {
            Emit([MoveClient(np.window, ev.x, ev.y)]);
            if moved {
              doubleClickActive := false;
            } else {
              doubleClickActive := true;
              lastClickTime := ev.time;
              lastX := ev.x;
              lastY := ev.y;
            }
          }
        }
      } else if zone == BA_MENU {
        if ev.isPress {
          var bsize := if Has(np.border, BORDER_OUTLINE) then cfg.borderWidth else 0;
          Emit([ShowWindowMenu(np.window, np.x + ev.x - bsize, np.y + ev.y - cfg.titleHeight - bsize)]);
        }
      } else if zone == BA_CLOSE {
        if !ev.isPress {
          Emit([DeleteClient(np.window)]);
        }
      } else if zone == BA_MAXIMIZE {
        if !ev.isPress {
          Emit([MaximizeClient(np.window)]);
        }
      } else if zone == BA_MINIMIZE {
        if !ev.isPress {
          Emit([MinimizeClient(np.window)]);
        }
      }
    }

    /** The per-button switch of HandleButtonEvent for a frame. */
    method FrameButtonEvent(ev: XEvent, np: ClientNode, moved: bool)
      requires ev.ButtonEvent?
      modifies this`effects, this`lastClickTime, this`lastX, this`lastY, this`doubleClickActive
      ensures var o := FrameButton(np.View(), ev, old(ClickState()), cfg, moved);
              effects == old(effects) + o.effects && ClickState() == o.record
    {
      if ev.button == BUTTON1 {
        DispatchBorderButtonEvent(ev, np, moved);
      } else if ev.button == BUTTON2 {
        Emit([MoveClient(np.window, ev.x, ev.y)]);
      } else if ev.button == BUTTON3 {
        var x := ev.x + np.x;
        var y := ev.y + np.y;
        if Has(np.border, BORDER_OUTLINE) {
          x := x - cfg.borderWidth;
          y := y - cfg.borderWidth;
        }
        if Has(np.border, BORDER_TITLE) {
          y := y - cfg.titleHeight;
        }
        Emit([ShowWindowMenu(np.window, x, y)]);
      } else if ev.button == BUTTON4 {
        Emit([ShadeClient(np.window)]);
      } else if ev.button == BUTTON5 {
        Emit([UnshadeClient(np.window)]);
      }
    }

    /** The branch of HandleButtonEvent for a content window. */
    method ContentButtonEvent(ev: XEvent, owner: ClientNode)
      requires ev.ButtonEvent?
      modifies this`effects
      ensures effects == old(effects) + ContentButton(owner.View(), ev, cfg)
    {
      if ev.button == BUTTON1 || ev.button == BUTTON2 || ev.button == BUTTON3 {
        Emit([RaiseClient(owner.window)]);
        if cfg.focusModel == FocusClick {
          Emit([FocusClient(owner.window)]);
        }
        if Bit(ev.state, MOD1_BIT) {
          Emit([MoveClient(owner.window, ev.x, ev.y)]);
        }
      }
      Emit([ReplayPointer]);
    }

    /** The branch of HandleButtonEvent for a frame: raise, focus under
        click-to-focus, then the per-button switch. */
    method FrameButtonBranch(ev: XEvent, np: ClientNode, moved: bool)
      requires ev.ButtonEvent?
      modifies this`effects, this`lastClickTime, this`lastX, this`lastY, this`doubleClickActive
      ensures var o := FrameButton(np.View(), ev, old(ClickState()), cfg, moved);
              effects == old(effects) + ([RaiseClient(np.window)] + FocusOnClick(cfg, np.window) + o.effects) &&
              ClickState() == o.record
    {
      Emit([RaiseClient(np.window)]);
      if cfg.focusModel == FocusClick {
        Emit([FocusClient(np.window)]);
      }
      FrameButtonEvent(ev, np, moved);
    }

    /** The branch of HandleButtonEvent for a press on the root window. */
    method RootButtonBranch(ev: XEvent, rootMenu: bool)
      requires ev.ButtonEvent?
      modifies this`effects
      ensures effects == old(effects) + ([ShowRootMenu(ev.button, ev.x, ev.y)] +
                                         (if rootMenu then [] else RootWheel(ev.button)))
    {
      Emit([ShowRootMenu(ev.button, ev.x, ev.y)]);
      if !rootMenu {
        if ev.button == 4 {
          Emit([PreviousDesktop]);
        } else if ev.button == 5 {
          Emit([NextDesktop]);
        }
      }
    }

    method HandleButtonEvent(ev: XEvent, rp: ButtonReplies)
      requires ev.ButtonEvent?
      modifies this`effects, this`lastClickTime, this`lastX, this`lastY, this`doubleClickActive
      ensures var o := ButtonStep(old(ByParent(ev.window)), old(ByWindow(ev.window)), ev, old(ClickState()), cfg, rp);
              effects == old(effects) + o.effects && ClickState() == o.record
    {
      var np := FindClientByParent(clients, ev.window);
      if np != null {
        FrameButtonBranch(ev, np, rp.moved);
      } else if ev.window == cfg.rootWindow && ev.isPress {
        RootButtonBranch(ev, rp.rootMenu);
      } else {
        var owner := FindClientByWindow(clients, ev.window);
        if owner != null {
          ContentButtonEvent(ev, owner);
        }
      }
      Emit([UpdatePager]);
    }

    /** `active` is what GetActiveClient answers. */
    method HandleKeyPress(ev: XEvent, active: ClientNode?)
      requires ev.KeyPress?
      modifies this`effects
      ensures effects == old(effects) + KeyEffects(cfg.getKey(ev.keycode, ev.state), ViewOf(active), ev)
    {
      var key := cfg.getKey(ev.keycode, ev.state);
      var np := active;
      var action := LowByte(key);
      if action == KEY_EXEC {
        Emit([RunKeyCommand(ev.keycode, ev.state)]);
      } else if action == KEY_DESKTOP {
        if ShiftRight8(key) != 0 {
          Emit([ChangeDesktop(ShiftRight8(key) - 1)]);
        } else {
          Emit([NextDesktop]);
        }
      } else if action == KEY_NEXT {
        Emit([FocusNext]);
      } else if action == KEY_NEXT_STACKED {
        Emit([FocusNextStackedCircular]);
      } else if action == KEY_CLOSE {
        if np != null {
          Emit([DeleteClient(np.window)]);
        }
      } else if action == KEY_SHADE {
        if np != null {
          if Has(np.status, STAT_SHADED) {
            Emit([UnshadeClient(np.window)]);
          } else {
            Emit([ShadeClient(np.window)]);
          }
        }
      } else if action == KEY_MOVE {
        if np != null {
          Emit([MoveClientKeyboard(np.window)]);
        }
      } else if action == KEY_RESIZE {
        if np != null {
          Emit([ResizeClientKeyboard(np.window)]);
        }
      } else if action == KEY_MIN {
        if np != null {
          Emit([MinimizeClient(np.window)]);
        }
      } else if action == KEY_MAX {
        if np != null {
          Emit([MaximizeClient(np.window)]);
        }
      } else if action == KEY_ROOT {
        Emit([ShowRootMenu(1, 0, 0)]);
      } else if action == KEY_WIN {
        if np != null {
          Emit([ShowWindowMenu(np.window, np.x, np.y)]);
        }
      } else if action == KEY_RESTART {
        Emit([Restart]);
      } else if action == KEY_EXIT {
        Emit([Exit]);
      }
    }

    /** HandleEnterNotify for a managed window. */
    method EnterManaged(ev: XEvent, np: ClientNode)
      requires ev.Crossing?
      modifies this`effects, np
      ensures var r := EnterStep(Some(old(np.View())), ev, cfg);
              effects == old(effects) + r.effects && Some(np.View()) == r.node
    {
      Emit([SetMousePosition(ev.xRoot, ev.yRoot)]);
      if !Has(np.status, STAT_ACTIVE) && cfg.focusModel == FocusSloppy {
        Emit([FocusClient(np.window)]);
      }
      if np.parent == ev.window {
        np.borderAction := cfg.borderActionType(np.View(), ev.x, ev.y);
        Emit([DefineCursor(np.parent, np.borderAction)]);
      } else if np.borderAction != BA_NONE {
        Emit([SetDefaultCursor(np.parent)]);
        np.borderAction := BA_NONE;
      }
    }

    method HandleEnterNotify(ev: XEvent)
      requires ev.Crossing?
      modifies this`effects, Node(FindClientByWindow(clients, ev.window))
      ensures var r := EnterStep(old(ByWindow(ev.window)), ev, cfg);
              effects == old(effects) + r.effects && ByWindow(ev.window) == r.node
    {
      var np := FindClientByWindow(clients, ev.window);
      if np != null {
        EnterManaged(ev, np);
      } else {
        Emit([SetMousePosition(ev.xRoot, ev.yRoot)]);
      }
    }

    method HandleLeaveNotify(ev: XEvent)
      requires ev.Crossing?
      modifies this`effects
      ensures effects == old(effects) + LeaveEffects(ByParent(ev.window), ev)
    {
      Emit([SetMousePosition(ev.xRoot, ev.yRoot)]);
      var np := FindClientByParent(clients, ev.window);
      if np != null {
        Emit([SetDefaultCursor(np.parent)]);
      }
    }

    /** HandleMotionNotify over the frame of a managed window. */
    method MotionManaged(ev: XEvent, np: ClientNode)
      requires ev.MotionNotify? && !ev.isHint
      modifies this`effects, np
      ensures var r := MotionStep(Some(old(np.View())), ev, cfg);
              effects == old(effects) + r.effects && Some(np.View()) == r.node
    {
      Emit([SetMousePosition(ev.xRoot, ev.yRoot)]);
      if Has(np.border, BORDER_OUTLINE) {
        var action := cfg.borderActionType(np.View(), ev.x, ev.y);
        if np.borderAction != action {
          np.borderAction := action;
          Emit([DefineCursor(np.parent, action)]);
        }
      }
    }

    method HandleMotionNotify(ev: XEvent)
      requires ev.MotionNotify?
      modifies this`effects, Node(FindClientByParent(clients, ev.window))
      ensures var r := MotionStep(old(ByParent(ev.window)), ev, cfg);
              effects == old(effects) + r.effects && ByParent(ev.window) == r.node
    {
      if ev.isHint {
        return;
      }
      var np := FindClientByParent(clients, ev.window);
      if np != null {
        MotionManaged(ev, np);
      } else {
        Emit([SetMousePosition(ev.xRoot, ev.yRoot)]);
      }
    }

    /** ProcessEvent: the event the loop returned goes to the input
        handlers; a motion event is first replaced by the newest queued one.
        `rp` and `active` are the answers of the collaborators. */
    method ProcessEvent(ev: XEvent, rp: ButtonReplies, active: ClientNode?)
      modifies this`effects, this`queue, this`lastClickTime, this`lastX, this`lastY, this`doubleClickActive,
               if ev.MotionNotify? then Node(FindClientByParent(clients, Newest(Motions(queue), ev).window))
               else if ev.Crossing? && ev.isEnter then Node(FindClientByWindow(clients, ev.window))
               else {}
      ensures ev.MotionNotify? ==> queue == NonMotion(old(queue))
      ensures !ev.MotionNotify? ==> queue == old(queue)
      ensures !ev.ButtonEvent? ==> ClickState() == old(ClickState())
      ensures ev.KeyPress? ==> effects == old(effects) + KeyEffects(cfg.getKey(ev.keycode, ev.state), old(ViewOf(active)), ev)
      ensures ev.ButtonEvent? ==>
                var o := ButtonStep(old(ByParent(ev.window)), old(ByWindow(ev.window)), ev, old(ClickState()), cfg, rp);
                effects == old(effects) + o.effects && ClickState() == o.record
      ensures ev.Crossing? && ev.isEnter ==>
                effects == old(effects) + EnterStep(old(ByWindow(ev.window)), ev, cfg).effects
      ensures ev.Crossing? && !ev.isEnter ==>
                effects == old(effects) + LeaveEffects(old(ByParent(ev.window)), ev)
      ensures ev.MotionNotify? ==>
                var e := Newest(Motions(old(queue)), ev);
                e.MotionNotify? && effects == old(effects) + MotionStep(old(ByParent(e.window)), e, cfg).effects
      ensures !(ev.ButtonEvent? || ev.KeyPress? || ev.Crossing? || ev.MotionNotify?) ==> effects == old(effects)
      ensures ev.Crossing? && ev.isEnter ==> ByWindow(ev.window) == EnterStep(old(ByWindow(ev.window)), ev, cfg).node
      ensures ev.MotionNotify? ==>
                var e := Newest(Motions(old(queue)), ev);
                e.MotionNotify? && ByParent(e.window) == MotionStep(old(ByParent(e.window)), e, cfg).node
      ensures !ev.MotionNotify? && !(ev.Crossing? && ev.isEnter) ==> forall n :: n in clients ==> unchanged(n)
    {
      if ev.ButtonEvent? {
        HandleButtonEvent(ev, rp);
      } else if ev.KeyPress? {
        HandleKeyPress(ev, active);
      } else if ev.Crossing? || ev.MotionNotify? {
        ProcessPointer(ev);
      }
    }

    /** The crossing and motion cases of ProcessEvent. */
    method ProcessPointer(ev: XEvent)
      requires ev.Crossing? || ev.MotionNotify?
      modifies this`effects, this`queue,
               if ev.MotionNotify? then Node(FindClientByParent(clients, Newest(Motions(queue), ev).window))
               else if ev.isEnter then Node(FindClientByWindow(clients, ev.window))
               else {}
      ensures ev.MotionNotify? ==> queue == NonMotion(old(queue))
      ensures ev.Crossing? ==> queue == old(queue)
      ensures ev.Crossing? && ev.isEnter ==>
                effects == old(effects) + EnterStep(old(ByWindow(ev.window)), ev, cfg).effects
      ensures ev.Crossing? && !ev.isEnter ==>
                effects == old(effects) + LeaveEffects(old(ByParent(ev.window)), ev)
      ensures ev.MotionNotify? ==>
                var e := Newest(Motions(old(queue)), ev);
                e.MotionNotify? && effects == old(effects) + MotionStep(old(ByParent(e.window)), e, cfg).effects
      ensures ev.Crossing? && ev.isEnter ==> ByWindow(ev.window) == EnterStep(old(ByWindow(ev.window)), ev, cfg).node
      ensures ev.MotionNotify? ==>
                var e := Newest(Motions(old(queue)), ev);
                e.MotionNotify? && ByParent(e.window) == MotionStep(old(ByParent(e.window)), e, cfg).node
      ensures ev.Crossing? && !ev.isEnter ==> forall n :: n in clients ==> unchanged(n)
    {
      if ev.Crossing? {
        if ev.isEnter {
          HandleEnterNotify(ev);
        } else {
          HandleLeaveNotify(ev);
        }
      } else {
        var e := CoalesceMotion(ev);
        HandleMotionNotify(e);
      }
    }
  }

  lemma PositionsSnoc(ms: seq<XEvent>, m: XEvent)
    requires m.MotionNotify?
    ensures Positions(ms + [m]) == Positions(ms) + [SetMousePosition(m.xRoot, m.yRoot)]
  {
    assert (ms + [m])[..|ms|] == ms;
  }

  lemma CoalescedSnoc(ms: seq<XEvent>, w: XID, ev: XEvent, m: XEvent)
    ensures CoalescedFor(ms + [m], w, ev) == if m.window == w then m else CoalescedFor(ms, w, ev)
  {
    assert (ms + [m])[..|ms|] == ms;
  }
}

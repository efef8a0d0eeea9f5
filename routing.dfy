/** The decisions of WaitForEvent and Signal (src/event.c:63-191): which
    events the loop counts as handled by event type, the ordered fallback to
    the tray, dialog, swallow and popup subsystems, the loop-continuation
    rule, and the 50 ms throttle of the periodic callbacks. */
module Routing {
  import opened XProto
  import opened Options
  import opened Context
  import opened Effects

  // ---------------------------------------------------------------------
  // Signal

  /** The least time, in milliseconds, between two runs of the periodic
      callbacks. */
  const MIN_TIME_DELTA: int := 50

  /** The periodic callbacks, in order, with the time and pointer position. */
  function Callbacks(now: int, x: int, y: int): seq<Effect>
  {
    [SignalTaskbar(now, x, y), SignalTrayButton(now, x, y), SignalClock(now, x, y),
     SignalTray(now, x, y), SignalPopup(now, x, y)]
  }

  /** One call of Signal with its time of the last run: the new time of the
      last run and the calls made. */
  datatype SignalOutcome = SignalOutcome(last: int, effects: seq<Effect>)

  /** Signal. The callbacks run only when at least MIN_TIME_DELTA has passed
      since their last run (as GetTimeDifference measures it), and only
      then does the time of the last run move to now. */
  function SignalStep(last: int, now: int, mouseX: int, mouseY: int, cfg: Config): (r: SignalOutcome)
    ensures cfg.timeDifference(now, last) < MIN_TIME_DELTA <==> r == SignalOutcome(last, [])
    ensures cfg.timeDifference(now, last) >= MIN_TIME_DELTA ==>
              r.last == now && r.effects == Callbacks(now, mouseX, mouseY)
    ensures r.last != last ==> r.last == now && |r.effects| == 5
  {
    if cfg.timeDifference(now, last) < MIN_TIME_DELTA then SignalOutcome(last, [])
    else SignalOutcome(now, Callbacks(now, mouseX, mouseY))
  }

  /** A call within MIN_TIME_DELTA of a run does nothing and keeps the time
      of that run; a call that does nothing leaves the next call measured
      from the same last run. */
  lemma SignalThrottle(last: int, t1: int, t2: int, x1: int, y1: int, x2: int, y2: int, cfg: Config)
    ensures var s1 := SignalStep(last, t1, x1, y1, cfg);
            cfg.timeDifference(t1, last) >= MIN_TIME_DELTA && cfg.timeDifference(t2, t1) < MIN_TIME_DELTA ==>
              SignalStep(s1.last, t2, x2, y2, cfg) == SignalOutcome(t1, [])
    ensures var s1 := SignalStep(last, t1, x1, y1, cfg);
            cfg.timeDifference(t1, last) < MIN_TIME_DELTA ==>
              SignalStep(s1.last, t2, x2, y2, cfg) == SignalStep(last, t2, x2, y2, cfg)
  {
  }

  // ---------------------------------------------------------------------
  // The switch of WaitForEvent

  /** The event types the switch always counts as handled. */
  predicate AlwaysHandled(ev: XEvent)
  {
    ev.ConfigureRequest? || ev.MapRequest? || ev.ClientMessage? || ev.UnmapNotify? ||
    ev.ColormapNotify? || ev.ConfigureNotify? || ev.CreateNotify? || ev.MapNotify? ||
    ev.ReparentNotify? || ev.GraphicsExpose? || ev.NoExpose?
  }

  /** The event types the switch never counts as handled: they go to the
      fallback and, unless some subsystem claims them, back to the caller. */
  predicate NeverHandled(ev: XEvent)
  {
    ev.MotionNotify? || ev.ButtonEvent? || ev.KeyPress? || ev.KeyRelease? ||
    ev.Crossing? || ev.OtherEvent?
  }

  /** The remaining types, whose handler decides. */
  predicate HandlerDecides(ev: XEvent)
  {
    ev.PropertyNotify? || ev.Expose? || ev.DestroyNotify? || ev.SelectionClear? || ev.ResizeRequest?
  }

  /** Every event type falls in exactly one of the three classes. */
  lemma RoutingClassesPartition(ev: XEvent)
    ensures AlwaysHandled(ev) || NeverHandled(ev) || HandlerDecides(ev)
    ensures !(AlwaysHandled(ev) && NeverHandled(ev))
    ensures !(AlwaysHandled(ev) && HandlerDecides(ev))
    ensures !(NeverHandled(ev) && HandlerDecides(ev))
  {
  }

  // ---------------------------------------------------------------------
  // The fallback

  /** The four subsystems in the order they are offered an event. */
  const CLAIMANTS: seq<Claimant> := [Tray, Dialog, Swallow, Popup]

  /** Whether subsystem k claims the event, from this pass's answers. */
  predicate Claims(r: Replies, k: Claimant)
  {
    match k
    case Tray => r.tray
    case Dialog => r.dialog
    case Swallow => r.swallow
    case Popup => r.popup
  }

  /** The outcome of the fallback: who claimed the event, if anyone, and the
      offers made. */
  datatype FallbackOutcome = FallbackOutcome(claimant: Option<Claimant>, effects: seq<Effect>)

  /** The offers from position i of CLAIMANTS on, stopping at the first
      that claims. */
  function OfferFrom(i: nat, r: Replies): (o: FallbackOutcome)
    requires i <= |CLAIMANTS|
    ensures |o.effects| <= |CLAIMANTS| - i
    decreases |CLAIMANTS| - i
  {
    if i == |CLAIMANTS| then FallbackOutcome(None, [])
    else if Claims(r, CLAIMANTS[i]) then FallbackOutcome(Some(CLAIMANTS[i]), [Offer(CLAIMANTS[i])])
    else
      var rest := OfferFrom(i + 1, r);
      FallbackOutcome(rest.claimant, [Offer(CLAIMANTS[i])] + rest.effects)
  }

  /** Offers to the n subsystems from position i of CLAIMANTS on, in order. */
  function Offers(i: nat, n: nat): (r: seq<Effect>)
    requires i + n <= |CLAIMANTS|
    ensures |r| == n
    decreases n
  {
    if n == 0 then [] else [Offer(CLAIMANTS[i])] + Offers(i + 1, n - 1)
  }

  /** The offers go out in the order of CLAIMANTS, and every subsystem
      asked before the last one declined. */
  lemma {:induction false} OfferFromOrder(i: nat, r: Replies)
    requires i <= |CLAIMANTS|
    ensures var o := OfferFrom(i, r);
            o.effects == Offers(i, |o.effects|) &&
            forall j :: i <= j < i + |o.effects| - 1 ==> !Claims(r, CLAIMANTS[j])
    decreases |CLAIMANTS| - i
  {
    if i < |CLAIMANTS| && !Claims(r, CLAIMANTS[i]) {
      OfferFromOrder(i + 1, r);
    }
  }

  /** Nobody claims exactly when all were asked and all declined; a
      claimant is the last one asked, and it claims. */
  lemma {:induction false} OfferFromClaimant(i: nat, r: Replies)
    requires i <= |CLAIMANTS|
    ensures var o := OfferFrom(i, r);
            (o.claimant.None? <==>
               |o.effects| == |CLAIMANTS| - i && forall j :: i <= j < |CLAIMANTS| ==> !Claims(r, CLAIMANTS[j])) &&
            (o.claimant.Some? ==> |o.effects| >= 1 && o.claimant.value == CLAIMANTS[i + |o.effects| - 1] &&
                                  Claims(r, o.claimant.value))
    decreases |CLAIMANTS| - i
  {
    if i < |CLAIMANTS| && !Claims(r, CLAIMANTS[i]) {
      OfferFromClaimant(i + 1, r);
    }
  }

  /** The four `if(!handled)` tests after the switch: an event the switch
      handled is offered to nobody; otherwise tray, dialog, swallow and
      popup are asked in that order until one claims it. */
  function Fallback(handled: bool, r: Replies): (o: FallbackOutcome)
    ensures handled ==> o == FallbackOutcome(None, [])
    ensures !handled ==> o == OfferFrom(0, r)
  {
    if handled then FallbackOutcome(None, []) else OfferFrom(0, r)
  }

  /** After the fallback the event is handled when the switch or a claimant
      handled it. */
  function HandledAfter(handled: bool, o: FallbackOutcome): bool
  {
    handled || o.claimant.Some?
  }

  /** The first subsystem that claims is the one that gets the event, and
      every one before it was asked and declined. */
  lemma FallbackPicksFirst(r: Replies, k: nat)
    requires k < |CLAIMANTS| && Claims(r, CLAIMANTS[k])
    requires forall j :: 0 <= j < k ==> !Claims(r, CLAIMANTS[j])
    ensures Fallback(false, r).claimant == Some(CLAIMANTS[k])
    ensures Fallback(false, r).effects == Offers(0, k + 1)
  {
    OfferFromOrder(0, r);
    OfferFromClaimant(0, r);
  }

  /** An event ends up unhandled exactly when the switch did not handle it
      and all four subsystems declined it, after being offered to each. */
  lemma FallbackDrops(handled: bool, r: Replies)
    ensures !HandledAfter(handled, Fallback(handled, r)) <==>
              !handled && !r.tray && !r.dialog && !r.swallow && !r.popup
    ensures !HandledAfter(handled, Fallback(handled, r)) ==>
              Fallback(handled, r).effects == [Offer(Tray), Offer(Dialog), Offer(Swallow), Offer(Popup)]
  {
    if !handled {
      OfferFromClaimant(0, r);
      OfferFromOrder(0, r);
      assert Claims(r, CLAIMANTS[0]) == r.tray && Claims(r, CLAIMANTS[1]) == r.dialog;
      assert Claims(r, CLAIMANTS[2]) == r.swallow && Claims(r, CLAIMANTS[3]) == r.popup;
    }
  }

  /** do { ... } while(handled && !shouldExit): the loop goes on to the next
      event only while the last one was handled and no exit was asked for. */
  predicate Continues(handled: bool, shouldExit: bool)
  {
    handled && !shouldExit
  }
}

/** The pending-event queue as an abstract sequence, and the searches the
    core makes in it: JXCheckTypedEvent for MotionNotify (motion
    coalescing) and JXCheckTypedWindowEvent for a DestroyNotify (the
    look-ahead of the unmap handler). Both remove what they find. */
module EventQueue {
  import opened XProto
  import opened Options
  import opened Effects

  /** The queue with position i taken out. */
  function RemoveAt(q: seq<XEvent>, i: nat): (r: seq<XEvent>)
    requires i < |q|
    ensures |r| == |q| - 1
    ensures forall e :: e in r ==> e in q
    ensures forall j :: 0 <= j < i ==> r[j] == q[j]
    ensures forall j :: i <= j < |r| ==> r[j] == q[j + 1]
    ensures multiset(r) + multiset{q[i]} == multiset(q)
  {
    assert q == q[..i] + [q[i]] + q[i + 1..];
    q[..i] + q[i + 1..]
  }

  /** The motion events of the queue, in queue order. */
  function Motions(q: seq<XEvent>): (r: seq<XEvent>)
    ensures |r| <= |q|
  {
    if q == [] then []
    else if q[0].MotionNotify? then [q[0]] + Motions(q[1..])
    else Motions(q[1..])
  }

  /** The events of the queue that are not motion events, in queue order. */
  function NonMotion(q: seq<XEvent>): (r: seq<XEvent>)
    ensures |r| <= |q|
  {
    if q == [] then []
    else if q[0].MotionNotify? then NonMotion(q[1..])
    else [q[0]] + NonMotion(q[1..])
  }

  /** The two parts split the queue: every motion event goes to Motions,
      every other event to NonMotion, and nothing else appears in either. */
  lemma {:induction false} MotionSplit(q: seq<XEvent>)
    ensures forall e :: e in Motions(q) <==> e in q && e.MotionNotify?
    ensures forall e :: e in NonMotion(q) <==> e in q && !e.MotionNotify?
    ensures |Motions(q)| + |NonMotion(q)| == |q|
  {
    if q != [] {
      MotionSplit(q[1..]);
      assert q == [q[0]] + q[1..];
    }
  }

  /** Where JXCheckTypedEvent finds a MotionNotify: the first one queued. */
  function FirstMotion(q: seq<XEvent>): (r: Option<nat>)
    ensures r.Some? ==> r.value < |q| && q[r.value].MotionNotify? &&
                        forall j :: 0 <= j < r.value ==> !q[j].MotionNotify?
    ensures r.None? ==> forall j :: 0 <= j < |q| ==> !q[j].MotionNotify?
  {
    if q == [] then None
    else if q[0].MotionNotify? then Some(0)
    else match FirstMotion(q[1..])
      case None => None
      case Some(i) => Some(i + 1)
  }

  /** Where JXCheckTypedWindowEvent finds a DestroyNotify for window w:
      the first one queued. */
  function FirstDestroyFor(q: seq<XEvent>, w: XID): (r: Option<nat>)
    ensures r.Some? ==> r.value < |q| && q[r.value] == DestroyNotify(w) &&
                        forall j :: 0 <= j < r.value ==> q[j] != DestroyNotify(w)
    ensures r.None? ==> DestroyNotify(w) !in q
  {
    if q == [] then None
    else if q[0] == DestroyNotify(w) then Some(0)
    else match FirstDestroyFor(q[1..], w)
      case None => None
      case Some(i) => Some(i + 1)
  }

  /** Taking out the first motion event hands over the head of Motions and
      leaves every other event, in order. */
  lemma {:induction false} TakeFirstMotion(q: seq<XEvent>)
    requires FirstMotion(q).Some?
    ensures var i := FirstMotion(q).value;
            Motions(q) != [] && Motions(q)[0] == q[i] &&
            Motions(RemoveAt(q, i)) == Motions(q)[1..] &&
            NonMotion(RemoveAt(q, i)) == NonMotion(q)
  {
    var i := FirstMotion(q).value;
    if i == 0 {
      assert RemoveAt(q, 0) == q[1..];
    } else {
      assert !q[0].MotionNotify?;
      assert FirstMotion(q[1..]) == Some(i - 1);
      TakeFirstMotion(q[1..]);
      assert RemoveAt(q, i) == [q[0]] + RemoveAt(q[1..], i - 1);
    }
  }

  /** When JXCheckTypedEvent finds no motion event, none is queued. */
  lemma {:induction false} NoMotionFound(q: seq<XEvent>)
    requires FirstMotion(q).None?
    ensures Motions(q) == []
  {
    if q != [] {
      assert !q[0].MotionNotify?;
      NoMotionFound(q[1..]);
    }
  }

  /** With no motion event left, the queue is its own non-motion part. */
  lemma {:induction false} NoMotionLeft(q: seq<XEvent>)
    requires Motions(q) == []
    ensures NonMotion(q) == q
  {
    if q != [] {
      NoMotionLeft(q[1..]);
    }
  }

  /** The position of the last event of ms that targets window w. */
  function LastOn(ms: seq<XEvent>, w: XID): (r: Option<nat>)
    ensures r.Some? ==> r.value < |ms| && ms[r.value].window == w &&
                        forall j :: r.value < j < |ms| ==> ms[j].window != w
    ensures r.None? ==> forall j :: 0 <= j < |ms| ==> ms[j].window != w
  {
    if ms == [] then None
    else if ms[|ms| - 1].window == w then Some(|ms| - 1)
    else LastOn(ms[..|ms| - 1], w)
  }

  /** What DiscardMotionEvents leaves in `*event`: the last drained motion
      event for window w, or the original event when there is none. */
  function CoalescedFor(ms: seq<XEvent>, w: XID, ev: XEvent): XEvent
  {
    match LastOn(ms, w)
    case None => ev
    case Some(i) => ms[i]
  }

  /** DiscardMotionEvents leaves the original event only when no drained
      event is for w, and otherwise a drained event for w after which none
      for w was drained; when all are for w, that is the newest one, as in
      the coalescing loop of ProcessEvent. */
  lemma CoalescedForShape(ms: seq<XEvent>, w: XID, ev: XEvent)
    ensures var r := CoalescedFor(ms, w, ev);
            (r == ev && forall j :: 0 <= j < |ms| ==> ms[j].window != w) ||
            (exists i :: 0 <= i < |ms| && r == ms[i] && r.window == w &&
                         forall j :: i < j < |ms| ==> ms[j].window != w)
    ensures (forall j :: 0 <= j < |ms| ==> ms[j].window == w) ==> CoalescedFor(ms, w, ev) == Newest(ms, ev)
  {
  }

  /** What the motion loop of ProcessEvent leaves in `*event`: the last
      drained motion event, or the original event when there is none. */
  function Newest(ms: seq<XEvent>, ev: XEvent): (r: XEvent)
    ensures ms == [] ==> r == ev
    ensures ms != [] ==> r == ms[|ms| - 1]
  {
    if ms == [] then ev else ms[|ms| - 1]
  }

  /** The event the coalescing loop leaves is one of the drained events when
      any was queued, it is a motion event when the original and all the
      drained ones are, and no drained event follows it. */
  lemma NewestIsDrained(ms: seq<XEvent>, ev: XEvent)
    ensures ms != [] ==> Newest(ms, ev) in ms
    ensures ev.MotionNotify? && (forall j :: 0 <= j < |ms| ==> ms[j].MotionNotify?) ==>
              Newest(ms, ev).MotionNotify?
    ensures forall m :: Newest(ms + [m], ev) == m
  {
  }

  /** The pointer-cache update of one event: motion events carry the root
      position. */
  function Position(e: XEvent): seq<Effect>
  {
    if e.MotionNotify? then [SetMousePosition(e.xRoot, e.yRoot)] else []
  }

  /** The pointer-cache updates of DiscardMotionEvents, in order. */
  function Positions(ms: seq<XEvent>): (r: seq<Effect>)
    ensures |r| <= |ms|
  {
    if ms == [] then []
    else Positions(ms[..|ms| - 1]) + Position(ms[|ms| - 1])
  }

  /** Every event Motions keeps is a motion event. */
  lemma {:induction false} MotionsAreMotions(q: seq<XEvent>)
    ensures forall j :: 0 <= j < |Motions(q)| ==> Motions(q)[j].MotionNotify?
  {
    if q != [] {
      MotionsAreMotions(q[1..]);
    }
  }

  /** Over motion events there is one update per event, and the j-th update
      carries the root position of the j-th event. */
  lemma {:induction false} PositionsAt(ms: seq<XEvent>, j: nat)
    requires forall k :: 0 <= k < |ms| ==> ms[k].MotionNotify?
    requires j < |ms|
    ensures |Positions(ms)| == |ms|
    ensures Positions(ms)[j] == SetMousePosition(ms[j].xRoot, ms[j].yRoot)
  {
    if j < |ms| - 1 {
      PositionsAt(ms[..|ms| - 1], j);
    } else if j > 0 {
      PositionsAt(ms[..|ms| - 1], j - 1);
    }
  }
}

/** The managed window (ClientNode): its status and border flags, a value
    view `Client` of its state, and the class whose fields the handlers
    update in place. */
module Clients {
  import opened XProto

  // Status flags of `state.status`. Their numeric values live in client.h,
  // which is not part of this model: any distinct single bits behave the same.
  const STAT_ACTIVE: bv32 := 1 << 0
  const STAT_MAPPED: bv32 := 1 << 1
  const STAT_MAXIMIZED: bv32 := 1 << 2
  const STAT_STICKY: bv32 := 1 << 4
  const STAT_NOLIST: bv32 := 1 << 5
  const STAT_MINIMIZED: bv32 := 1 << 6
  const STAT_SHADED: bv32 := 1 << 7
  const STAT_WMDIALOG: bv32 := 1 << 8
  const STAT_SDESKTOP: bv32 := 1 << 11

  // Border flags of `state.border`.
  const BORDER_OUTLINE: bv32 := 1 << 0
  const BORDER_TITLE: bv32 := 1 << 1

  /** `flags & f` is non-zero. */
  predicate Has(flags: bv32, f: bv32)
  {
    flags & f != 0
  }

  /** `flags | f`: every bit of f set, every other bit kept. */
  function SetFlag(flags: bv32, f: bv32): (r: bv32)
    ensures r & f == f
    ensures r & !f == flags & !f
  {
    flags | f
  }

  /** `flags & ~f`: every bit of f cleared, every other bit kept. */
  function ClearFlag(flags: bv32, f: bv32): (r: bv32)
    ensures r & f == 0
    ensures r & !f == flags & !f
  {
    flags & !f
  }

  /** Setting a flag undoes clearing it. */
  lemma SetAfterClear(flags: bv32, f: bv32)
    ensures (flags & !f) | f == flags | f
  {
  }

  /** Everything of a ClientNode the event core reads or writes. */
  datatype Client = Client(
    window: XID,        // the content window
    parent: XID,        // the frame window
    x: Int32, y: Int32, width: Int32, height: Int32,
    status: bv32,
    border: bv32,
    gravity: int,
    controller: bool,   // an interactive move/resize has registered its callback
    borderAction: int,
    cmap: XID)

  /** A managed window. The handles never change once the node exists, and
      the border flags, the gravity and the controller are only read by the
      event core. */
  class ClientNode {
    const window: XID
    const parent: XID
    const border: bv32
    const gravity: int
    const controller: bool
    var x: Int32
    var y: Int32
    var width: Int32
    var height: Int32
    var status: bv32
    var borderAction: int
    var cmap: XID

    constructor (v: Client)
      ensures View() == v
    {
      window, parent := v.window, v.parent;
      x, y, width, height := v.x, v.y, v.width, v.height;
      status, border, gravity := v.status, v.border, v.gravity;
      controller, borderAction, cmap := v.controller, v.borderAction, v.cmap;
    }

    /** The node's current state as a value. */
    function View(): Client
      reads this
    {
      Client(window, parent, x, y, width, height, status, border, gravity,
             controller, borderAction, cmap)
    }
  }
}

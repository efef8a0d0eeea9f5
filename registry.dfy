/** Lookups of managed windows by handle (FindClientByWindow and
    FindClientByParent in client.c) over the registry of nodes, and the
    removal RemoveClient performs on it. */
module Registry {
  import opened XProto
  import opened Clients

  /** No two nodes share a handle, and a frame is never a content window. */
  predicate Unique(s: seq<ClientNode>)
  {
    (forall a :: a in s ==> a.window != a.parent) &&
    (forall a, b :: a in s && b in s && a != b ==>
       a.window != b.window && a.parent != b.parent &&
       a.window != b.parent && a.parent != b.window)
  }

  /** FindClientByWindow: the node whose content or frame handle is w. */
  function FindClientByWindow(s: seq<ClientNode>, w: XID): (r: ClientNode?)
    ensures r != null ==> r in s && (r.window == w || r.parent == w)
    ensures r == null ==> forall c :: c in s ==> c.window != w && c.parent != w
  {
    if s == [] then null
    else if s[0].window == w || s[0].parent == w then s[0]
    else FindClientByWindow(s[1..], w)
  }

  /** FindClientByParent: the node whose frame handle is w. */
  function FindClientByParent(s: seq<ClientNode>, w: XID): (r: ClientNode?)
    ensures r != null ==> r in s && r.parent == w
    ensures r == null ==> forall c :: c in s ==> c.parent != w
  {
    if s == [] then null
    else if s[0].parent == w then s[0]
    else FindClientByParent(s[1..], w)
  }

  /** The registry without node c. */
  function Without(s: seq<ClientNode>, c: ClientNode): (r: seq<ClientNode>)
    ensures forall d :: d in r ==> d in s && d != c
    ensures forall d :: d in s && d != c ==> d in r
    ensures |r| <= |s|
  {
    if s == [] then []
    else if s[0] == c then Without(s[1..], c)
    else [s[0]] + Without(s[1..], c)
  }

  /** In a registry with unique handles, both of a node's handles find it. */
  lemma FindOwnHandles(s: seq<ClientNode>, c: ClientNode)
    requires Unique(s) && c in s
    ensures FindClientByWindow(s, c.window) == c
    ensures FindClientByWindow(s, c.parent) == c
    ensures FindClientByParent(s, c.parent) == c
  {
  }

  /** Removing a node keeps the handles unique, and neither of its handles
      finds anything afterwards. */
  lemma RemovedIsForgotten(s: seq<ClientNode>, c: ClientNode)
    requires Unique(s) && c in s
    ensures Unique(Without(s, c))
    ensures FindClientByWindow(Without(s, c), c.window) == null
    ensures FindClientByWindow(Without(s, c), c.parent) == null
  {
  }
}

/** The call-path tree built for each function, and the two one-slot
    mailboxes through which the passes report a delegatecall finding. */
module CallPath {
  import opened Wrappers

  /** A node of the tree: the function's signature and id, and the functions
      it calls in call order.  A child's caller is the node that holds it. */
  datatype Ncp = Ncp(name: string, id: int, callees: seq<Ncp>)

  /** A fresh node: empty name, id 0, no callees. */
  function NewNormalCallPath(): (t: Ncp)
    ensures Size(t) == 1 && PreOrder(t) == [""]
  {
    Ncp("", 0, [])
  }

  /** Number of nodes in the tree. */
  function Size(t: Ncp): nat
    decreases t, 1
  {
    1 + SizeAll(t.callees)
  }

  function SizeAll(ts: seq<Ncp>): nat
    decreases ts, 0
  {
    if |ts| == 0 then 0 else Size(ts[0]) + SizeAll(ts[1..])
  }

  /** Give the node a name and an id; its callees stay as they are. */
  function SetCaller(t: Ncp, caller: string, callerID: int): (r: Ncp)
    ensures r.callees == t.callees
    ensures Lookup(r, callerID) == Some(r)
    ensures PreOrder(r) == [caller] + PreOrder(t)[1..]
  {
    Ncp(caller, callerID, t.callees)
  }

  /** Append one leaf callee; name, id and earlier callees are kept. */
  function SetCallee(t: Ncp, callee: string, calleeID: int): (r: Ncp)
    ensures r.name == t.name && r.id == t.id
    ensures |r.callees| == |t.callees| + 1 && r.callees[..|t.callees|] == t.callees
    ensures r.callees[|t.callees|] == Ncp(callee, calleeID, [])
    ensures Size(r) == Size(t) + 1
  {
    var r := Ncp(t.name, t.id, t.callees + [Ncp(callee, calleeID, [])]);
    SizeAllSnoc(t.callees, Ncp(callee, calleeID, []));
    r
  }

  lemma {:induction false} SizeAllSnoc(ts: seq<Ncp>, x: Ncp)
    ensures SizeAll(ts + [x]) == SizeAll(ts) + Size(x)
    decreases |ts|
  {
    if |ts| == 0 {
      assert [x][1..] == [];
    } else {
      assert (ts + [x])[1..] == ts[1..] + [x];
      SizeAllSnoc(ts[1..], x);
    }
  }

  /** Some node of the tree has id `id`. */
  predicate Contains(t: Ncp, id: int)
    decreases t, 1
  {
    t.id == id || ContainsAny(t.callees, id)
  }

  predicate ContainsAny(ts: seq<Ncp>, id: int)
    decreases ts, 0
  {
    |ts| > 0 && (Contains(ts[0], id) || ContainsAny(ts[1..], id))
  }

  /** The node with id `id`: the root if it matches, else the match found in
      the last callee subtree that has one. */
  function Lookup(t: Ncp, id: int): (r: Option<Ncp>)
    decreases t, 1
  {
    if t.id == id then Some(t) else LookupIn(t.callees, id, None)
  }

  /** Scan the callees in order, keeping the latest match. */
  function LookupIn(ts: seq<Ncp>, id: int, found: Option<Ncp>): (r: Option<Ncp>)
    decreases ts, 0
  {
    if |ts| == 0 then found
    else
      var here := Lookup(ts[0], id);
      LookupIn(ts[1..], id, if here.Some? then here else found)
  }

  /** `Lookup` finds a node exactly when the tree has that id, and what it
      finds carries the id. */
  lemma {:induction false} LookupFindsContained(t: Ncp, id: int)
    ensures Lookup(t, id).Some? <==> Contains(t, id)
    ensures Lookup(t, id).Some? ==> Lookup(t, id).value.id == id
    decreases t, 1
  {
    if t.id != id {
      LookupInFinds(t.callees, id, None);
    }
  }

  lemma {:induction false} LookupInFinds(ts: seq<Ncp>, id: int, found: Option<Ncp>)
    requires found.Some? ==> found.value.id == id
    ensures LookupIn(ts, id, found).Some? <==> found.Some? || ContainsAny(ts, id)
    ensures LookupIn(ts, id, found).Some? ==> LookupIn(ts, id, found).value.id == id
    decreases ts, 0
  {
    if |ts| > 0 {
      var here := Lookup(ts[0], id);
      LookupFindsContained(ts[0], id);
      LookupInFinds(ts[1..], id, if here.Some? then here else found);
    }
  }

  /** When the root does not match, a match in the last callee beats one in
      an earlier callee. */
  lemma LookupPrefersLastCallee(t: Ncp, id: int)
    requires t.id != id && |t.callees| > 0
    requires Lookup(t.callees[|t.callees| - 1], id).Some?
    ensures Lookup(t, id) == Lookup(t.callees[|t.callees| - 1], id)
  {
    LookupInLast(t.callees, id, None);
  }

  lemma {:induction false} LookupInLast(ts: seq<Ncp>, id: int, found: Option<Ncp>)
    requires |ts| > 0 && Lookup(ts[|ts| - 1], id).Some?
    ensures LookupIn(ts, id, found) == Lookup(ts[|ts| - 1], id)
    decreases |ts|
  {
    if |ts| > 1 {
      var here := Lookup(ts[0], id);
      assert ts[1..][|ts[1..]| - 1] == ts[|ts| - 1];
      LookupInLast(ts[1..], id, if here.Some? then here else found);
    }
  }

  /** Names of the tree in pre-order: the node, then each callee subtree. */
  function PreOrder(t: Ncp): (r: seq<string>)
    ensures |r| >= 1 && r[0] == t.name
    decreases t, 1
  {
    [t.name] + PreOrderAll(t.callees)
  }

  function PreOrderAll(ts: seq<Ncp>): seq<string>
    decreases ts, 0
  {
    if |ts| == 0 then [] else PreOrder(ts[0]) + PreOrderAll(ts[1..])
  }

  /** `Path`: append "name, " for the node, then recurse into each callee. */
  function Path(t: Ncp, path: string): string
    decreases t, 1
  {
    PathAll(t.callees, path + t.name + ", ")
  }

  function PathAll(ts: seq<Ncp>, path: string): string
    decreases ts, 0
  {
    if |ts| == 0 then path else PathAll(ts[1..], Path(ts[0], path))
  }

  /** Each name followed by ", ", concatenated. */
  function Listed(names: seq<string>): string
  {
    if |names| == 0 then "" else names[0] + ", " + Listed(names[1..])
  }

  lemma {:induction false} ListedAppend(a: seq<string>, b: seq<string>)
    ensures Listed(a + b) == Listed(a) + Listed(b)
    decreases |a|
  {
    if |a| > 0 {
      assert (a + b)[0] == a[0] && (a + b)[1..] == a[1..] + b;
      ListedAppend(a[1..], b);
      assert Listed(a + b) == a[0] + ", " + (Listed(a[1..]) + Listed(b));
    } else {
      assert a + b == b;
    }
  }

  /** `Path` appends the pre-order names, each followed by ", ", to the
      string it is given, one per node of the tree. */
  lemma {:induction false} PathIsPreOrder(t: Ncp, path: string)
    ensures Path(t, path) == path + Listed(PreOrder(t))
    decreases t, 1
  {
    PathAllIsPreOrder(t.callees, path + t.name + ", ");
    ListedAppend([t.name], PreOrderAll(t.callees));
    assert Listed([t.name]) == t.name + ", ";
  }

  lemma {:induction false} PathAllIsPreOrder(ts: seq<Ncp>, path: string)
    ensures PathAll(ts, path) == path + Listed(PreOrderAll(ts))
    decreases ts, 0
  {
    if |ts| > 0 {
      PathIsPreOrder(ts[0], path);
      PathAllIsPreOrder(ts[1..], Path(ts[0], path));
      ListedAppend(PreOrder(ts[0]), PreOrderAll(ts[1..]));
    }
  }

  /** A buffered channel of `capacity` slots; the queue never outgrows it. */
  datatype Mailbox<T> = Mailbox(capacity: nat, queue: seq<T>)
  {
    predicate Valid() { |queue| <= capacity }
  }

  /** `make(chan T, size)`: an empty mailbox of the requested size. */
  function MakeMailbox<T>(size: nat): (m: Mailbox<T>)
    ensures m.Valid() && m.capacity == size && |m.queue| == 0
  {
    Mailbox(size, [])
  }

  /** A send that does not block: it succeeds iff a slot is free. */
  function TrySend<T>(m: Mailbox<T>, x: T): (r: Option<Mailbox<T>>)
    requires m.Valid()
    ensures r.Some? <==> |m.queue| < m.capacity
    ensures r.Some? ==> r.value.Valid() && r.value.capacity == m.capacity && r.value.queue == m.queue + [x]
  {
    if |m.queue| < m.capacity then Some(Mailbox(m.capacity, m.queue + [x])) else None
  }

  /** A receive in a `select` with a `default` branch: the oldest item if
      any, never blocking. */
  function TryRecv<T>(m: Mailbox<T>): (r: Option<(T, Mailbox<T>)>)
    requires m.Valid()
    ensures r.Some? <==> |m.queue| > 0
    ensures r.Some? ==> r.value.0 == m.queue[0] && r.value.1.Valid() &&
                        r.value.1.capacity == m.capacity && r.value.1.queue == m.queue[1..]
  {
    if |m.queue| > 0 then Some((m.queue[0], Mailbox(m.capacity, m.queue[1..]))) else None
  }

  /** What is sent is what is received, first in first out. */
  lemma SendThenRecv<T>(x: T, size: nat)
    requires size > 0
    ensures var m := TrySend(MakeMailbox<T>(size), x);
            m.Some? && TryRecv(m.value) == Some((x, MakeMailbox<T>(size)))
  {
    var m := TrySend(MakeMailbox<T>(size), x);
    assert m.value.queue == [x];
    assert m.value.queue[1..] == [];
  }
}

/** The run-wide node registry: every registered node by id, plus side
    indexes of function and contract definitions. */
module Registry {
  import opened Wrappers
  import opened Ast

  datatype GlobalNodes = GlobalNodes(
    nodes: map<int, Node>,
    contractsByID: map<int, Node>,
    contractsByName: map<string, Node>,
    functions: map<int, Node>)

  /** Nodes that can be registered: `NodeID()` panics on nil and never
      returns on a `YulSwitch`. */
  predicate Registrable(n: Node)
  {
    !n.Nil? && !n.YulSwitch?
  }

  /** The side indexes hold only what they are named for, each under its own
      key, and every indexed id is also in the main map. */
  predicate WellIndexed(gn: GlobalNodes)
  {
    (forall k :: k in gn.functions ==>
       gn.functions[k].FunctionDefinition? && gn.functions[k].at.id == k && k in gn.nodes) &&
    (forall k :: k in gn.contractsByID ==>
       gn.contractsByID[k].ContractDefinition? && gn.contractsByID[k].at.id == k && k in gn.nodes) &&
    (forall s :: s in gn.contractsByName ==>
       gn.contractsByName[s].ContractDefinition? && gn.contractsByName[s].at.name == s)
  }

  /** A registry with nothing in it. */
  function NewGlobalNodes(): (gn: GlobalNodes)
    ensures WellIndexed(gn)
    ensures forall k :: k !in gn.nodes && k !in gn.functions && k !in gn.contractsByID
    ensures forall s :: s !in gn.contractsByName
  {
    GlobalNodes(map[], map[], map[], map[])
  }

  /** Every node of `ns` can be registered. */
  predicate AllRegistrable(ns: seq<Node>)
  {
    forall n :: n in ns ==> Registrable(n)
  }

  /** Register `n` under its id, replacing any earlier node with that id; a
      function definition also enters the function index and a contract
      definition the two contract indexes. */
  function AddASTNode(gn: GlobalNodes, n: Node): (r: GlobalNodes)
    requires Registrable(n)
    ensures WellIndexed(gn) ==> WellIndexed(r)
    ensures NodeID(n) in r.nodes && r.nodes[NodeID(n)] == n
    ensures forall k :: k != NodeID(n) ==> (k in r.nodes <==> k in gn.nodes)
    ensures forall k :: k != NodeID(n) && k in gn.nodes ==> r.nodes[k] == gn.nodes[k]
    ensures n.FunctionDefinition? ==> NodeID(n) in r.functions && r.functions[NodeID(n)] == n
    ensures forall k :: k in r.functions && !(k in gn.functions && gn.functions[k] == r.functions[k]) ==>
              n.FunctionDefinition? && k == NodeID(n) && r.functions[k] == n
    ensures gn.functions.Keys <= r.functions.Keys
    ensures n.ContractDefinition? ==>
              NodeID(n) in r.contractsByID && r.contractsByID[NodeID(n)] == n &&
              n.at.name in r.contractsByName && r.contractsByName[n.at.name] == n
    ensures !n.ContractDefinition? ==> r.contractsByID == gn.contractsByID && r.contractsByName == gn.contractsByName
  {
    var id := NodeID(n);
    GlobalNodes(
      gn.nodes[id := n],
      if n.ContractDefinition? then gn.contractsByID[id := n] else gn.contractsByID,
      if n.ContractDefinition? then gn.contractsByName[n.at.name := n] else gn.contractsByName,
      if n.FunctionDefinition? then gn.functions[id := n] else gn.functions)
  }

  /** Register a sequence of nodes in order. */
  function AddAll(gn: GlobalNodes, ns: seq<Node>): (r: GlobalNodes)
    requires AllRegistrable(ns)
    ensures WellIndexed(gn) ==> WellIndexed(r)
    decreases |ns|
  {
    if |ns| == 0 then gn
    else
      assert ns[0] in ns;
      AddAll(AddASTNode(gn, ns[0]), ns[1..])
  }

  /** The last node of `ns` whose id is `id`, if any. */
  function LastWithID(ns: seq<Node>, id: int): (r: Option<Node>)
    requires AllRegistrable(ns)
    ensures r.Some? ==> r.value in ns && NodeID(r.value) == id
    ensures r.None? ==> forall n :: n in ns ==> NodeID(n) != id
    decreases |ns|
  {
    if |ns| == 0 then None
    else
      var last := ns[|ns| - 1];
      assert last in ns;
      assert forall n :: n in ns <==> n in ns[..|ns| - 1] || n == last;
      if NodeID(last) == id then Some(last)
      else LastWithID(ns[..|ns| - 1], id)
  }

  /** After registering `ns`, an id that some node of `ns` has maps to the
      last such node. */
  lemma {:induction false} LastRegistrationWins(gn: GlobalNodes, ns: seq<Node>, id: int)
    requires AllRegistrable(ns)
    requires LastWithID(ns, id).Some?
    ensures id in AddAll(gn, ns).nodes && AddAll(gn, ns).nodes[id] == LastWithID(ns, id).value
    decreases |ns|
  {
    var last := ns[|ns| - 1];
    var front := ns[..|ns| - 1];
    assert ns == front + [last];
    assert last in ns;
    AddAllSnoc(gn, front, last);
    if NodeID(last) != id {
      LastRegistrationWins(gn, front, id);
    }
  }

  /** An id that no node of `ns` has keeps its earlier entry, or its absence. */
  lemma {:induction false} UntouchedIDsKept(gn: GlobalNodes, ns: seq<Node>, id: int)
    requires AllRegistrable(ns)
    requires LastWithID(ns, id).None?
    ensures var r := AddAll(gn, ns);
            (id in r.nodes <==> id in gn.nodes) && (id in gn.nodes ==> r.nodes[id] == gn.nodes[id])
    decreases |ns|
  {
    if |ns| > 0 {
      var last := ns[|ns| - 1];
      var front := ns[..|ns| - 1];
      assert ns == front + [last];
      assert last in ns;
      AddAllSnoc(gn, front, last);
      UntouchedIDsKept(gn, front, id);
    }
  }

  /** Registering `ns + [n]` is registering `ns`, then `n`. */
  lemma {:induction false} AddAllSnoc(gn: GlobalNodes, ns: seq<Node>, n: Node)
    requires AllRegistrable(ns + [n])
    ensures AllRegistrable(ns)
    ensures AddAll(gn, ns + [n]) == AddASTNode(AddAll(gn, ns), n)
    decreases |ns|
  {
    assert n in ns + [n];
    assert forall x :: x in ns ==> x in ns + [n];
    if |ns| == 0 {
      assert [n][1..] == [];
    } else {
      assert (ns + [n])[1..] == ns[1..] + [n];
      assert ns[0] in ns;
      AddAllSnoc(AddASTNode(gn, ns[0]), ns[1..], n);
    }
  }
}

/** The driver: build the tree, trace each function's calls, act on at most
    one delegatecall finding per function, and optionally close the call
    paths transitively. */
module Runner {
  import opened Wrappers
  import opened Ast
  import opened Registry
  import opened CallPath
  import opened Traverse
  import opened Inst05
  import opened Builder
  import BuilderFacts

  // ---------------------------------------------------------------------------
  // Findings

  /** What a function's traversal reported: a delegatecall to an unknown
      target, or to the named contract. */
  datatype Finding = Unknown | Known(callee: string)

  /** What the traversal sent (the sends themselves happen in code this
      model does not contain), and which case `select` takes when both
      mailboxes are ready (Go chooses at random). */
  datatype Sent = Sent(unknown: bool, known: Option<string>, preferKnown: bool)

  /** Fresh one-slot mailboxes holding what was sent. */
  function Deliver(s: Sent): (r: (Mailbox<()>, Mailbox<string>))
    ensures r.0.Valid() && r.1.Valid() && r.0.capacity == 1 && r.1.capacity == 1
    ensures r.0.queue == (if s.unknown then [()] else [])
    ensures r.1.queue == (if s.known.Some? then [s.known.value] else [])
  {
    var u := MakeMailbox<()>(1);
    var k := MakeMailbox<string>(1);
    ((if s.unknown then TrySend(u, ()).value else u),
     (if s.known.Some? then TrySend(k, s.known.value).value else k))
  }

  /** A `select` with a `default` branch: nothing if neither mailbox holds
      an item, else one item from a ready mailbox. */
  function Select(u: Mailbox<()>, k: Mailbox<string>, preferKnown: bool): (r: Option<Finding>)
    requires u.Valid() && k.Valid()
    ensures r.None? <==> |u.queue| == 0 && |k.queue| == 0
    ensures r == Some(Unknown) ==> |u.queue| > 0
    ensures r.Some? && r.value.Known? ==> |k.queue| > 0 && r.value.callee == k.queue[0]
    ensures |u.queue| > 0 && |k.queue| == 0 ==> r == Some(Unknown)
    ensures |u.queue| == 0 && |k.queue| > 0 ==> r == Some(Known(k.queue[0]))
  {
    var fromU := TryRecv(u);
    var fromK := TryRecv(k);
    if fromK.Some? && (fromU.None? || preferKnown) then Some(Known(fromK.value.0))
    else if fromU.Some? then Some(Unknown)
    else None
  }

  // ---------------------------------------------------------------------------
  // The mutable world: contracts are shared, so an instrumented contract is
  // written back to the registry, and later functions see it.

  /** An assertion handed to a contract's delegatecall pass. */
  datatype Delegated = Delegated(contract: int, statement: Node)

  datatype World = World(gn: GlobalNodes, delegated: seq<Delegated>)

  /** Write a changed contract back under its id (and its name, when the
      name index holds that same contract). */
  function Store(gn: GlobalNodes, c: Node): (r: GlobalNodes)
    requires c.ContractDefinition?
    ensures WellIndexed(gn) ==> WellIndexed(r)
    ensures r.functions == gn.functions
    ensures r.contractsByID == gn.contractsByID[c.at.id := c]
    ensures r.nodes.Keys == gn.nodes.Keys + {c.at.id}
    ensures forall k :: k in gn.contractsByID && k != c.at.id ==> r.contractsByID[k] == gn.contractsByID[k]
  {
    var byName :=
      if c.at.name in gn.contractsByName && gn.contractsByName[c.at.name].ContractDefinition? &&
         gn.contractsByName[c.at.name].at.id == c.at.id
      then gn.contractsByName[c.at.name := c] else gn.contractsByName;
    GlobalNodes(gn.nodes[c.at.id := c], gn.contractsByID[c.at.id := c], byName, gn.functions)
  }

  /** Instrument `target`'s owner, store it, and hand the matching
      assertion to `home`'s delegatecall pass. */
  function Instrument(w: World, target: Node, home: Node, variables: seq<string>): (r: World)
    requires target.ContractDefinition? && home.ContractDefinition?
    ensures r.gn == Store(w.gn, InstrumentCodeForOwner(target, variables).contract)
    ensures r.delegated ==
            w.delegated + [Delegated(home.at.id, InstrumentCodeForAssert(InstrumentCodeForOwner(target, variables).owner))]
  {
    var o := InstrumentCodeForOwner(target, variables);
    World(Store(w.gn, o.contract), w.delegated + [Delegated(home.at.id, InstrumentCodeForAssert(o.owner))])
  }

  /** A registered contract under `id`, if there is one. */
  function ContractByID(gn: GlobalNodes, id: int): (r: Option<Node>)
    ensures r.Some? <==> Present(gn, id)
    ensures r.Some? ==> r.value == gn.contractsByID[id]
  {
    if Present(gn, id) then Some(gn.contractsByID[id]) else None
  }

  /** The instrumentation the two findings share: into the Ownable base if
      the contract inherits its owner, else into the contract itself; the
      assertion always goes to the contract. */
  function Protect(w: World, contract: Node, variables: seq<string>): (r: Result<World>)
    requires contract.ContractDefinition?
    ensures IsInheritFromOwnableContract(contract, w.gn, variables).Err? <==> r.Err?
    ensures r.Ok? ==> r.value.gn.functions == w.gn.functions
    ensures r.Ok? ==> |r.value.delegated| == |w.delegated| + 1 &&
                      r.value.delegated[|w.delegated|].contract == contract.at.id
    ensures r.Ok? && IsInheritFromOwnableContract(contract, w.gn, variables).value.Some? ==>
              var base := IsInheritFromOwnableContract(contract, w.gn, variables).value.value;
              r.value == Instrument(w, base, contract, variables)
    ensures r.Ok? && IsInheritFromOwnableContract(contract, w.gn, variables).value.None? ==>
              r.value == Instrument(w, contract, contract, variables)
  {
    var inherited := IsInheritFromOwnableContract(contract, w.gn, variables);
    if inherited.Err? then Err(inherited.msg)
    else
      var target := if inherited.value.Some? then inherited.value.value else contract;
      assert target.ContractDefinition? by {
        if inherited.value.Some? {
          assert OwnerBase(inherited.value.value, variables);
        }
      }
      Ok(Instrument(w, target, contract, variables))
  }

  /** The layouts of caller and callee share an owner slot. */
  function LayoutsShareOwner(caller: Node, callee: Node, gn: GlobalNodes, variables: seq<string>, fuel: nat): (r: Result<bool>)
    requires caller.ContractDefinition? && callee.ContractDefinition?
    ensures r.Err? <==> StateVars(caller, gn, fuel).Err? || StateVars(callee, gn, fuel).Err?
    ensures r.Ok? ==> (r.value <==> SharedOwnerSlot(StateVars(caller, gn, fuel).value, StateVars(callee, gn, fuel).value, variables))
  {
    var a := StateVars(caller, gn, fuel);
    var b := StateVars(callee, gn, fuel);
    if a.Err? then Err(a.msg)
    else if b.Err? then Err(b.msg)
    else Ok(SharedOwnerSlot(a.value, b.value, variables))
  }

  /** The known-target case: the callee is looked up by name and the
      owner instrumented only when both layouts put the owner in the same
      slot. */
  function ActKnown(w: World, caller: Node, calleeName: string, variables: seq<string>, fuel: nat): (r: Result<World>)
    requires caller.ContractDefinition?
    ensures r.Ok? ==> |r.value.delegated| <= |w.delegated| + 1 && r.value.gn.functions == w.gn.functions
    ensures calleeName !in w.gn.contractsByName || !w.gn.contractsByName[calleeName].ContractDefinition? ==> r.Err?
    ensures calleeName in w.gn.contractsByName && w.gn.contractsByName[calleeName].ContractDefinition? ==>
              var same := LayoutsShareOwner(caller, w.gn.contractsByName[calleeName], w.gn, variables, fuel);
              (same.Err? ==> r.Err?) &&
              (same == Ok(true) ==> r == Protect(w, caller, variables)) &&
              (same == Ok(false) ==> r == Ok(w))
  {
    if calleeName !in w.gn.contractsByName || !w.gn.contractsByName[calleeName].ContractDefinition? then
      Err("callee contract is not registered")
    else
      var same := LayoutsShareOwner(caller, w.gn.contractsByName[calleeName], w.gn, variables, fuel);
      if same.Err? then Err(same.msg)
      else if same.value then Protect(w, caller, variables)
      else Ok(w)
  }

  /** Act on one finding of function `f` (`run.go`'s two `select` cases).
      A contract missing from the registry is an error: the Go type
      assertions panic. */
  function Act(w: World, f: Node, finding: Finding, variables: seq<string>, fuel: nat): (r: Result<World>)
    requires f.FunctionDefinition?
    ensures r.Ok? ==> |r.value.delegated| <= |w.delegated| + 1 && r.value.gn.functions == w.gn.functions
    ensures !Present(w.gn, f.at.scope) ==> r.Err?
    ensures Present(w.gn, f.at.scope) ==>
              r == (if finding.Unknown? then Protect(w, w.gn.contractsByID[f.at.scope], variables)
                    else ActKnown(w, w.gn.contractsByID[f.at.scope], finding.callee, variables, fuel))
  {
    var home := ContractByID(w.gn, f.at.scope);
    if home.None? then Err("contract of function is not registered")
    else if finding.Unknown? then Protect(w, home.value, variables)
    else ActKnown(w, home.value, finding.callee, variables, fuel)
  }

  /** One turn of the loop over functions: a fresh call path traced from
      `f`, then at most one finding acted on; none leaves the world as it
      was. */
  function FunctionTurn(w: World, f: Node, s: Sent, variables: seq<string>, fuel: nat): (r: Result<(World, Ncp)>)
    requires f.FunctionDefinition?
    ensures r.Ok? ==> r.value.1 == TraverseFunctionCall(Legacy, w.gn, f, NewNormalCallPath())
    ensures r.Ok? ==> |r.value.0.delegated| <= |w.delegated| + 1 && r.value.0.gn.functions == w.gn.functions
    ensures !s.unknown && s.known.None? ==> r == Ok((w, TraverseFunctionCall(Legacy, w.gn, f, NewNormalCallPath())))
  {
    var path := TraverseFunctionCall(Legacy, w.gn, f, NewNormalCallPath());
    var boxes := Deliver(s);
    var finding := Select(boxes.0, boxes.1, s.preferKnown);
    if finding.None? then Ok((w, path))
    else
      var acted := Act(w, f, finding.value, variables, fuel);
      if acted.Err? then Err(acted.msg) else Ok((acted.value, path))
  }

  /** The loop over the registered functions, in the order the map range
      yields them; an id outside the function index yields nothing. */
  function Functions(w: World, order: seq<int>, sent: int -> Sent, variables: seq<string>, fuel: nat):
    (r: Result<(World, seq<Ncp>)>)
    ensures r.Ok? ==> |r.value.0.delegated| <= |w.delegated| + |order|
    ensures r.Ok? ==> r.value.0.gn.functions == w.gn.functions && r.value.1 == Traced(w.gn, order)
    decreases |order|
  {
    if |order| == 0 then Ok((w, []))
    else
      var id := order[0];
      assert forall i :: 1 <= i < |order| ==> order[1..][i - 1] == order[i];
      if id !in w.gn.functions || !w.gn.functions[id].FunctionDefinition? then
        Functions(w, order[1..], sent, variables, fuel)
      else
        var turn := FunctionTurn(w, w.gn.functions[id], sent(id), variables, fuel);
        if turn.Err? then Err(turn.msg)
        else
          var rest := Functions(turn.value.0, order[1..], sent, variables, fuel);
          TracedDependsOnFunctions(turn.value.0.gn, w.gn, order[1..]);
          if rest.Err? then Err(rest.msg)
          else Ok((rest.value.0, [turn.value.1] + rest.value.1))
  }

  /** The call paths the loop traces, one per id naming a registered
      function definition, each from a fresh path. */
  function Traced(gn: GlobalNodes, order: seq<int>): (r: seq<Ncp>)
    ensures |r| <= |order|
    decreases |order|
  {
    if |order| == 0 then []
    else
      var id := order[0];
      var rest := Traced(gn, order[1..]);
      if id in gn.functions && gn.functions[id].FunctionDefinition?
      then [TraverseFunctionCall(Legacy, gn, gn.functions[id], NewNormalCallPath())] + rest
      else rest
  }

  /** Tracing reads only the function index: instrumented contracts do not
      change the paths later functions get. */
  lemma {:induction false} ResolvedDependsOnFunctions(a: GlobalNodes, b: GlobalNodes, cs: seq<Node>)
    requires a.functions == b.functions && forall c :: c in cs ==> c.FunctionCall?
    ensures Resolved(a, cs) == Resolved(b, cs)
    decreases |cs|
  {
    if |cs| > 0 {
      ResolvedDependsOnFunctions(a, b, cs[1..]);
    }
  }

  lemma {:induction false} TracedDependsOnFunctions(a: GlobalNodes, b: GlobalNodes, order: seq<int>)
    requires a.functions == b.functions
    ensures Traced(a, order) == Traced(b, order)
    decreases |order|
  {
    if |order| > 0 {
      TracedDependsOnFunctions(a, b, order[1..]);
      var id := order[0];
      if id in a.functions && a.functions[id].FunctionDefinition? {
        var f := a.functions[id];
        ResolvedDependsOnFunctions(a, b, Calls(Legacy, f));
      }
    }
  }

  /** Nothing sent for any function: the loop succeeds and changes nothing. */
  predicate Quiet(order: seq<int>, sent: int -> Sent) {
    forall i :: 0 <= i < |order| ==> !sent(order[i]).unknown && sent(order[i]).known.None?
  }

  lemma {:induction false} QuietFunctionsChangeNothing(w: World, order: seq<int>, sent: int -> Sent, variables: seq<string>, fuel: nat)
    requires Quiet(order, sent)
    ensures var r := Functions(w, order, sent, variables, fuel);
            r == Ok((w, Traced(w.gn, order)))
    decreases |order|
  {
    if |order| > 0 {
      assert Quiet(order[1..], sent) by {
        forall i | 0 <= i < |order[1..]| ensures !sent(order[1..][i]).unknown && sent(order[1..][i]).known.None? {
          assert order[1..][i] == order[i + 1];
        }
      }
      QuietFunctionsChangeNothing(w, order[1..], sent, variables, fuel);
    }
  }

  // ---------------------------------------------------------------------------
  // The closure pass

  const OutOfFuel := "call paths do not bottom out"

  /** One step of the closure pass: a path whose head names a registered
      function is traced again from it. */
  function Retrace(t: Ncp, gn: GlobalNodes): (r: Ncp)
    ensures |r.callees| >= |t.callees| && r.callees[..|t.callees|] == t.callees
    ensures t.id in gn.functions && gn.functions[t.id].FunctionDefinition? ==>
              r.name == gn.functions[t.id].at.signature && r.id == gn.functions[t.id].at.id &&
              r.callees[|t.callees|..] == Resolved(gn, Calls(Legacy, gn.functions[t.id]))
    ensures t.id in gn.functions && gn.functions[t.id].FunctionDefinition? ==>
              r == TraverseFunctionCall(Legacy, gn, gn.functions[t.id], t)
    ensures !(t.id in gn.functions && gn.functions[t.id].FunctionDefinition?) ==> r == t
  {
    if t.id in gn.functions && gn.functions[t.id].FunctionDefinition?
    then TraverseFunctionCall(Legacy, gn, gn.functions[t.id], t) else t
  }

  /** The body of the loop in `TraverseFunctionCallAll`: the path is
      traced again when it names a registered function, and its callees,
      if any, are closed one level down.  No visited set is kept, so
      `fuel` bounds the depth and running out is reported. */
  function CloseOne(t: Ncp, gn: GlobalNodes, fuel: nat): (r: Result<Ncp>)
    ensures r.Ok? ==> r.value.name == Retrace(t, gn).name && r.value.id == Retrace(t, gn).id &&
                      |r.value.callees| == |Retrace(t, gn).callees|
    ensures r.Ok? ==> r.value.id == t.id || t.id in gn.functions
    ensures |Retrace(t, gn).callees| == 0 ==> r == Ok(Retrace(t, gn))
    ensures |Retrace(t, gn).callees| > 0 && fuel == 0 ==> r.Err?
    decreases fuel, 0
  {
    var traced := Retrace(t, gn);
    if |traced.callees| == 0 then Ok(traced)
    else if fuel == 0 then Err(OutOfFuel)
    else
      var below := CloseAll(traced.callees, gn, fuel - 1);
      if below.Err? then Err(below.msg) else Ok(traced.(callees := below.value))
  }

  /** `TraverseFunctionCallAll`: every path of the list is closed in turn;
      the first failure fails the pass. */
  function CloseAll(ts: seq<Ncp>, gn: GlobalNodes, fuel: nat): (r: Result<seq<Ncp>>)
    ensures r.Ok? ==> |r.value| == |ts|
    ensures r.Ok? ==> forall i :: 0 <= i < |ts| ==> r.value[i].id == ts[i].id || ts[i].id in gn.functions
    ensures r.Ok? ==> forall i :: 0 <= i < |ts| ==>
              r.value[i].name == Retrace(ts[i], gn).name && r.value[i].id == Retrace(ts[i], gn).id &&
              |r.value[i].callees| == |Retrace(ts[i], gn).callees|
    decreases fuel, |ts|
  {
    if |ts| == 0 then Ok([])
    else
      var head := CloseOne(ts[0], gn, fuel);
      var rest := CloseAll(ts[1..], gn, fuel);
      assert forall i :: 1 <= i < |ts| ==> ts[i] == ts[1..][i - 1];
      if head.Err? then Err(head.msg)
      else if rest.Err? then Err(rest.msg)
      else Ok([head.value] + rest.value)
  }

  /** The pass closes each path on its own: it succeeds exactly when every
      path's closure does, and then holds those closures in order. */
  lemma {:induction false} CloseAllEach(ts: seq<Ncp>, gn: GlobalNodes, fuel: nat)
    ensures CloseAll(ts, gn, fuel).Ok? <==> forall i :: 0 <= i < |ts| ==> CloseOne(ts[i], gn, fuel).Ok?
    ensures CloseAll(ts, gn, fuel).Ok? ==>
              forall i :: 0 <= i < |ts| ==> CloseAll(ts, gn, fuel).value[i] == CloseOne(ts[i], gn, fuel).value
    decreases |ts|
  {
    if |ts| > 0 {
      CloseAllEach(ts[1..], gn, fuel);
      assert forall i :: 1 <= i < |ts| ==> ts[i] == ts[1..][i - 1];
    }
  }

  /** A function that calls itself makes the closure pass run out of fuel
      whatever it is given: the Go recursion does not end. */
  lemma {:induction false} SelfCallDiverges(ts: seq<Ncp>, gn: GlobalNodes, j: nat, fuel: nat)
    requires j < |ts| && ts[j].id in gn.functions && gn.functions[ts[j].id].FunctionDefinition?
    requires exists k :: k in Resolved(gn, Calls(Legacy, gn.functions[ts[j].id])) && k.id == ts[j].id
    ensures CloseAll(ts, gn, fuel).Err?
    decreases fuel, j
  {
    if j == 0 {
      var t := ts[0];
      var q := SelfCallIndex(t, gn);
      if fuel > 0 {
        SelfCallDiverges(Retrace(t, gn).callees, gn, q, fuel - 1);
      }
      HeadFails(ts, gn, fuel);
    } else {
      assert ts[1..][j - 1] == ts[j];
      SelfCallDiverges(ts[1..], gn, j - 1, fuel);
      TailFails(ts, gn, fuel);
    }
  }

  /** Retracing a function that calls itself yields a callee naming it again. */
  lemma SelfCallIndex(t: Ncp, gn: GlobalNodes) returns (q: nat)
    requires t.id in gn.functions && gn.functions[t.id].FunctionDefinition?
    requires exists k :: k in Resolved(gn, Calls(Legacy, gn.functions[t.id])) && k.id == t.id
    ensures q < |Retrace(t, gn).callees| && Retrace(t, gn).callees[q].id == t.id
  {
    var rs := Resolved(gn, Calls(Legacy, gn.functions[t.id]));
    var k :| k in rs && k.id == t.id;
    q := IndexInAppend(t.callees, rs, k);
  }

  lemma IndexInAppend(a: seq<Ncp>, b: seq<Ncp>, k: Ncp) returns (q: nat)
    requires k in b
    ensures q < |a + b| && (a + b)[q] == k
  {
    var p :| 0 <= p < |b| && b[p] == k;
    q := |a| + p;
  }

  /** The closure of the first path failing fails the pass. */
  lemma HeadFails(ts: seq<Ncp>, gn: GlobalNodes, fuel: nat)
    requires |ts| > 0 && |Retrace(ts[0], gn).callees| > 0
    requires fuel > 0 ==> CloseAll(Retrace(ts[0], gn).callees, gn, fuel - 1).Err?
    ensures CloseAll(ts, gn, fuel).Err?
  {
    assert CloseOne(ts[0], gn, fuel).Err?;
  }

  /** The closure of the other paths failing fails the pass. */
  lemma TailFails(ts: seq<Ncp>, gn: GlobalNodes, fuel: nat)
    requires |ts| > 0 && CloseAll(ts[1..], gn, fuel).Err?
    ensures CloseAll(ts, gn, fuel).Err?
  {
  }

  /** The pass treats each path on its own: closing two lists one after
      the other is closing each and joining the results. */
  lemma {:induction false} CloseAllAppend(a: seq<Ncp>, b: seq<Ncp>, gn: GlobalNodes, fuel: nat)
    ensures var ra := CloseAll(a, gn, fuel);
            var rb := CloseAll(b, gn, fuel);
            CloseAll(a + b, gn, fuel) ==
              if ra.Err? then ra else if rb.Err? then rb else Ok(ra.value + rb.value)
    decreases |a|
  {
    if |a| == 0 {
      assert a + b == b;
      if CloseAll(b, gn, fuel).Ok? {
        assert [] + CloseAll(b, gn, fuel).value == CloseAll(b, gn, fuel).value;
      }
    } else {
      assert (a + b)[0] == a[0] && (a + b)[1..] == a[1..] + b;
      CloseAllAppend(a[1..], b, gn, fuel);
      var head := CloseOne(a[0], gn, fuel);
      var rt := CloseAll(a[1..], gn, fuel);
      var rb := CloseAll(b, gn, fuel);
      if head.Ok? && rt.Ok? && rb.Ok? {
        assert [head.value] + (rt.value + rb.value) == ([head.value] + rt.value) + rb.value;
      }
    }
  }

  /** Like tracing, the closure reads only the function index. */
  lemma {:induction false} CloseAllDependsOnFunctions(ts: seq<Ncp>, a: GlobalNodes, b: GlobalNodes, fuel: nat)
    requires a.functions == b.functions
    ensures CloseAll(ts, a, fuel) == CloseAll(ts, b, fuel)
    decreases fuel, |ts|
  {
    if |ts| > 0 {
      CloseOneDependsOnFunctions(ts[0], a, b, fuel);
      CloseAllDependsOnFunctions(ts[1..], a, b, fuel);
    }
  }

  lemma {:induction false} CloseOneDependsOnFunctions(t: Ncp, a: GlobalNodes, b: GlobalNodes, fuel: nat)
    requires a.functions == b.functions
    ensures CloseOne(t, a, fuel) == CloseOne(t, b, fuel)
    decreases fuel, 0
  {
    if t.id in a.functions && a.functions[t.id].FunctionDefinition? {
      ResolvedDependsOnFunctions(a, b, Calls(Legacy, a.functions[t.id]));
    }
    assert Retrace(t, a) == Retrace(t, b);
    var traced := Retrace(t, a);
    if |traced.callees| > 0 && fuel > 0 {
      CloseAllDependsOnFunctions(traced.callees, a, b, fuel - 1);
    }
  }

  /** The `isCfg` step of `Run`: each traced path keeps its head, and its
      callees are closed. */
  function CloseCallees(ps: seq<Ncp>, gn: GlobalNodes, fuel: nat): (r: Result<seq<Ncp>>)
    ensures r.Ok? ==> |r.value| == |ps|
    ensures r.Ok? ==> forall i :: 0 <= i < |ps| ==>
              r.value[i].name == ps[i].name && r.value[i].id == ps[i].id &&
              CloseAll(ps[i].callees, gn, fuel) == Ok(r.value[i].callees)
    ensures r.Err? <==> exists i :: 0 <= i < |ps| && CloseAll(ps[i].callees, gn, fuel).Err?
    decreases |ps|
  {
    if |ps| == 0 then Ok([])
    else
      var head := CloseAll(ps[0].callees, gn, fuel);
      var rest := CloseCallees(ps[1..], gn, fuel);
      assert forall i :: 1 <= i < |ps| ==> ps[i] == ps[1..][i - 1];
      if head.Err? then Err(head.msg)
      else if rest.Err? then Err(rest.msg)
      else Ok([ps[0].(callees := head.value)] + rest.value)
  }

  /** Closing against a registry with the same function index gives the
      same paths, and a closed list keeps its length. */
  lemma ClosedByIndex(ps: seq<Ncp>, a: GlobalNodes, b: GlobalNodes, fuel: nat)
    requires a.functions == b.functions
    ensures forall i :: 0 <= i < |ps| ==> CloseAll(ps[i].callees, a, fuel) == CloseAll(ps[i].callees, b, fuel)
    ensures forall i :: 0 <= i < |ps| && CloseAll(ps[i].callees, a, fuel).Ok? ==>
              |CloseAll(ps[i].callees, a, fuel).value| == |ps[i].callees|
  {
    forall i | 0 <= i < |ps|
      ensures CloseAll(ps[i].callees, a, fuel) == CloseAll(ps[i].callees, b, fuel)
    {
      CloseAllDependsOnFunctions(ps[i].callees, a, b, fuel);
    }
  }

  // ---------------------------------------------------------------------------
  // Run

  /** What a run produces: the (shared, possibly instrumented) source unit,
      one call path per function, and the assertions handed to the
      delegatecall pass. */
  datatype Outcome = Outcome(unit: Node, paths: seq<Ncp>, delegated: seq<Delegated>)

  /** The source unit with every top-level contract replaced by the
      registry's current version of it. */
  function Refresh(su: Node, gn: GlobalNodes): (r: Node)
    requires su.SourceUnit?
    ensures r.SourceUnit? && r.at == su.at && |r.nodes| == |su.nodes|
    ensures forall i :: 0 <= i < |su.nodes| ==>
              r.nodes[i] == (if su.nodes[i].ContractDefinition? && su.nodes[i].at.id in gn.contractsByID
                             then gn.contractsByID[su.nodes[i].at.id] else su.nodes[i])
  {
    SourceUnit(su.at, seq(|su.nodes|, i requires 0 <= i < |su.nodes| =>
                       if su.nodes[i].ContractDefinition? && su.nodes[i].at.id in gn.contractsByID
                       then gn.contractsByID[su.nodes[i].at.id] else su.nodes[i]))
  }

  /** The whole file as an object: an empty object or `null` decodes to
      a source unit with no fields and no nodes. */
  function Whole(file: Raw): (r: Raw)
    ensures r.Object? && r.decodes == (file.Empty? || file.decodes)
    ensures file.Object? ==> r == file
    ensures file.Empty? ==> r.children == []
  {
    if file.Object? then file else Object(file.key, "", true, Blank(), [])
  }

  /** The registry and source unit built from the whole file. */
  function Parse(file: Raw): (r: Built<Node>)
    ensures r.result.Ok? ==> r.result.value.SourceUnit? && WellIndexed(r.gn)
    ensures file.Object? && !file.decodes ==> r.result.Err?
  {
    var b := BuildAs(Legacy, KSourceUnit, Whole(file), NewGlobalNodes());
    b
  }

  /** Parsing registers what the file declares: a file holding one contract
      with one function puts the function in the function index and the
      contract in both contract indexes, so the loop over functions has
      that function to trace. */
  lemma ParseRegistersContractFunction(ftag: string, fat: Attrs, cat: Attrs, uat: Attrs)
    requires ftag == Name(KFunctionDefinition)
    ensures var f := BuilderFacts.BareFunction(fat);
            var c := ContractDefinition(Decoded(cat), [], [f]);
            var file := Object("", Name(KSourceUnit), true, uat,
                               [Object("nodes", Name(KContractDefinition), true, cat, [Object("nodes", ftag, true, fat, [])])]);
            var b := Parse(file);
            b.result == Ok(SourceUnit(Decoded(uat), [c])) &&
            fat.id in b.gn.functions && b.gn.functions[fat.id] == f &&
            cat.id in b.gn.contractsByID && b.gn.contractsByID[cat.id] == c &&
            Decoded(cat).name in b.gn.contractsByName && b.gn.contractsByName[Decoded(cat).name] == c &&
            Traced(b.gn, [fat.id]) == [TraverseFunctionCall(Legacy, b.gn, f, NewNormalCallPath())]
  {
    var f := BuilderFacts.BareFunction(fat);
    var c := ContractDefinition(Decoded(cat), [], [f]);
    var su := SourceUnit(Decoded(uat), [c]);
    var file := Object("", Name(KSourceUnit), true, uat,
                       [Object("nodes", Name(KContractDefinition), true, cat, [Object("nodes", ftag, true, fat, [])])]);
    BuilderFacts.UnitWithContract(ftag, fat, cat, uat, NewGlobalNodes());
    assert Whole(file) == file;
    var g1 := AddASTNode(NewGlobalNodes(), f);
    var g2 := AddASTNode(g1, c);
    var g3 := AddASTNode(g2, su);
    assert Parse(file) == Built(Ok(su), g3);
    assert fat.id in g2.functions && g2.functions[fat.id] == f;
    assert fat.id in g3.functions && g3.functions[fat.id] == f;
    TracedOne(g3, fat.id);
  }

  /** One id naming a registered function is traced once. */
  lemma TracedOne(gn: GlobalNodes, id: int)
    requires id in gn.functions && gn.functions[id].FunctionDefinition?
    ensures Traced(gn, [id]) == [TraverseFunctionCall(Legacy, gn, gn.functions[id], NewNormalCallPath())]
  {
    assert [id][0] == id && [id][1..] == [];
  }

  /** `Run`: the file is built into a fresh registry and a build error is
      returned before any analysis; otherwise the unit is analysed. */
  function Run(file: Raw, order: seq<int>, sent: int -> Sent, isCfg: bool,
               variables: seq<string>, fuel: nat): (r: Result<Outcome>)
    ensures Parse(file).result.Err? ==> r == Err(Parse(file).result.msg)
    ensures r.Ok? ==> |r.value.paths| <= |order| && |r.value.delegated| <= |order|
    ensures r.Ok? ==> r.value.unit.SourceUnit?
    ensures r.Ok? && !isCfg ==> r.value.paths == Traced(Parse(file).gn, order)
    ensures r.Ok? && isCfg ==>
              var ts := Traced(Parse(file).gn, order);
              |r.value.paths| == |ts| &&
              forall i :: 0 <= i < |ts| ==>
                r.value.paths[i].name == ts[i].name && r.value.paths[i].id == ts[i].id &&
                |r.value.paths[i].callees| == |ts[i].callees| &&
                CloseAll(ts[i].callees, Parse(file).gn, fuel) == Ok(r.value.paths[i].callees)
  {
    var build := Parse(file);
    if build.result.Err? then Err(build.result.msg)
    else Analyse(build.result.value, build.gn, order, sent, isCfg, variables, fuel)
  }

  /** Each function in `order` is traced and its finding acted on; with
      `isCfg` the call paths are then closed. */
  function Analyse(su: Node, gn: GlobalNodes, order: seq<int>, sent: int -> Sent, isCfg: bool,
                   variables: seq<string>, fuel: nat): (r: Result<Outcome>)
    requires su.SourceUnit?
    ensures r.Ok? ==> |r.value.paths| <= |order| && |r.value.delegated| <= |order|
    ensures r.Ok? ==> r.value.unit.SourceUnit? && |r.value.unit.nodes| == |su.nodes|
    ensures r.Ok? && !isCfg ==> r.value.paths == Traced(gn, order)
    ensures r.Ok? && isCfg ==>
              var ts := Traced(gn, order);
              |r.value.paths| == |ts| &&
              forall i :: 0 <= i < |ts| ==>
                r.value.paths[i].name == ts[i].name && r.value.paths[i].id == ts[i].id &&
                |r.value.paths[i].callees| == |ts[i].callees| &&
                CloseAll(ts[i].callees, gn, fuel) == Ok(r.value.paths[i].callees)
  {
    var done := Functions(World(gn, []), order, sent, variables, fuel);
    if done.Err? then Err(done.msg)
    else
      var w := done.value.0;
      var paths := done.value.1;
      var closed := if isCfg then CloseCallees(paths, w.gn, fuel) else Ok(paths);
      ClosedByIndex(paths, w.gn, gn, fuel);
      if closed.Err? then Err(closed.msg)
      else Ok(Outcome(Refresh(su, w.gn), closed.value, w.delegated))
  }
}

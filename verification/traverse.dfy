/** The function-call pass: which calls a function definition's body makes,
    and how they become callees of its call-path node. */
module Traverse {
  import opened Ast
  import opened Registry
  import opened CallPath

  /** The statement kinds a block hands the pass to. */
  predicate BlockVisits(s: Node)
  {
    s.ExpressionStatement? || s.Return? || s.EmitStatement? || s.IfStatement? ||
    s.VariableDeclarationStatement? || s.ForStatement? || s.RevertStatement? ||
    s.Block? || s.UncheckedBlock? || s.WhileStatement? || s.TryStatement? ||
    s.DoWhileStatement?
  }

  /** `x` is `n` itself or lies somewhere inside it. */
  ghost predicate Within(x: Node, n: Node)
  {
    x == n || x < n
  }

  /** The calls the pass reports, in visit order: the resolved function calls
      it reaches by descending only into the child kinds each node's
      `TraverseFunctionCall` accepts.  A call's own arguments are not
      visited, and a call whose reference is -1 reports nothing. */
  function Calls(d: Dialect, n: Node): (r: seq<Node>)
    ensures forall c :: c in r ==> c.FunctionCall? && c.ref != -1 && Within(c, n)
    decreases n, 1
  {
    if n.FunctionCall? then (if n.ref != -1 then [n] else [])
    else if n.FunctionDefinition? then Pick(d, n.body, n.body.Block?)
    else if n.Block? then CallsIn(d, n.statements, true)
    else if n.UncheckedBlock? then CallsIn(d, n.statements, false)
    else if n.TupleExpression? then Components(d, n.components)
    else if n.TryStatement? then Pick(d, n.externalCall, n.externalCall.FunctionCall?) + Clauses(d, n.clauses)
    else if ExprVisited(n) then ExprCalls(d, n)
    else if StmtVisited(n) then StmtCalls(d, n)
    else []
  }

  /** Expression and declaration kinds whose pass descends into fixed slots. */
  predicate ExprVisited(n: Node)
  {
    n.Assignment? || n.BinaryOperation? || n.UnaryOperation? || n.IndexAccess? ||
    n.MemberAccess? || n.Conditional? || n.VariableDeclaration? || n.Mapping?
  }

  /** Statement kinds whose pass descends into fixed slots. */
  predicate StmtVisited(n: Node)
  {
    n.ExpressionStatement? || n.Return? || n.RevertStatement? || n.IfStatement? ||
    n.ForStatement? || n.WhileStatement? || n.DoWhileStatement? || n.TryCatchClause?
  }

  function ExprCalls(d: Dialect, n: Node): (r: seq<Node>)
    requires ExprVisited(n)
    ensures forall c :: c in r ==> c.FunctionCall? && c.ref != -1 && Within(c, n)
    decreases n, 0
  {
    if n.Assignment? then
      var l, r := n.leftHandSide, n.rightHandSide;
      Pick(d, l, l.IndexAccess? || l.MemberAccess?) +
      Pick(d, r, r.FunctionCall? || r.MemberAccess? || r.BinaryOperation? || r.IndexAccess?)
    else if n.BinaryOperation? then
      var l, r := n.leftExpression, n.rightExpression;
      Pick(d, l, l.BinaryOperation? || l.UnaryOperation? || l.FunctionCall? || l.MemberAccess? || l.IndexAccess?) +
      Pick(d, r, r.BinaryOperation? || r.FunctionCall? || r.UnaryOperation? || r.MemberAccess? ||
                 r.TupleExpression? || r.IndexAccess?)
    else if n.UnaryOperation? then
      var e := n.subExpression;
      Pick(d, e, e.FunctionCall? || e.IndexAccess?)
    else if n.IndexAccess? then
      var b, i := n.baseExpression, n.indexExpression;
      Pick(d, b, b.IndexAccess?) + Pick(d, i, i.FunctionCall? || i.IndexAccess? || i.MemberAccess?)
    else if n.MemberAccess? then
      var e := n.expression;
      Pick(d, e, e.IndexAccess? || e.FunctionCall? || e.MemberAccess?)
    else if n.Conditional? then
      var c, f := n.condition, n.falseExpression;
      Pick(d, c, c.TupleExpression? || c.BinaryOperation?) + Pick(d, f, f.FunctionCall?)
    else if n.VariableDeclaration? then
      var t, v := n.typeName, n.value;
      Pick(d, t, t.Mapping?) + Pick(d, v, v.BinaryOperation? || v.FunctionCall?)
    else
      var v := n.valueType;
      Pick(d, v, v.Mapping?)
  }

  function StmtCalls(d: Dialect, n: Node): (r: seq<Node>)
    requires StmtVisited(n)
    ensures forall c :: c in r ==> c.FunctionCall? && c.ref != -1 && Within(c, n)
    decreases n, 0
  {
    if n.ExpressionStatement? then
      var e := n.expression;
      Pick(d, e, e.Assignment? || e.FunctionCall? || e.UnaryOperation?)
    else if n.Return? then
      var e := n.expression;
      Pick(d, e, e.IndexAccess? || e.BinaryOperation? || e.MemberAccess? || e.FunctionCall? || e.TupleExpression?)
    else if n.RevertStatement? then
      Pick(d, n.errorCall, n.errorCall.FunctionCall?)
    else if n.IfStatement? then
      var c, t, f := n.condition, n.trueBody, n.falseBody;
      if d == Legacy then
        Pick(d, c, c.BinaryOperation? || c.UnaryOperation? || c.IndexAccess?) +
        Pick(d, f, f.Block? || f.ExpressionStatement? || f.IfStatement?) +
        Pick(d, t, t.Block? || t.ExpressionStatement?)
      else
        Pick(d, c, c.BinaryOperation?) + Pick(d, t, t.Block?)
    else if n.ForStatement? then
      var c, l, b := n.condition, n.loop, n.body;
      Pick(d, c, c.BinaryOperation?) + Pick(d, l, l.ExpressionStatement?) + Pick(d, b, b.Block?)
    else if n.WhileStatement? || n.DoWhileStatement? then
      var c, b := n.condition, n.body;
      Pick(d, b, b.Block?) + Pick(d, c, c.FunctionCall?)
    else
      Pick(d, n.block, n.block.Block?)
  }

  /** The calls of `x` when the parent accepts its kind, else nothing. */
  function Pick(d: Dialect, x: Node, accepted: bool): (r: seq<Node>)
    ensures forall c :: c in r ==> c.FunctionCall? && c.ref != -1 && Within(c, x)
    decreases x, 2
  {
    if accepted then Calls(d, x) else []
  }

  /** The statements of a block (`all`) or of an unchecked block, which
      hands on only expression statements and declaration statements. */
  function CallsIn(d: Dialect, ss: seq<Node>, all: bool): (r: seq<Node>)
    ensures forall c :: c in r ==> c.FunctionCall? && c.ref != -1 && exists s :: s in ss && Within(c, s)
    decreases ss, 0
  {
    if |ss| == 0 then []
    else
      var s := ss[0];
      var here := Pick(d, s, if all then BlockVisits(s) else s.ExpressionStatement? || s.VariableDeclarationStatement?);
      var rest := CallsIn(d, ss[1..], all);
      assert forall c :: c in here ==> s in ss && Within(c, s);
      assert forall x :: x in ss[1..] ==> x in ss;
      here + rest
  }

  /** Tuple components: only binary operations are visited. */
  function Components(d: Dialect, cs: seq<Node>): (r: seq<Node>)
    ensures forall c :: c in r ==> c.FunctionCall? && c.ref != -1 && exists s :: s in cs && Within(c, s)
    decreases cs, 0
  {
    if |cs| == 0 then []
    else
      var here := Pick(d, cs[0], cs[0].BinaryOperation?);
      assert forall x :: x in cs[1..] ==> x in cs;
      assert cs[0] in cs;
      here + Components(d, cs[1..])
  }

  /** Try clauses: only catch clauses are visited. */
  function Clauses(d: Dialect, cl: seq<Node>): (r: seq<Node>)
    ensures forall c :: c in r ==> c.FunctionCall? && c.ref != -1 && exists s :: s in cl && Within(c, s)
    decreases cl, 0
  {
    if |cl| == 0 then []
    else
      var here := Pick(d, cl[0], cl[0].TryCatchClause?);
      assert forall x :: x in cl[1..] ==> x in cl;
      assert cl[0] in cl;
      here + Clauses(d, cl[1..])
  }

  /** The call has a reference and the registry resolves it to a function
      definition. */
  predicate Resolves(gn: GlobalNodes, c: Node)
    requires c.FunctionCall?
  {
    c.ref != -1 && c.ref in gn.functions && gn.functions[c.ref].FunctionDefinition?
  }

  /** `FunctionCall.TraverseFunctionCall`: one callee, named by the target's
      signature, when the reference resolves; nothing otherwise. */
  function AddCallee(gn: GlobalNodes, t: Ncp, c: Node): (r: Ncp)
    requires c.FunctionCall?
    ensures r.name == t.name && r.id == t.id
    ensures Resolves(gn, c) ==> r.callees == t.callees + [Ncp(gn.functions[c.ref].at.signature, c.ref, [])]
    ensures !Resolves(gn, c) ==> r == t
  {
    if Resolves(gn, c) then SetCallee(t, gn.functions[c.ref].at.signature, c.ref) else t
  }

  /** The callees a list of calls should produce: one leaf per resolving
      call, in call order. */
  function Resolved(gn: GlobalNodes, cs: seq<Node>): (r: seq<Ncp>)
    requires forall c :: c in cs ==> c.FunctionCall?
    ensures |r| <= |cs|
    ensures forall k :: k in r ==> k.id in gn.functions && gn.functions[k.id].FunctionDefinition? &&
                                   k.name == gn.functions[k.id].at.signature && k.callees == []
  {
    if |cs| == 0 then []
    else
      var c := cs[0];
      assert c in cs;
      (if Resolves(gn, c) then [Ncp(gn.functions[c.ref].at.signature, c.ref, [])] else []) + Resolved(gn, cs[1..])
  }

  /** Visit the calls one after another, as the pass meets them. */
  function AddCallees(gn: GlobalNodes, t: Ncp, cs: seq<Node>): (r: Ncp)
    requires forall c :: c in cs ==> c.FunctionCall?
    decreases |cs|
  {
    if |cs| == 0 then t else AddCallees(gn, AddCallee(gn, t, cs[0]), cs[1..])
  }

  /** Visiting the calls one by one appends exactly `Resolved`: the node's
      name, id and earlier callees are kept. */
  lemma {:induction false} AddCalleesAppendsResolved(gn: GlobalNodes, t: Ncp, cs: seq<Node>)
    requires forall c :: c in cs ==> c.FunctionCall?
    ensures var r := AddCallees(gn, t, cs);
            r.name == t.name && r.id == t.id && r.callees == t.callees + Resolved(gn, cs)
    decreases |cs|
  {
    if |cs| > 0 {
      assert cs[0] in cs;
      var t1 := AddCallee(gn, t, cs[0]);
      AddCalleesAppendsResolved(gn, t1, cs[1..]);
    }
  }

  /** `FunctionDefinition.TraverseFunctionCall`: name the node after the
      function's signature and id, then add the callees its body's calls
      resolve to. */
  function TraverseFunctionCall(d: Dialect, gn: GlobalNodes, fd: Node, t: Ncp): (r: Ncp)
    requires fd.FunctionDefinition?
    ensures r.name == fd.at.signature && r.id == fd.at.id
    ensures r.callees == t.callees + Resolved(gn, Calls(d, fd))
    ensures forall k :: k in r.callees[|t.callees|..] ==>
              k.id in gn.functions && gn.functions[k.id].FunctionDefinition? &&
              k.name == gn.functions[k.id].at.signature && k.callees == []
  {
    var cs := Calls(d, fd);
    var r := AddCallees(gn, SetCaller(t, fd.at.signature, NodeID(fd)), cs);
    AddCalleesAppendsResolved(gn, SetCaller(t, fd.at.signature, NodeID(fd)), cs);
    assert r.callees[|t.callees|..] == Resolved(gn, cs);
    r
  }

  /** A 0.8 `if` has no else slot in its pass: whatever sits there is not
      visited. */
  lemma V08IfIgnoresElse(n: Node, x: Node)
    requires n.IfStatement?
    ensures Calls(V08, n.(falseBody := x)) == Calls(V08, n)
  {
    assert StmtCalls(V08, n.(falseBody := x)) == StmtCalls(V08, n);
  }

  /** A legacy `if` visits a nested `if` only in its else slot: an `if` as
      the true body is skipped. */
  lemma LegacyIfSkipsNestedTrueIf(n: Node)
    requires n.IfStatement? && n.trueBody.IfStatement?
    ensures Calls(Legacy, n) == Calls(Legacy, n.(trueBody := Nil))
  {
    assert StmtCalls(Legacy, n) == StmtCalls(Legacy, n.(trueBody := Nil));
  }

  /** A call's arguments are never visited: replacing them changes nothing
      but the reported node itself. */
  lemma CallArgumentsNotVisited(d: Dialect, n: Node, args: seq<Node>)
    requires n.FunctionCall?
    ensures |Calls(d, FunctionCall(n.at, n.expression, args, n.ref))| == |Calls(d, n)| <= 1
    ensures n.ref != -1 <==> Calls(d, n) == [n]
  {
  }
}

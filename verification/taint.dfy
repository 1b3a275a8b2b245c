/** The owner-taint pass: find writes to the owner variable and attach the
    two shadow statements that record them. */
module Taint {
  import opened Ast

  /** The `Option` fields the pass reads and writes. */
  datatype TaintState = TaintState(
    funcName: string,      // signature of the function being visited
    ownerVar: string,      // name of the shadow variable, `xxx_track_V`
    ownerMapping: string,  // name of the shadow mapping, `xxx_track_mapping_V`
    similar: string,       // the owner variable whose writes are tracked
    tainted: bool,
    trackAssignment: Node)

  /** A visited node and the state after visiting it. */
  datatype Tainted = Tainted(node: Node, st: TaintState)
  datatype TaintedList = TaintedList(nodes: seq<Node>, st: TaintState)

  /** A synthetic string literal. */
  function StringLiteral(v: string): (n: Node)
    ensures n.Literal? && n.at.kind == "string" && n.at.value == v
  {
    Literal(Blank().(kind := "string", value := v))
  }

  /** A synthetic identifier. */
  function Ident(name: string): (n: Node)
    ensures n.Identifier? && n.at.name == name
  {
    Identifier(Blank().(name := name))
  }

  /** The assignment the pass records for an owner write:
      `mapping["<function>"] = <the written value>`. */
  function TrackAssignment(st: TaintState, rhs: Node): (n: Node)
    ensures n.Assignment? && n.at.operator == "=" && n.rightHandSide == rhs
    ensures n.leftHandSide.IndexAccess? && n.leftHandSide.baseExpression == Ident(st.ownerMapping)
    ensures n.leftHandSide.indexExpression == StringLiteral(st.funcName)
  {
    Assignment(Blank().(operator := "="),
               IndexAccess(Blank(), Ident(st.ownerMapping), StringLiteral(st.funcName)),
               rhs)
  }

  /** `Assignment.TraverseTaintOwner`: a write whose left side is an
      identifier named like the owner variable taints the state and records
      the mapping assignment; anything else leaves the state untouched. */
  function OwnerWrite(a: Node, st: TaintState): (r: TaintState)
    requires a.Assignment?
    ensures st.tainted ==> r.tainted
    ensures r.tainted <==> st.tainted || (a.leftHandSide.Identifier? && a.leftHandSide.at.name == st.similar)
    ensures r.(tainted := st.tainted, trackAssignment := st.trackAssignment) == st
    ensures var l := a.leftHandSide;
            if l.Identifier? && l.at.name == st.similar
            then r == st.(tainted := true, trackAssignment := TrackAssignment(st, a.rightHandSide))
            else r == st
  {
    var l := a.leftHandSide;
    if l.Identifier? && l.at.name == st.similar then
      st.(tainted := true, trackAssignment := TrackAssignment(st, a.rightHandSide))
    else st
  }

  /** The shadow statement `mapping["<function>"] = <value>`. */
  function TrackMappingStatement(st: TaintState): (n: Node)
    ensures n.ExpressionStatement? && n.expression == st.trackAssignment
    ensures n.trackVariable.Nil? && n.trackMapping.Nil?
  {
    ExpressionStatement(Blank(), st.trackAssignment, Nil, Nil)
  }

  /** The shadow statement `variable = "<function>"`. */
  function TrackVariableStatement(st: TaintState): (n: Node)
    ensures n.ExpressionStatement? && n.trackVariable.Nil? && n.trackMapping.Nil?
    ensures n.expression.Assignment? && n.expression.at.operator == "="
    ensures n.expression.leftHandSide == Ident(st.ownerVar)
    ensures n.expression.rightHandSide == StringLiteral(st.funcName)
  {
    ExpressionStatement(
      Blank(),
      Assignment(Blank().(operator := "="), Ident(st.ownerVar), StringLiteral(st.funcName)),
      Nil, Nil)
  }

  /** Only the two shadow slots of expression statements differ: every
      other field of every node the pass can reach is the same. */
  predicate ShadowsOnly(a: Node, b: Node)
    decreases a
  {
    a == b ||
    if a.ExpressionStatement? then
      b.ExpressionStatement? && b.at == a.at && b.expression == a.expression
    else if a.Block? then
      b.Block? && b.at == a.at && |b.statements| == |a.statements| &&
      forall i :: 0 <= i < |a.statements| ==> ShadowsOnly(a.statements[i], b.statements[i])
    else if a.UncheckedBlock? then
      b.UncheckedBlock? && b.at == a.at && |b.statements| == |a.statements| &&
      forall i :: 0 <= i < |a.statements| ==> ShadowsOnly(a.statements[i], b.statements[i])
    else if a.TryStatement? then
      b.TryStatement? && b.at == a.at && b.externalCall == a.externalCall && |b.clauses| == |a.clauses| &&
      forall i :: 0 <= i < |a.clauses| ==> ShadowsOnly(a.clauses[i], b.clauses[i])
    else if a.IfStatement? then
      b.IfStatement? && b.at == a.at && b.condition == a.condition &&
      ShadowsOnly(a.trueBody, b.trueBody) && ShadowsOnly(a.falseBody, b.falseBody)
    else if a.WhileStatement? then
      b.WhileStatement? && b.at == a.at && b.condition == a.condition && ShadowsOnly(a.body, b.body)
    else if a.DoWhileStatement? then
      b.DoWhileStatement? && b.at == a.at && b.condition == a.condition && ShadowsOnly(a.body, b.body)
    else if a.TryCatchClause? then
      b.TryCatchClause? && b.at == a.at && b.parameters == a.parameters && ShadowsOnly(a.block, b.block)
    else if a.FunctionDefinition? then
      b.FunctionDefinition? && b.at == a.at && b.parameters == a.parameters &&
      b.returnParameters == a.returnParameters && b.modifiers == a.modifiers &&
      b.overrides == a.overrides && ShadowsOnly(a.body, b.body)
    else false
  }

  /** What every step of the pass keeps: the names it was given, the taint
      once set, the tree and the recorded assignment while nothing is
      tainted, and every field but the shadow slots. */
  predicate Keeps(n: Node, st: TaintState, r: Tainted)
  {
    r.st.ownerVar == st.ownerVar && r.st.ownerMapping == st.ownerMapping && r.st.similar == st.similar &&
    (st.tainted ==> r.st.tainted) &&
    (!r.st.tainted ==> r.node == n && r.st.trackAssignment == st.trackAssignment) &&
    ShadowsOnly(n, r.node)
  }

  predicate KeepsAll(ns: seq<Node>, st: TaintState, r: TaintedList)
  {
    r.st.ownerVar == st.ownerVar && r.st.ownerMapping == st.ownerMapping && r.st.similar == st.similar &&
    r.st.funcName == st.funcName &&
    (st.tainted ==> r.st.tainted) &&
    (!r.st.tainted ==> r.nodes == ns && r.st.trackAssignment == st.trackAssignment) &&
    |r.nodes| == |ns| && forall i :: 0 <= i < |ns| ==> ShadowsOnly(ns[i], r.nodes[i])
  }

  /** `ExpressionStatement.TraverseTaintOwner`: only an assignment is looked
      at; if the state is tainted afterwards, both shadow slots are
      (re)written from the state. */
  function TaintStatement(n: Node, st: TaintState): (r: Tainted)
    requires n.ExpressionStatement?
    ensures Keeps(n, st, r) && r.st.funcName == st.funcName
    ensures n.expression.Assignment? && r.st.tainted ==>
              r.node.trackMapping == TrackMappingStatement(r.st) &&
              r.node.trackVariable == TrackVariableStatement(r.st)
    ensures !n.expression.Assignment? ==> r == Tainted(n, st)
  {
    if n.expression.Assignment? then
      var s := OwnerWrite(n.expression, st);
      if s.tainted then
        Tainted(n.(trackMapping := TrackMappingStatement(s), trackVariable := TrackVariableStatement(s)), s)
      else Tainted(n, s)
    else Tainted(n, st)
  }

  /** `TraverseTaintOwner` of any node: the kinds below hand the pass on,
      every other kind (including `for`, whose pass is not part of this
      model) leaves node and state as they are. */
  function TaintNode(n: Node, st: TaintState): (r: Tainted)
    ensures Keeps(n, st, r)
    ensures !n.FunctionDefinition? ==> r.st.funcName == st.funcName
    ensures n.FunctionDefinition? ==> r.st.funcName == n.at.signature
    decreases n, 2
  {
    if n.ExpressionStatement? then TaintStatement(n, st)
    else if n.Block? || n.UncheckedBlock? then TaintBlock(n, st)
    else if n.IfStatement? then TaintIf(n, st)
    else if n.TryStatement? then TaintTry(n, st)
    else if n.WhileStatement? || n.DoWhileStatement? || n.TryCatchClause? || n.FunctionDefinition? then
      TaintBody(n, st)
    else Tainted(n, st)
  }

  /** The pass on `x` if its parent accepts the kind, else nothing. */
  function Visit(x: Node, st: TaintState, accepted: bool): (r: Tainted)
    ensures Keeps(x, st, r) && (!x.FunctionDefinition? ==> r.st.funcName == st.funcName)
    ensures !accepted ==> r == Tainted(x, st)
    decreases x, 3
  {
    if accepted then TaintNode(x, st) else Tainted(x, st)
  }

  /** A block hands on eight statement kinds; an unchecked block only
      expression statements. */
  function TaintBlock(n: Node, st: TaintState): (r: Tainted)
    requires n.Block? || n.UncheckedBlock?
    ensures Keeps(n, st, r) && r.st.funcName == st.funcName
    decreases n, 1
  {
    var l := TaintList(n.statements, st, n.Block?);
    Tainted(if n.Block? then Block(n.at, l.nodes) else UncheckedBlock(n.at, l.nodes), l.st)
  }

  /** The statements kinds a block hands on. */
  predicate BlockTaints(s: Node)
  {
    s.ExpressionStatement? || s.IfStatement? || s.ForStatement? || s.Block? ||
    s.UncheckedBlock? || s.WhileStatement? || s.TryStatement? || s.DoWhileStatement?
  }

  function TaintList(ss: seq<Node>, st: TaintState, all: bool): (r: TaintedList)
    ensures KeepsAll(ss, st, r)
    decreases ss, 0
  {
    if |ss| == 0 then TaintedList([], st)
    else
      var s := ss[0];
      var h := Visit(s, st, if all then BlockTaints(s) else s.ExpressionStatement?);
      var t := TaintList(ss[1..], h.st, all);
      var r := TaintedList([h.node] + t.nodes, t.st);
      assert forall i :: 1 <= i < |ss| ==> ss[i] == ss[1..][i - 1] && r.nodes[i] == t.nodes[i - 1];
      assert !r.st.tainted ==> h.node == s && t.nodes == ss[1..] && r.nodes == [s] + ss[1..];
      assert ss == [s] + ss[1..];
      r
  }

  /** Try statements hand on their catch clauses, never the external call. */
  function TaintTry(n: Node, st: TaintState): (r: Tainted)
    requires n.TryStatement?
    ensures Keeps(n, st, r) && r.st.funcName == st.funcName
    decreases n, 1
  {
    var l := TaintClauses(n.clauses, st);
    Tainted(n.(clauses := l.nodes), l.st)
  }

  function TaintClauses(cs: seq<Node>, st: TaintState): (r: TaintedList)
    ensures KeepsAll(cs, st, r)
    decreases cs, 0
  {
    if |cs| == 0 then TaintedList([], st)
    else
      var c := cs[0];
      var h := Visit(c, st, c.TryCatchClause?);
      var t := TaintClauses(cs[1..], h.st);
      var r := TaintedList([h.node] + t.nodes, t.st);
      assert forall i :: 1 <= i < |cs| ==> cs[i] == cs[1..][i - 1] && r.nodes[i] == t.nodes[i - 1];
      assert !r.st.tainted ==> h.node == c && t.nodes == cs[1..] && r.nodes == [c] + cs[1..];
      assert cs == [c] + cs[1..];
      r
  }

  /** An `if` skips its condition and visits the else branch (block,
      statement or nested `if`) before the true branch (block or statement). */
  function TaintIf(n: Node, st: TaintState): (r: Tainted)
    requires n.IfStatement?
    ensures Keeps(n, st, r) && r.st.funcName == st.funcName
    ensures r.node.IfStatement? && r.node.at == n.at && r.node.condition == n.condition
    decreases n, 1
  {
    var f := n.falseBody;
    var a := Visit(f, st, f.Block? || f.ExpressionStatement? || f.IfStatement?);
    var t := n.trueBody;
    var b := Visit(t, a.st, t.Block? || t.ExpressionStatement?);
    Tainted(n.(falseBody := a.node, trueBody := b.node), b.st)
  }

  /** Loops and catch clauses visit their block body; a function definition
      first records its signature as the current function. */
  function TaintBody(n: Node, st: TaintState): (r: Tainted)
    requires n.WhileStatement? || n.DoWhileStatement? || n.TryCatchClause? || n.FunctionDefinition?
    ensures Keeps(n, st, r)
    ensures !n.FunctionDefinition? ==> r.st.funcName == st.funcName
    ensures n.FunctionDefinition? ==> r.st.funcName == n.at.signature
    decreases n, 1
  {
    if n.TryCatchClause? then
      var b := Visit(n.block, st, n.block.Block?);
      Tainted(n.(block := b.node), b.st)
    else if n.FunctionDefinition? then
      var s := st.(funcName := n.at.signature);
      var b := Visit(n.body, s, n.body.Block?);
      Tainted(FunctionDefinition(n.at, n.parameters, n.returnParameters, n.modifiers, n.overrides, b.node), b.st)
    else
      var b := Visit(n.body, st, n.body.Block?);
      Tainted(if n.WhileStatement? then WhileStatement(n.at, n.condition, b.node)
              else DoWhileStatement(n.at, n.condition, b.node), b.st)
  }
  /** A member of a contract after the pass: a function keeps everything but
      its body; any other member is untouched. */
  predicate KeptMember(a: Node, b: Node)
  {
    if a.FunctionDefinition? then
      b.FunctionDefinition? && b.at == a.at && b.parameters == a.parameters &&
      b.returnParameters == a.returnParameters && b.modifiers == a.modifiers && b.overrides == a.overrides
    else b == a
  }

  /** The contract-level pass hands on its member functions, in order, with
      one state threaded through them all. */
  function TaintMembers(ms: seq<Node>, st: TaintState): (r: TaintedList)
    ensures r.st.ownerVar == st.ownerVar && r.st.ownerMapping == st.ownerMapping && r.st.similar == st.similar
    ensures st.tainted ==> r.st.tainted
    ensures !r.st.tainted ==> r.nodes == ms && r.st.trackAssignment == st.trackAssignment
    ensures |r.nodes| == |ms|
    ensures forall i :: 0 <= i < |ms| ==> KeptMember(ms[i], r.nodes[i])
    decreases |ms|
  {
    if |ms| == 0 then TaintedList([], st)
    else
      var m := ms[0];
      var h := Visit(m, st, m.FunctionDefinition?);
      var t := TaintMembers(ms[1..], h.st);
      var r := TaintedList([h.node] + t.nodes, t.st);
      assert KeptMember(m, h.node);
      assert forall i :: 1 <= i < |ms| ==> ms[i] == ms[1..][i - 1] && r.nodes[i] == t.nodes[i - 1];
      assert !r.st.tainted ==> h.node == m && t.nodes == ms[1..] && r.nodes == [m] + ms[1..];
      assert ms == [m] + ms[1..];
      r
  }

  /** `ContractDefinition.TraverseTaintOwner`, the entry point of the pass. */
  function TaintContract(c: Node, st: TaintState): (r: Tainted)
    requires c.ContractDefinition?
    ensures r.node.ContractDefinition? && r.node.at == c.at && r.node.baseContracts == c.baseContracts
    ensures |r.node.nodes| == |c.nodes|
    ensures forall i :: 0 <= i < |c.nodes| ==> KeptMember(c.nodes[i], r.node.nodes[i])
    ensures !r.st.tainted ==> r.node == c
  {
    var l := TaintMembers(c.nodes, st);
    Tainted(WithMembers(c, l.nodes), l.st)
  }
}

/** The delegatecall pass as far as its per-kind rules are known: which
    nodes it reaches, in order, and hands to rules outside this model
    (function calls, member accesses, blocks), where the finding is made. */
module Delegate {
  import opened Ast

  /** Kinds whose `TraverseDelegatecall` is modelled here. */
  predicate Modelled(n: Node)
  {
    n.Assignment? || n.ExpressionStatement? || n.IfStatement? || n.FunctionDefinition? ||
    n.BinaryOperation? || n.WhileStatement? || n.DoWhileStatement? || n.TryCatchClause?
  }

  /** `x` is `n` itself or lies inside it. */
  ghost predicate Within(x: Node, n: Node)
  {
    x == n || x < n
  }

  /** The nodes the pass started at `n` hands on, in visit order: a node of
      a modelled kind descends into the child kinds its rule accepts; any
      other node is handed on as it is. */
  function Frontier(n: Node): (r: seq<Node>)
    ensures forall m :: m in r ==> Within(m, n) && !Modelled(m)
    decreases n, 1
  {
    if !Modelled(n) then [n]
    else if n.Assignment? then
      var l, r := n.leftHandSide, n.rightHandSide;
      Hand(l, l.MemberAccess?) + Hand(r, r.FunctionCall? || r.MemberAccess? || r.BinaryOperation?)
    else if n.ExpressionStatement? then
      Hand(n.expression, n.expression.Assignment?)
    else if n.IfStatement? then
      var f, t := n.falseBody, n.trueBody;
      Hand(f, f.Block? || f.ExpressionStatement? || f.IfStatement?) + Hand(t, t.Block? || t.ExpressionStatement?)
    else if n.FunctionDefinition? then
      Hand(n.body, n.body.Block?)
    else if n.BinaryOperation? then
      var l, r := n.leftExpression, n.rightExpression;
      Hand(l, l.BinaryOperation? || l.FunctionCall? || l.MemberAccess?) +
      Hand(r, r.BinaryOperation? || r.FunctionCall? || r.MemberAccess?)
    else if n.TryCatchClause? then
      Hand(n.block, n.block.Block?)
    else
      var c, b := n.condition, n.body;
      Hand(b, b.Block?) + Hand(c, c.FunctionCall?)
  }

  /** The frontier of `x` when the parent accepts its kind, else nothing. */
  function Hand(x: Node, accepted: bool): (r: seq<Node>)
    ensures forall m :: m in r ==> Within(m, x) && !Modelled(m)
    ensures !accepted ==> r == []
    decreases x, 2
  {
    if accepted then Frontier(x) else []
  }

  /** Inside a binary operation the pass meets only calls and member
      accesses (the same holds for `TraverseIndirectDelegatecall`, whose
      rule is identical). */
  lemma {:induction false} BinaryReachesCallsOnly(n: Node)
    requires n.BinaryOperation?
    ensures forall m :: m in Frontier(n) ==> m.FunctionCall? || m.MemberAccess?
    decreases n, 1
  {
    var l, r := n.leftExpression, n.rightExpression;
    OperandReachesCallsOnly(l);
    OperandReachesCallsOnly(r);
    assert Frontier(n) == Hand(l, l.BinaryOperation? || l.FunctionCall? || l.MemberAccess?) +
                          Hand(r, r.BinaryOperation? || r.FunctionCall? || r.MemberAccess?);
  }

  lemma {:induction false} OperandReachesCallsOnly(x: Node)
    ensures forall m :: m in Hand(x, x.BinaryOperation? || x.FunctionCall? || x.MemberAccess?) ==>
              m.FunctionCall? || m.MemberAccess?
    decreases x, 2
  {
    if x.BinaryOperation? {
      BinaryReachesCallsOnly(x);
    } else if x.FunctionCall? || x.MemberAccess? {
      assert Frontier(x) == [x];
    }
  }

  /** An assignment hands on only calls and member accesses: a member
      access on the left, a call, member access or binary operation on the
      right. */
  lemma AssignmentReachesCallsOnly(n: Node)
    requires n.Assignment?
    ensures forall m :: m in Frontier(n) ==> m.FunctionCall? || m.MemberAccess?
  {
    var l, r := n.leftHandSide, n.rightHandSide;
    if r.BinaryOperation? { BinaryReachesCallsOnly(r); }
    assert Frontier(n) == Hand(l, l.MemberAccess?) +
                          Hand(r, r.FunctionCall? || r.MemberAccess? || r.BinaryOperation?);
  }

  /** An expression statement whose expression is not an assignment hands
      on nothing, so a bare call statement is never inspected. */
  lemma CallStatementNotInspected(n: Node)
    requires n.ExpressionStatement? && !n.expression.Assignment?
    ensures Frontier(n) == []
  {
  }
}

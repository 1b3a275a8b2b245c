/** What the taint pass leaves alone, and how the statements it attaches
    print. */
module TaintFacts {
  import opened Ast
  import opened Str
  import opened Render
  import opened Taint

  /** The condition of an `if` is never looked at: replacing it changes the
      result only in that slot. */
  lemma TaintSkipsCondition(n: Node, x: Node, st: TaintState)
    requires n.IfStatement?
    ensures var r := TaintNode(n, st);
            TaintNode(IfStatement(n.at, x, n.trueBody, n.falseBody), st) ==
            Tainted(IfStatement(r.node.at, x, r.node.trueBody, r.node.falseBody), r.st)
  {
    assert TaintNode(n, st) == TaintIf(n, st);
    var m := IfStatement(n.at, x, n.trueBody, n.falseBody);
    assert TaintNode(m, st) == TaintIf(m, st);
  }

  /** An owner write as a statement. */
  predicate OwnerWriteStatement(n: Node, st: TaintState)
  {
    n.ExpressionStatement? && n.expression.Assignment? &&
    n.expression.leftHandSide.Identifier? && n.expression.leftHandSide.at.name == st.similar
  }

  /** The else branch of an `if` is visited before the true branch: with an
      owner write in each, the else branch's shadow mapping statement
      records the else value, while the state the `if` leaves records the
      true value. */
  lemma TaintIfFalseFirst(n: Node, st: TaintState)
    requires n.IfStatement? && OwnerWriteStatement(n.falseBody, st) && OwnerWriteStatement(n.trueBody, st)
    ensures var r := TaintNode(n, st);
            r.st.tainted &&
            r.st.trackAssignment == TrackAssignment(st, n.trueBody.expression.rightHandSide) &&
            r.node.falseBody == n.falseBody.(
              trackMapping := ExpressionStatement(Blank(), TrackAssignment(st, n.falseBody.expression.rightHandSide), Nil, Nil),
              trackVariable := TrackVariableStatement(st)) &&
            r.node.trueBody == n.trueBody.(
              trackMapping := ExpressionStatement(Blank(), TrackAssignment(st, n.trueBody.expression.rightHandSide), Nil, Nil),
              trackVariable := TrackVariableStatement(st))
  {
    assert TaintNode(n, st) == TaintIf(n, st);
    assert TaintNode(n.falseBody, st) == TaintStatement(n.falseBody, st);
    var a := TaintStatement(n.falseBody, st);
    assert TaintNode(n.trueBody, a.st) == TaintStatement(n.trueBody, a.st);
  }

  /** Taint is never cleared: once an owner write has been seen, every later
      assignment statement of the function gets both shadow statements, built
      from the most recently recorded assignment. */
  lemma LaterAssignmentsShadowed(n: Node, st: TaintState)
    requires n.ExpressionStatement? && n.expression.Assignment? && st.tainted
    requires !(n.expression.leftHandSide.Identifier? && n.expression.leftHandSide.at.name == st.similar)
    ensures var r := TaintStatement(n, st);
            r.st == st &&
            r.node.trackMapping == ExpressionStatement(Blank(), st.trackAssignment, Nil, Nil) &&
            r.node.trackVariable == TrackVariableStatement(st)
  {
  }

  /** An identifier printed flat is its name. */
  lemma IdentText(d: Dialect, name: string, indent: string)
    ensures Sub(d, Ident(name), indent) == name
  {
    ExprFlat(d, Ident(name), indent);
  }

  /** A synthetic string literal printed flat is its value in quotes. */
  lemma StringLiteralText(d: Dialect, v: string, indent: string)
    ensures Sub(d, StringLiteral(v), indent) == "\"" + v + "\""
  {
    var n := StringLiteral(v);
    assert !Contains(n.at.typeString, "literal_string hex");
    assert Text(d, n, false, false, indent) == LiteralText(n.at, false, false, indent);
  }

  /** A 0.5 assignment prints as left, " " + operator, " " + right, each
      side only when its kind is one the rule prints. */
  lemma LegacyAssignmentText(a: Node, indent: string)
    requires a.Assignment?
    ensures var l, r := a.leftHandSide, a.rightHandSide;
            Sub(Legacy, a, indent) ==
            (if l.Identifier? || l.IndexAccess? || l.TupleExpression? || l.MemberAccess? then Sub(Legacy, l, indent) else "")
            + " " + a.at.operator
            + (if r.Literal? || r.Identifier? || r.FunctionCall? || r.MemberAccess? ||
                  r.BinaryOperation? || r.IndexAccess? || r.UnaryOperation?
               then " " + Sub(Legacy, r, indent) else "")
  {
    OperationFlat(Legacy, a, indent);
  }

  /** The variable shadow prints as `xxx_track_V = "<function>"`. */
  lemma TrackVariableText(st: TaintState, indent: string)
    ensures StatementHead(Legacy, TrackVariableStatement(st), true, indent) ==
            indent + st.ownerVar + " = " + "\"" + st.funcName + "\""
  {
    var a := TrackVariableStatement(st).expression;
    IdentText(Legacy, st.ownerVar, indent);
    StringLiteralText(Legacy, st.funcName, indent);
    LegacyAssignmentText(a, indent);
  }

  /** The index expression of the mapping shadow prints as
      `xxx_track_mapping_V["<function>"]`. */
  lemma TrackIndexText(st: TaintState, indent: string)
    ensures Sub(Legacy, TrackAssignment(st, Nil).leftHandSide, indent) ==
            st.ownerMapping + "[" + "\"" + st.funcName + "\"" + "]"
  {
    var ia := TrackAssignment(st, Nil).leftHandSide;
    IdentText(Legacy, st.ownerMapping, indent);
    StringLiteralText(Legacy, st.funcName, indent);
    IndexFlat(Legacy, ia, indent);
  }

  /** The mapping shadow prints as `xxx_track_mapping_V["<function>"] = v`
      for every value kind the 0.5 assignment rule prints. */
  lemma TrackMappingText(st: TaintState, rhs: Node, indent: string)
    requires rhs.Literal? || rhs.Identifier? || rhs.FunctionCall? || rhs.MemberAccess? ||
             rhs.BinaryOperation? || rhs.IndexAccess? || rhs.UnaryOperation?
    ensures var s := ExpressionStatement(Blank(), TrackAssignment(st, rhs), Nil, Nil);
            StatementHead(Legacy, s, true, indent) ==
            indent + st.ownerMapping + "[" + "\"" + st.funcName + "\"" + "]" + " = " + Sub(Legacy, rhs, indent)
  {
    var a := TrackAssignment(st, rhs);
    TrackIndexText(st, indent);
    assert a.leftHandSide == TrackAssignment(st, Nil).leftHandSide;
    LegacyAssignmentText(a, indent);
  }
}

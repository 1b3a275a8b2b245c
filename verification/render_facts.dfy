/** Laws of the pretty-printer: what the two flags do, the quirks the
    output format promises, and the once-only printing of shadow statements. */
module RenderFacts {
  import opened Ast
  import opened Str
  import opened Render

  // ---------------------------------------------------------------------------
  // The `isSc` flag

  /** Appending ";" does not change whether a text starts with the
      15-character "address payable", nor what dropping 8 characters leaves. */
  lemma PayablePrefixSemi(c: string)
    ensures StartsWith(c + ";", "address payable") <==> StartsWith(c, "address payable")
    ensures |c| >= 8 ==> (c + ";")[8..] == c[8..] + ";"
  {
    if |c| == 14 {
      assert (c + ";")[14] == ';';
      assert "address payable"[14] == 'e';
    }
    if |c| >= 15 {
      assert (c + ";")[..15] == c[..15];
    }
  }

  /** Turning `isSc` on appends exactly ";" to a kind of `EndsWithSemi` and
      changes nothing for the others. */
  lemma TextSemicolonLaw(d: Dialect, n: Node, isIndent: bool, indent: string)
    requires !Tracked(n)
    ensures Text(d, n, true, isIndent, indent) ==
            Text(d, n, false, isIndent, indent) + (if EndsWithSemi(n) then ";" else "")
  {
    if n.Nil? || Framed(n) {
    } else if n.FunctionCall? {
      var c := CallCode(d, n, false, isIndent, indent);
      assert CallCode(d, n, true, isIndent, indent) == c + ";";
      RewriteSemi(n.at.kind, c);
    } else if n.Literal? || n.Mapping? {
    } else {
      assert !EndsWithSemi(n);
    }
  }

  /** The conversion rewrite commutes with appending ";". */
  lemma RewriteSemi(kind: string, c: string)
    ensures PayableRewrite(kind, c + ";") == PayableRewrite(kind, c) + ";"
  {
    PayablePrefixSemi(c);
  }

  /** The same law for every kind, with the dedup set evolving identically
      whether or not ";" is asked for. */
  lemma SemicolonLaw(d: Dialect, n: Node, isIndent: bool, indent: string, track: set<string>)
    ensures var on := SourceCode(d, n, true, isIndent, indent, track);
            var off := SourceCode(d, n, false, isIndent, indent, track);
            on.code == off.code + (if EndsWithSemi(n) then ";" else "") && on.track == off.track
  {
    if !Tracked(n) {
      UntrackedSemicolonLaw(d, n, isIndent, indent, track);
    } else if n.ExpressionStatement? {
      StatementSemicolonLaw(d, n, isIndent, indent, track);
      StatementSource(d, n, isIndent, indent, track);
    } else {
      CompoundSemicolonLaw(d, n, isIndent, indent, track);
      CompoundSource(d, n, isIndent, indent, track);
    }
  }

  lemma UntrackedSemicolonLaw(d: Dialect, n: Node, isIndent: bool, indent: string, track: set<string>)
    requires !Tracked(n)
    ensures var on := SourceCode(d, n, true, isIndent, indent, track);
            var off := SourceCode(d, n, false, isIndent, indent, track);
            on.code == off.code + (if EndsWithSemi(n) then ";" else "") && on.track == off.track
  {
    TextSemicolonLaw(d, n, isIndent, indent);
  }

  lemma StatementSource(d: Dialect, n: Node, isIndent: bool, indent: string, track: set<string>)
    requires n.ExpressionStatement?
    ensures SourceCode(d, n, true, isIndent, indent, track) == StatementCode(d, n, true, isIndent, indent, track)
    ensures SourceCode(d, n, false, isIndent, indent, track) == StatementCode(d, n, false, isIndent, indent, track)
    ensures EndsWithSemi(n)
  {
  }

  lemma CompoundSource(d: Dialect, n: Node, isIndent: bool, indent: string, track: set<string>)
    requires Tracked(n) && !n.ExpressionStatement?
    ensures SourceCode(d, n, true, isIndent, indent, track) == CompoundCode(d, n, true, isIndent, indent, track)
    ensures SourceCode(d, n, false, isIndent, indent, track) == CompoundCode(d, n, false, isIndent, indent, track)
    ensures EndsWithSemi(n) <==> n.DoWhileStatement?
  {
  }

  lemma StatementSemicolonLaw(d: Dialect, n: Node, isIndent: bool, indent: string, track: set<string>)
    requires n.ExpressionStatement?
    ensures var on := StatementCode(d, n, true, isIndent, indent, track);
            var off := StatementCode(d, n, false, isIndent, indent, track);
            on.code == off.code + ";" && on.track == off.track
  {
  }

  lemma CompoundSemicolonLaw(d: Dialect, n: Node, isIndent: bool, indent: string, track: set<string>)
    requires Tracked(n) && !n.ExpressionStatement?
    ensures var on := CompoundCode(d, n, true, isIndent, indent, track);
            var off := CompoundCode(d, n, false, isIndent, indent, track);
            on.code == off.code + (if n.DoWhileStatement? then ";" else "") && on.track == off.track
  {
    if n.DoWhileStatement? {
      var on := DoWhileCode(d, n, true, isIndent, indent, track);
      var off := DoWhileCode(d, n, false, isIndent, indent, track);
      assert on.code == off.code + ";";
    }
  }

  // ---------------------------------------------------------------------------
  // The `isIndent` flag

  /** For a `Framed` kind the indented text is the indent followed by the
      unindented text. */
  lemma IndentLaw(d: Dialect, n: Node, isSc: bool, indent: string)
    requires Framed(n)
    ensures Text(d, n, isSc, true, indent) == indent + Text(d, n, isSc, false, indent)
  {
  }

  /** A mapping writes the indent after the keyword "mapping". */
  lemma MappingIndentAfterKeyword(d: Dialect, n: Node, isSc: bool, indent: string)
    requires n.Mapping?
    ensures var plain := Text(d, n, isSc, false, indent);
            |plain| >= 7 && plain[..7] == "mapping" &&
            Text(d, n, isSc, true, indent) == "mapping" + indent + plain[7..]
  {
  }

  /** A number or bool literal is its value alone: the indent is discarded. */
  lemma NumberLiteralIgnoresIndent(d: Dialect, n: Node, isSc: bool, isIndent: bool, indent: string)
    requires n.Literal? && (n.at.kind == "number" || n.at.kind == "bool")
    ensures Text(d, n, isSc, isIndent, indent) ==
            n.at.value + (if n.at.subdenomination != "" then " " + n.at.subdenomination else "") + Semi(isSc)
  {
  }

  // ---------------------------------------------------------------------------
  // Calls and type conversions

  /** `address payable(x)` as a type conversion prints as `payable(x)`. */
  lemma PayableConversion(d: Dialect, n: Node, isSc: bool, indent: string)
    requires n.FunctionCall? && n.at.kind == "typeConversion"
    requires n.expression.ElementaryTypeNameExpression?
    requires Sub(d, n.expression, indent) == "address payable"
    ensures Text(d, n, isSc, false, indent) ==
            "payable(" + Join(Items(d, n.arguments, CallArgs, false, false, indent), ", ") + ")" + Semi(isSc)
  {
    var tail := "(" + Join(Items(d, n.arguments, CallArgs, false, false, indent), ", ") + ")" + Semi(isSc);
    ConversionCode(d, n, isSc, indent);
    CallText(d, n, isSc, false, indent);
    RewriteDropsAddress(tail);
  }

  /** A call prints as its call text, put through the conversion rewrite. */
  lemma CallText(d: Dialect, n: Node, isSc: bool, isIndent: bool, indent: string)
    requires n.FunctionCall?
    ensures Text(d, n, isSc, isIndent, indent) == PayableRewrite(n.at.kind, CallCode(d, n, isSc, isIndent, indent))
  {
    assert !Framed(n);
  }

  lemma ConversionCode(d: Dialect, n: Node, isSc: bool, indent: string)
    requires n.FunctionCall? && n.expression.ElementaryTypeNameExpression?
    ensures CallCode(d, n, isSc, false, indent) ==
            Sub(d, n.expression, indent) + "(" + Join(Items(d, n.arguments, CallArgs, false, false, indent), ", ") + ")" + Semi(isSc)
  {
  }

  /** The rewrite turns "address payable" + t into "payable" + t. */
  lemma RewriteDropsAddress(tail: string)
    ensures PayableRewrite("typeConversion", "address payable" + tail) == "payable" + tail
  {
    var code := "address payable" + tail;
    assert code[..15] == "address payable";
    assert code[8..] == "payable" + tail;
  }

  /** An indented call is never rewritten: its text keeps the indent in
      front, because the rewrite looks for "address payable" at position 0. */
  lemma IndentedCallNotRewritten(d: Dialect, n: Node, isSc: bool, indent: string)
    requires n.FunctionCall?
    requires |indent| > 0 && indent[0] != 'a'
    ensures StartsWith(Text(d, n, isSc, true, indent), indent)
  {
    var code := CallCode(d, n, isSc, true, indent);
    assert code[..|indent|] == indent;
    assert code[0] == indent[0];
  }

  // ---------------------------------------------------------------------------
  // Other fixed shapes

  /** A pragma always starts "pragma" and ends ";", whatever the flags. */
  lemma PragmaShape(d: Dialect, n: Node, isSc: bool, isIndent: bool, indent: string)
    requires n.PragmaDirective?
    ensures var r := Text(d, n, isSc, isIndent, indent);
            StartsWith(r, "pragma") && r[|r| - 1] == ';'
  {
  }

  /** A pragma literal is glued on without a space iff it contains ".". */
  lemma PragmaPieceGlue(lit: string)
    ensures var l := TrimQuotes(lit);
            PragmaPiece(lit) == (if '.' in l then l else " " + l)
    ensures |PragmaPiece(lit)| > 0 && PragmaPiece(lit)[0] == ' ' ==> '.' !in TrimQuotes(lit) || TrimQuotes(lit)[0] == ' '
  {
  }

  /** A `for` with no header parts prints "for;;) {": the opening " (" is
      conditional but the closing ") {" is not. */
  lemma EmptyForHeader(d: Dialect, n: Node, isIndent: bool, indent: string, track: set<string>)
    requires n.ForStatement? && n.init.Nil? && n.condition.Nil? && n.loop.Nil? && n.body.Nil?
    ensures ForCode(d, n, isIndent, indent, track) ==
            Out(Ind(isIndent, indent) + "for;;) {\n\n" + Ind(isIndent, indent) + "}", track)
  {
  }

  /** A 0.8 function header starts "function NAME(" whatever the kind, and
      ends with " retruns (…)" exactly when the return list renders non-empty. */
  lemma V08HeaderShape(n: Node, indent: string)
    requires n.FunctionDefinition?
    ensures var h := V08Header(n, indent);
            var rpl := ParamText(V08, n.returnParameters, indent);
            var ret := " retruns (" + rpl + ")";
            StartsWith(h, "function " + n.at.name + "(") &&
            (rpl != "" ==> |h| >= |ret| && h[|h| - |ret|..] == ret)
  {
  }

  /** Its definition always prints the braces, even with no body. */
  lemma V08BracesWithoutBody(n: Node, isSc: bool, isIndent: bool, indent: string, track: set<string>)
    requires n.FunctionDefinition? && n.body.Nil?
    ensures SourceCode(V08, n, isSc, isIndent, indent, track) ==
            Out(Ind(isIndent, indent) + V08Header(n, indent) + " {\n\n" + Ind(isIndent, indent) + "}", track)
  {
    var pre := Ind(isIndent, indent);
    var h := V08Header(n, indent);
    assert SourceCode(V08, n, isSc, isIndent, indent, track) == CompoundCode(V08, n, isSc, isIndent, indent, track);
    assert CompoundCode(V08, n, isSc, isIndent, indent, track) == FunctionCode(V08, n, isIndent, indent, track);
    var b := BodyCode(V08, n.body, isIndent, indent, track);
    assert b == Out(" {\n\n" + pre + "}", track);
    assert pre + h + b.code == pre + h + " {\n\n" + pre + "}";
  }

  /** An error definition prints its parameter list without the closing
      ")" that an event definition of the same name and parameters gets:
      after the keyword, the event text is the error text followed by ")". */
  lemma ErrorLeftUnclosed(d: Dialect, at: Attrs, params: Node, indent: string)
    requires params.ParameterList?
    ensures var e := Text(d, ErrorDefinition(at, params), false, false, indent);
            var v := Text(d, EventDefinition(at, params), false, false, indent);
            StartsWith(e, "error ") && v == "event " + e[6..] + ")"
  {
    var e := ErrorDefinition(at, params);
    var v := EventDefinition(at, params);
    var tail := at.name + "(" + Sub(d, params, indent);
    assert Core(d, e, indent) == DeclCore(d, e, indent) == "error " + tail;
    assert Core(d, v, indent) == DeclCore(d, v, indent) == "event " + tail + ")";
    assert Text(d, e, false, false, indent) == "error " + tail;
    assert ("error " + tail)[6..] == tail;
    assert Text(d, v, false, false, indent) == "event " + tail + ")";
  }

  /** A 0.8 assignment prints " =" whatever its operator: two assignments
      that differ only in the operator print the same text. */
  lemma V08AssignmentIgnoresOperator(a1: Attrs, a2: Attrs, l: Node, r: Node, isSc: bool, isIndent: bool, indent: string)
    requires a1.operator != a2.operator
    ensures Text(V08, Assignment(a1, l, r), isSc, isIndent, indent) ==
            Text(V08, Assignment(a2, l, r), isSc, isIndent, indent)
  {
    var n1 := Assignment(a1, l, r);
    var n2 := Assignment(a2, l, r);
    assert Core(V08, n1, indent) == ExprCore(V08, n1, indent) == OperationCore(V08, n1, indent);
    assert Core(V08, n2, indent) == ExprCore(V08, n2, indent) == OperationCore(V08, n2, indent);
  }

  /** A legacy assignment prints its operator: two assignments with the same
      sides print the same text exactly when their operators agree. */
  lemma LegacyAssignmentShowsOperator(a1: Attrs, a2: Attrs, l: Node, r: Node, isSc: bool, isIndent: bool, indent: string)
    ensures Text(Legacy, Assignment(a1, l, r), isSc, isIndent, indent) ==
            Text(Legacy, Assignment(a2, l, r), isSc, isIndent, indent)
            <==> a1.operator == a2.operator
  {
    var n1 := Assignment(a1, l, r);
    var n2 := Assignment(a2, l, r);
    FramedText(Legacy, n1, isSc, isIndent, indent);
    FramedText(Legacy, n2, isSc, isIndent, indent);
    assert SemiOf(n1, isSc) == SemiOf(n2, isSc) == Semi(isSc);
    LegacyCoreShowsOperator(a1, a2, l, r, indent);
    MiddleDetermined(Ind(isIndent, indent), Core(Legacy, n1, indent), Core(Legacy, n2, indent), Semi(isSc));
  }

  lemma LegacyCoreShowsOperator(a1: Attrs, a2: Attrs, l: Node, r: Node, indent: string)
    ensures Core(Legacy, Assignment(a1, l, r), indent) == Core(Legacy, Assignment(a2, l, r), indent)
            <==> a1.operator == a2.operator
  {
    var lhs := if l.Identifier? || l.IndexAccess? || l.TupleExpression? || l.MemberAccess? then Sub(Legacy, l, indent) else "";
    var rhs := if r.Literal? || r.Identifier? || r.FunctionCall? || r.MemberAccess? ||
                  r.BinaryOperation? || r.IndexAccess? || r.UnaryOperation?
               then " " + Sub(Legacy, r, indent) else "";
    OperationIsCore(Legacy, Assignment(a1, l, r), indent);
    OperationIsCore(Legacy, Assignment(a2, l, r), indent);
    LegacyAssignmentCore(a1, l, r, indent);
    LegacyAssignmentCore(a2, l, r, indent);
    MiddleDetermined(lhs + " ", a1.operator, a2.operator, rhs);
  }

  lemma OperationIsCore(d: Dialect, n: Node, indent: string)
    requires n.BinaryOperation? || n.Assignment? || n.UnaryOperation?
    ensures Core(d, n, indent) == OperationCore(d, n, indent)
  {
    assert Core(d, n, indent) == ExprCore(d, n, indent);
  }

  lemma LegacyAssignmentCore(a: Attrs, l: Node, r: Node, indent: string)
    ensures OperationCore(Legacy, Assignment(a, l, r), indent) ==
            (if l.Identifier? || l.IndexAccess? || l.TupleExpression? || l.MemberAccess? then Sub(Legacy, l, indent) else "")
            + " " + a.operator
            + (if r.Literal? || r.Identifier? || r.FunctionCall? || r.MemberAccess? ||
                  r.BinaryOperation? || r.IndexAccess? || r.UnaryOperation?
               then " " + Sub(Legacy, r, indent) else "")
  {
  }

  /** Equal texts with a common prefix and suffix have equal middles. */
  lemma MiddleDetermined(pre: string, m1: string, m2: string, post: string)
    ensures pre + m1 + post == pre + m2 + post <==> m1 == m2
  {
    if pre + m1 + post == pre + m2 + post {
      var t := pre + m1 + post;
      assert |m1| == |m2|;
      assert t[|pre|..|pre| + |m1|] == m1;
      assert (pre + m2 + post)[|pre|..|pre| + |m2|] == m2;
    }
  }

  /** A Yul case whose value is the literal "default" (the value the builder
      supplies when the case has none) opens with "default {". */
  lemma YulDefaultCaseHead(d: Dialect, at: Attrs, va: Attrs, body: Node, isIndent: bool, indent: string)
    requires va.kind == "number" && va.value == "default"
    ensures StartsWith(Text(d, YulCase(at, YulLiteral(va), body), false, isIndent, indent),
                       Ind(isIndent, indent) + "default {\n")
  {
    var lit := YulLiteral(va);
    var yc := YulCase(at, lit, body);
    YulNumberText(d, va, indent);
    assert Text(d, yc, false, isIndent, indent) == LayoutText(d, yc, isIndent, indent);
    var rest := (if body.YulBlock? then Sub(d, body, indent) else "") + "\n" + Ind(isIndent, indent) + "}";
    assert LayoutText(d, yc, isIndent, indent) == Ind(isIndent, indent) + "default {\n" + rest;
  }

  /** A number-kind Yul literal prints as its value. */
  lemma YulNumberText(d: Dialect, va: Attrs, indent: string)
    requires va.kind == "number"
    ensures Sub(d, YulLiteral(va), indent) == va.value
  {
    var lit := YulLiteral(va);
    FramedFlat(d, lit, indent);
    assert Core(d, lit, indent) == YulCore(d, lit, indent);
  }

  /** A 0.8 source unit starts with the SPDX licence line, where an empty
      licence reads as GPL-3.0; a legacy source unit ignores the licence. */
  lemma LicenseHeader(at: Attrs, nodes: seq<Node>, other: Attrs, indent: string)
    ensures var lic := if at.license == "" then "GPL-3.0" else at.license;
            StartsWith(Text(V08, SourceUnit(at, nodes), false, false, indent),
                       "// SPDX-License-Identifier: " + lic + "\n")
    ensures at.license == "" && other.license == "GPL-3.0" ==>
            Text(V08, SourceUnit(at, nodes), false, false, indent) ==
            Text(V08, SourceUnit(other, nodes), false, false, indent)
    ensures Text(Legacy, SourceUnit(at, nodes), false, false, indent) ==
            Text(Legacy, SourceUnit(other, nodes), false, false, indent)
  {
  }

  /** Within one contract, the signature of a named function gives its
      name back: two named functions whose names hold no "(" and whose
      signatures agree have the same name. */
  lemma SignatureKeepsName(d: Dialect, contractName: string, f: Node, g: Node)
    requires f.FunctionDefinition? && g.FunctionDefinition? && f.at.kind == "function" && g.at.kind == "function"
    requires '(' !in f.at.name && '(' !in g.at.name
    requires MakeSignature(d, contractName, f) == MakeSignature(d, contractName, g)
    ensures f.at.name == g.at.name
  {
    var x := ParamText(d, f.parameters, "") + ")";
    var y := ParamText(d, g.parameters, "") + ")";
    var pre := contractName + ".";
    assert MakeSignature(d, contractName, f) == pre + (f.at.name + "(" + x);
    assert MakeSignature(d, contractName, g) == pre + (g.at.name + "(" + y);
    DropPrefix(pre, f.at.name + "(" + x, g.at.name + "(" + y);
    NameBeforeParen(f.at.name, g.at.name, x, y);
  }

  lemma DropPrefix(pre: string, s: string, t: string)
    requires pre + s == pre + t
    ensures s == t
  {
    assert s == (pre + s)[|pre|..];
  }

  /** A "(" ends a name that holds none: equal texts start with equal names. */
  lemma NameBeforeParen(a: string, b: string, x: string, y: string)
    requires '(' !in a && '(' !in b && a + "(" + x == b + "(" + y
    ensures a == b
  {
    var s := a + "(" + x;
    if |a| < |b| {
      ParenInside(a, x, b, "(" + y);
      assert false;
    } else if |b| < |a| {
      ParenInside(b, y, a, "(" + x);
      assert false;
    } else {
      assert a == s[..|a|] == b;
    }
  }

  /** In equal texts, the "(" after a shorter name falls inside a longer one. */
  lemma ParenInside(a: string, x: string, b: string, z: string)
    requires |a| < |b| && a + "(" + x == b + z
    ensures '(' in b
  {
    assert (a + "(" + x)[|a|] == '(';
    assert (b + z)[|a|] == b[|a|];
  }
}

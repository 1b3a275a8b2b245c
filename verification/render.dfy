/** `SourceCode(isSc, isIndent, indent)` of every node kind: the pretty-printer
    that turns the tree back into Solidity text.  `isSc` asks for a trailing
    ";", `isIndent` for the indent in front; unknown or missing children
    render as "".

    Kinds that can never contain an expression statement render through the
    pure `Text`.  The others (`Tracked`) render through `SourceCode`, which
    also threads the set of shadow statements already printed: the Go code
    keeps that set in the package-global `instrumentedTrack`, which the 0.5
    expression statement reads and extends. */
module Render {
  import opened Ast
  import opened Str

  /** The text and the dedup set after one rendering. */
  datatype Out = Out(code: string, track: set<string>)

  /** The texts of a list of statements and the dedup set after them. */
  datatype Outs = Outs(parts: seq<string>, track: set<string>)

  /** The indent written in front when `isIndent` is set. */
  function Ind(isIndent: bool, indent: string): string
  {
    if isIndent then indent else ""
  }

  /** The ";" written at the end when `isSc` is set. */
  function Semi(isSc: bool): string
  {
    if isSc then ";" else ""
  }

  /** `indent` plus one level (four spaces). */
  function Deeper(indent: string): string
  {
    indent + "    "
  }

  /** The kinds whose rendering can reach an expression statement. */
  predicate Tracked(n: Node)
  {
    n.ExpressionStatement? || n.Block? || n.IfStatement? || n.ForStatement? ||
    n.UncheckedBlock? || n.WhileStatement? || n.DoWhileStatement? ||
    n.TryStatement? || n.TryCatchClause? || n.FunctionDefinition? ||
    n.ModifierDefinition?
  }

  /** The list positions that render their elements one by one. */
  datatype Ctx =
    | CallArgs       // FunctionCall.arguments
    | TupleParts     // TupleExpression.components
    | Declarations   // VariableDeclarationStatement.declarations, ParameterList.parameters
    | ModifierArgs   // ModifierInvocation.arguments
    | Modifiers      // FunctionDefinition.modifiers
    | StructMembers  // StructDefinition.members
    | YulStatements  // YulBlock.statements (0.6)
    | YulAssignments // YulBlock.statements (0.8)
    | YulNames       // YulAssignment.variableNames, YulFunctionCall.arguments
    | YulTypedNames  // YulVariableDeclaration.variables
    | YulCases       // YulSwitch.cases

  /** The kinds a list position renders; any other element renders "". */
  predicate Accepts(c: Ctx, x: Node)
    ensures Accepts(c, x) ==> !Tracked(x)
  {
    match c
    case CallArgs =>
      x.FunctionCall? || x.Identifier? || x.Literal? || x.BinaryOperation? ||
      x.MemberAccess? || x.UnaryOperation? || x.Conditional? ||
      x.ElementaryTypeNameExpression? || x.TupleExpression? || x.IndexAccess?
    case TupleParts =>
      x.BinaryOperation? || x.ElementaryTypeNameExpression? || x.Identifier? ||
      x.Literal? || x.Conditional? || x.IndexAccess? || x.FunctionCall? ||
      x.MemberAccess?
    case Declarations => x.VariableDeclaration?
    case ModifierArgs => x.Identifier?
    case Modifiers => x.ModifierInvocation?
    case StructMembers => x.VariableDeclaration?
    case YulStatements =>
      x.YulAssignment? || x.YulExpressionStatement? || x.YulVariableDeclaration? ||
      x.YulForLoop? || x.YulSwitch? || x.YulIf? || x.YulBreak?
    case YulAssignments => x.YulAssignment?
    case YulNames => x.YulIdentifier?
    case YulTypedNames => x.YulTypedName?
    case YulCases => x.YulCase?
  }

  /** Glue texts together with no separator. */
  function Concat(parts: seq<string>): string
  {
    Join(parts, "")
  }

  // ---------------------------------------------------------------------------
  // Pure rendering

  /** The kinds whose rule is the indent (iff `isIndent`), then a core text
      that does not depend on the flags, then ";" when `isSc` and the kind
      ends with one. */
  predicate Framed(n: Node)
  {
    ExprCoreKind(n) || StmtCoreKind(n) || DeclCoreKind(n) || IsYulCoreKind(n)
  }

  predicate ExprCoreKind(n: Node)
  {
    n.Identifier? || n.MemberAccess? || n.IndexAccess? || n.BinaryOperation? ||
    n.Assignment? || n.UnaryOperation? || n.NewExpression? ||
    n.ElementaryTypeNameExpression? || n.TupleExpression? || n.Conditional? ||
    n.FunctionCallOptions?
  }

  predicate StmtCoreKind(n: Node)
  {
    n.Return? || n.EmitStatement? || n.RevertStatement? || n.PlaceholderStatement? ||
    n.Break? || n.Continue? || n.VariableDeclarationStatement?
  }

  predicate DeclCoreKind(n: Node)
  {
    n.ParameterList? || n.VariableDeclaration? || n.ElementaryTypeName? ||
    n.UserDefinedTypeName? || n.UsingForDirective? || n.ErrorDefinition? ||
    n.EventDefinition? || n.OverrideSpecifier? || n.EnumValue? ||
    n.ModifierInvocation? || n.ArrayTypeName?
  }

  predicate IsYulCoreKind(n: Node)
  {
    n.YulBlock? || n.YulAssignment? || n.YulVariableDeclaration? ||
    n.YulExpressionStatement? || n.YulFunctionCall? || n.YulSwitch? ||
    n.YulLiteral? || n.YulTypedName? || n.YulIdentifier? || n.YulBreak?
  }

  /** The kinds whose rule ends with ";" exactly when `isSc` is set; every
      other kind ignores the flag. */
  predicate EndsWithSemi(n: Node)
  {
    n.Identifier? || n.MemberAccess? || n.IndexAccess? || n.BinaryOperation? ||
    n.Assignment? || n.UnaryOperation? || n.NewExpression? || n.FunctionCall? ||
    n.Literal? || n.ElementaryTypeNameExpression? || n.Return? || n.EmitStatement? ||
    n.RevertStatement? || n.PlaceholderStatement? || n.Break? || n.Continue? ||
    n.VariableDeclarationStatement? || n.ParameterList? || n.VariableDeclaration? ||
    n.ElementaryTypeName? || n.UserDefinedTypeName? || n.Mapping? ||
    n.UsingForDirective? || n.ErrorDefinition? || n.EventDefinition? ||
    n.OverrideSpecifier? || n.ExpressionStatement? || n.DoWhileStatement?
  }

  /** The ";" a kind writes when asked for one. */
  function SemiOf(n: Node, isSc: bool): string
  {
    if EndsWithSemi(n) then Semi(isSc) else ""
  }

  /** Kinds that print no flag-dependent text at all. */
  predicate Unflagged(n: Node)
  {
    n.SourceUnit? || n.PragmaDirective? || n.ContractDefinition? ||
    n.InheritanceSpecifier? || n.IdentifierPath?
  }

  /** `SourceCode(isSc, isIndent, indent)` of a node that is not `Tracked`. */
  function Text(d: Dialect, n: Node, isSc: bool, isIndent: bool, indent: string): string
    requires !Tracked(n)
    decreases n, 3
  {
    if n.Nil? then ""
    else if Framed(n) then Ind(isIndent, indent) + Core(d, n, indent) + SemiOf(n, isSc)
    else if n.FunctionCall? then PayableRewrite(n.at.kind, CallCode(d, n, isSc, isIndent, indent))
    else if n.Literal? then LiteralText(n.at, isSc, isIndent, indent)
    else if n.Mapping? then "mapping" + Ind(isIndent, indent) + MappingCore(d, n, indent) + Semi(isSc)
    else if Unflagged(n) then UnflaggedText(d, n, indent)
    else LayoutText(d, n, isIndent, indent)
  }

  /** A child rendered with both flags off, as nearly every parent does. */
  function Sub(d: Dialect, x: Node, indent: string): string
    requires !Tracked(x)
    decreases x, 4
  {
    Text(d, x, false, false, indent)
  }

  /** The rendering of every element of `xs` at list position `c`. */
  function Items(d: Dialect, xs: seq<Node>, c: Ctx, isSc: bool, isIndent: bool, indent: string): (r: seq<string>)
    ensures |r| == |xs|
    decreases xs, 0
  {
    if |xs| == 0 then []
    else
      [if Accepts(c, xs[0]) then Text(d, xs[0], isSc, isIndent, indent) else ""]
      + Items(d, xs[1..], c, isSc, isIndent, indent)
  }

  /** The renderings of a source unit's children, each followed by "\n". */
  function UnitItems(d: Dialect, xs: seq<Node>, indent: string): seq<string>
    decreases xs, 0
  {
    if |xs| == 0 then []
    else
      var x := xs[0];
      var s :=
        if x.PragmaDirective? || x.ContractDefinition? then Sub(d, x, indent) + "\n"
        else if d == Legacy && (x.ErrorDefinition? || x.VariableDeclaration?) then
          Text(d, x, true, false, indent) + "\n"
        else "";
      [s] + UnitItems(d, xs[1..], indent)
  }

  /** The rendering of the inheritance specifiers in a contract header. */
  function BaseItems(d: Dialect, xs: seq<Node>): seq<string>
    decreases xs, 0
  {
    if |xs| == 0 then []
    else [if xs[0].InheritanceSpecifier? then Sub(d, xs[0], "") else ""] + BaseItems(d, xs[1..])
  }

  /** The option list of a call-options expression: the i-th option is
      labelled with the i-th name. */
  function OptionItems(d: Dialect, xs: seq<Node>, names: seq<string>, indent: string): seq<string>
    decreases xs, 0
  {
    if |xs| == 0 then []
    else
      var tag := if |names| > 0 then names[0] else "";
      [if xs[0].MemberAccess? then tag + ": " + Sub(d, xs[0], indent) else ""]
      + OptionItems(d, xs[1..], if |names| > 0 then names[1..] else [], indent)
  }

  /** One pragma literal: quotes trimmed, glued on without a space iff it
      contains "." (the unanchored pattern `0*\.\d*`). */
  function PragmaPiece(lit: string): string
  {
    var l := TrimQuotes(lit);
    if '.' in l then l else " " + l
  }

  function PragmaPieces(lits: seq<string>): seq<string>
  {
    if |lits| == 0 then [] else [PragmaPiece(lits[0])] + PragmaPieces(lits[1..])
  }

  /** The body of an enum with `k` members: no member text, "," between
      members and "\n" after each. */
  function EnumBody(k: nat): string
  {
    if k == 0 then "" else if k == 1 then "\n" else ",\n" + EnumBody(k - 1)
  }

  /** The 0.5 inline assembly lines after the first, each with the indent
      when `isIndent` (otherwise nothing but the newlines between them). */
  function AsmLines(lines: seq<string>, isIndent: bool, indent: string): seq<string>
  {
    if |lines| == 0 then []
    else [if isIndent then indent + lines[0] else ""] + AsmLines(lines[1..], isIndent, indent)
  }

  /** Every text of `parts` followed by `sep`. */
  function Suffixed(parts: seq<string>, sep: string): (r: seq<string>)
    ensures |r| == |parts|
    ensures forall i :: 0 <= i < |parts| ==> r[i] == parts[i] + sep
  {
    seq(|parts|, i requires 0 <= i < |parts| => parts[i] + sep)
  }

  /** The flag-independent text of a `Framed` kind. */
  function Core(d: Dialect, n: Node, indent: string): string
    requires Framed(n)
    decreases n, 2
  {
    if ExprCoreKind(n) then ExprCore(d, n, indent)
    else if StmtCoreKind(n) then StmtCore(d, n, indent)
    else if DeclCoreKind(n) then DeclCore(d, n, indent)
    else YulCore(d, n, indent)
  }

  /** The operand kinds a 0.6 binary operation prints, on either side. */
  predicate LegacyOperand(x: Node)
  {
    x.Literal? || x.Identifier? || x.BinaryOperation? || x.UnaryOperation? ||
    x.FunctionCall? || x.MemberAccess? || x.TupleExpression? || x.IndexAccess?
  }

  function ExprCore(d: Dialect, n: Node, indent: string): string
    requires ExprCoreKind(n)
    decreases n, 1
  {
    match n
    case Identifier(at) => at.name
    case MemberAccess(at, e) =>
      (if e.IndexAccess? || e.Identifier? || e.FunctionCall? || e.MemberAccess? then Sub(d, e, indent) else "")
      + "." + at.memberName
    case IndexAccess(_, b, i) =>
      (if b.Identifier? || b.IndexAccess? || b.MemberAccess? || b.ElementaryTypeNameExpression?
       then Sub(d, b, indent) else "")
      + "["
      + (if i.Identifier? || i.FunctionCall? || i.Literal? || i.IndexAccess? || i.MemberAccess? ||
            i.BinaryOperation? || i.UnaryOperation?
         then Sub(d, i, indent) else "")
      + "]"
    case BinaryOperation(_, _, _) => OperationCore(d, n, indent)
    case Assignment(_, _, _) => OperationCore(d, n, indent)
    case UnaryOperation(_, _) => OperationCore(d, n, indent)
    case NewExpression(_, ty) =>
      "new" + (if ty.ArrayTypeName? || ty.ElementaryTypeName? then " " + Sub(d, ty, indent) else "")
    case ElementaryTypeNameExpression(at, ty) =>
      if d == Legacy then at.typeNameText
      else if Tracked(ty) then "" else Sub(d, ty, indent)
    case TupleExpression(_, parts) =>
      "(" + Join(Items(d, parts, TupleParts, false, false, indent), ", ") + ")"
    case Conditional(_, c, t, f) =>
      (if c.TupleExpression? || c.BinaryOperation? || c.Identifier? then Sub(d, c, indent) else "")
      + "?"
      + (if t.Identifier? || t.MemberAccess? || t.Literal? || t.FunctionCall? || t.BinaryOperation?
         then Sub(d, t, indent) else "")
      + ":"
      + (if f.Identifier? || f.FunctionCall? || f.Literal? || f.BinaryOperation? then Sub(d, f, indent) else "")
    case FunctionCallOptions(at, e, options) =>
      (if e.MemberAccess? then Sub(d, e, indent) else "")
      + "{" + Join(OptionItems(d, options, at.names, indent), ", ") + "}"
  }

  /** The operator expressions: binary, assignment and unary. */
  function OperationCore(d: Dialect, n: Node, indent: string): string
    requires n.BinaryOperation? || n.Assignment? || n.UnaryOperation?
    decreases n, 0
  {
    match n
    case BinaryOperation(at, l, r) =>
      var lOk :=
        if d == Legacy then LegacyOperand(l)
        else l.Literal? || l.Identifier? || l.BinaryOperation? || l.UnaryOperation? || l.FunctionCall?;
      var rOk :=
        if d == Legacy then LegacyOperand(r)
        else r.BinaryOperation? || r.Identifier? || r.FunctionCall? || r.Literal? ||
             r.UnaryOperation? || r.MemberAccess?;
      (if lOk then Sub(d, l, indent) else "")
      + (if at.operator != "" then " " + at.operator else "")
      + (if rOk then " " + Sub(d, r, indent) else "")
    case Assignment(at, l, r) =>
      if d == Legacy then
        (if l.Identifier? || l.IndexAccess? || l.TupleExpression? || l.MemberAccess? then Sub(d, l, indent) else "")
        + " " + at.operator
        + (if r.Literal? || r.Identifier? || r.FunctionCall? || r.MemberAccess? ||
              r.BinaryOperation? || r.IndexAccess? || r.UnaryOperation?
           then " " + Sub(d, r, indent) else "")
      else
        (if l.Identifier? then Sub(d, l, indent) else "") + " ="
        + (if r.Literal? then " " + Sub(d, r, indent) else "")
    case UnaryOperation(at, e) =>
      var operand :=
        if e.Identifier? || e.FunctionCall? || e.IndexAccess? then Sub(d, e, indent) else "";
      if e.Nil? then ""
      else if at.prefix then
        (if at.operator == "delete" then at.operator + " " + operand else at.operator + operand)
      else operand + at.operator
  }

  function StmtCore(d: Dialect, n: Node, indent: string): string
    requires StmtCoreKind(n)
    decreases n, 1
  {
    match n
    case Return(_, e) =>
      var shown :=
        if d == Legacy then
          e.IndexAccess? || e.Literal? || e.BinaryOperation? || e.MemberAccess? ||
          e.Identifier? || e.FunctionCall? || e.TupleExpression?
        else e.IndexAccess? || e.Literal?;
      "return" + (if shown then " " + Sub(d, e, indent) else "")
    case EmitStatement(_, call) =>
      "emit" + (if call.FunctionCall? then " " + Sub(d, call, indent) else "")
    case RevertStatement(_, call) =>
      "revert" + (if call.FunctionCall? then " " + Sub(d, call, indent) else "")
    case PlaceholderStatement(_) => "_"
    case Break(_) => "break"
    case Continue(_) => "continue"
    case VariableDeclarationStatement(_, decls, init) =>
      Join(Items(d, decls, Declarations, false, false, indent), ",")
      + (if init.FunctionCall? || init.MemberAccess? || init.BinaryOperation? || init.Literal?
         then " = " + Sub(d, init, indent) else "")
  }

  function DeclCore(d: Dialect, n: Node, indent: string): string
    requires DeclCoreKind(n)
    decreases n, 1
  {
    match n
    case ParameterList(_, params) =>
      Join(Items(d, params, Declarations, false, false, indent), ", ")
    case VariableDeclaration(_, _, _) => VarDeclCore(d, n, indent)
    case ElementaryTypeName(at) =>
      at.name
      + (if at.stateMutability != "" && at.stateMutability != "nonpayable" then " " + at.stateMutability else "")
    case UserDefinedTypeName(at, path) =>
      if d == Legacy then at.name
      else if path.IdentifierPath? then path.at.name else ""
    case UsingForDirective(_, lib, ty) =>
      "using"
      + (if (d == Legacy && lib.UserDefinedTypeName?) || (d == V08 && lib.IdentifierPath?)
         then " " + Sub(d, lib, indent) else "")
      + " for"
      + (if ty.ElementaryTypeName? || (d == Legacy && ty.UserDefinedTypeName?)
         then " " + Sub(d, ty, indent) else "")
    case ErrorDefinition(at, params) =>
      "error " + at.name + (if params.ParameterList? then "(" + Sub(d, params, indent) else "")
    case EventDefinition(at, params) =>
      "event " + at.name + (if params.ParameterList? then "(" + Sub(d, params, indent) + ")" else "")
    case OverrideSpecifier(_) => "override"
    case EnumValue(at) => at.name
    case ModifierInvocation(_, name, args) =>
      (if name.IdentifierPath? then name.at.name else "")
      + (if |args| > 0 then "(" + Join(Items(d, args, ModifierArgs, false, false, indent), ", ") + ")" else "")
    case ArrayTypeName(_, base, length) =>
      if d == Legacy then
        (if base.ElementaryTypeName? || base.UserDefinedTypeName? then Sub(d, base, indent) else "")
        + "[" + (if length.Literal? then Sub(d, length, indent) else "") + "]"
      else
        (if base.ElementaryTypeName? then Sub(d, base, indent) else "") + "[]"
  }

  /** A variable declaration: type, the 0.5 qualifiers, visibility, name
      and initial value. */
  function VarDeclCore(d: Dialect, n: Node, indent: string): string
    requires n.VariableDeclaration?
    decreases n, 0
  {
    match n
    case VariableDeclaration(at, ty, value) =>
      var tyText :=
        if ty.Mapping? || ty.ElementaryTypeName? || ty.UserDefinedTypeName? || ty.ArrayTypeName?
        then Sub(d, ty, indent) else "";
      var vis := if at.visibility != "" && at.visibility != "internal" then " " + at.visibility else "";
      var name := if at.name != "" then " " + at.name else "";
      if d == Legacy then
        tyText
        + (if at.constant then " constant" else "")
        + (if at.storageLocation != "default" then " " + at.storageLocation else "")
        + vis
        + (if at.indexed then " indexed" else "")
        + name
        + (if value.Literal? || value.BinaryOperation? || value.FunctionCall? || value.Identifier? ||
              value.MemberAccess? || value.UnaryOperation? || value.TupleExpression? ||
              value.ArrayTypeName?
           then " = " + Sub(d, value, indent) else "")
      else
        tyText + vis + name
        + (if value.Literal? || value.BinaryOperation? then " = " + Sub(d, value, indent) else "")
  }

  function YulCore(d: Dialect, n: Node, indent: string): string
    requires IsYulCoreKind(n)
    decreases n, 1
  {
    match n
    case YulBlock(_, stmts) =>
      if d == Legacy then Join(Items(d, stmts, YulStatements, false, true, Deeper(indent)), "\n")
      else Join(Items(d, stmts, YulAssignments, false, true, indent), "\n")
    case YulAssignment(_, names, value) =>
      Join(Items(d, names, YulNames, false, false, indent), ", ") + " := "
      + (if value.YulFunctionCall? || value.YulIdentifier? then Sub(d, value, indent) else "")
    case YulVariableDeclaration(_, vars, value) =>
      var list := Join(Items(d, vars, YulTypedNames, false, false, indent), ", ");
      "let " + (if |vars| > 1 then "(" + list + ")" else list)
      + (if value.YulFunctionCall? || value.YulIdentifier? then " := " + Sub(d, value, indent) else "")
    case YulExpressionStatement(_, e) =>
      if e.YulFunctionCall? then Sub(d, e, indent) else ""
    case YulFunctionCall(_, name, args) =>
      (if name.YulIdentifier? then Sub(d, name, indent) else "")
      + "(" + Join(Items(d, args, YulNames, false, false, indent), ", ") + ")"
    case YulSwitch(_, e, cases) =>
      "switch"
      + (if e.YulFunctionCall? || e.YulIdentifier? then " " + Sub(d, e, indent) + "\n" else "")
      + Concat(Suffixed(Items(d, cases, YulCases, false, false, indent), "\n"))
    case YulLiteral(at) =>
      if at.kind == "number" then at.value else Repeat('H', 86)
    case YulTypedName(at) => at.name
    case YulIdentifier(at) => at.name
    case YulBreak(_) => "break"
  }

  /** A call: callee "(" arguments ")" [";"], before the conversion rewrite. */
  function CallCode(d: Dialect, n: Node, isSc: bool, isIndent: bool, indent: string): string
    requires n.FunctionCall?
    decreases n, 1
  {
    var callee := n.expression;
    Ind(isIndent, indent)
    + (if callee.Identifier? || callee.MemberAccess? || callee.ElementaryTypeNameExpression? ||
          callee.NewExpression? || callee.FunctionCallOptions?
       then Sub(d, callee, indent) else "")
    + "(" + Join(Items(d, n.arguments, CallArgs, false, false, indent), ", ") + ")"
    + Semi(isSc)
  }

  /** A type conversion whose text starts with "address payable" loses its
      first 8 characters ("address "), leaving "payable(…)". */
  function PayableRewrite(kind: string, code: string): string
  {
    if kind == "typeConversion" && StartsWith(code, "address payable") then code[8..] else code
  }

  /** The literal forms of a 0.8 `Literal`. */
  function LiteralText(at: Attrs, isSc: bool, isIndent: bool, indent: string): string
  {
    var pre := Ind(isIndent, indent);
    var body :=
      if at.kind == "number" || at.kind == "bool" then at.value
      else if at.kind == "unicodeString" then pre + "unicode\"" + at.value + "\""
      else if at.kind == "string" then
        if Contains(at.typeString, "literal_string hex") then pre + "\"" + HexEscape(at.hexValue) + "\""
        else pre + "\"" + at.value + "\""
      else if at.kind == "hexString" then pre + "hex\"" + at.value + "\""
      else pre;
    body + (if at.subdenomination != "" then " " + at.subdenomination else "") + Semi(isSc)
  }

  /** What follows "mapping" and the indent: " (" key " => " value ")". */
  function MappingCore(d: Dialect, n: Node, indent: string): string
    requires n.Mapping?
    decreases n, 2
  {
    var key := n.keyType;
    var value := n.valueType;
    var valueOk :=
      if d == Legacy then
        value.ElementaryTypeName? || value.Mapping? || value.UserDefinedTypeName? || value.ArrayTypeName?
      else value.ElementaryTypeName?;
    (if key.ElementaryTypeName? then " (" + Sub(d, key, indent) else "")
    + (if valueOk then " => " + Sub(d, value, indent) + ")" else "")
  }

  /** Kinds whose text does not depend on either flag. */
  function UnflaggedText(d: Dialect, n: Node, indent: string): string
    requires Unflagged(n)
    decreases n, 2
  {
    match n
    case SourceUnit(at, nodes) =>
      (if d == V08 then
         "// SPDX-License-Identifier: " + (if at.license == "" then "GPL-3.0" else at.license) + "\n"
       else "")
      + Concat(UnitItems(d, nodes, indent))
    case PragmaDirective(at) =>
      "pragma" + Concat(PragmaPieces(at.literals)) + ";"
    case ContractDefinition(at, bases, _) =>
      at.contractKind + " " + at.name + " "
      + (if |bases| > 0 then "is " + Join(BaseItems(d, bases), ", ") + " " else "")
      + "{\n"
    case InheritanceSpecifier(_, base) =>
      if d == Legacy then (if base.UserDefinedTypeName? then Sub(d, base, indent) else "")
      else if base.IdentifierPath? then base.at.name else ""
    case IdentifierPath(at) => at.name
  }

  /** Kinds that write the indent again before a closing brace. */
  function LayoutText(d: Dialect, n: Node, isIndent: bool, indent: string): string
    requires !Tracked(n) && !n.Nil? && !Framed(n) && !Unflagged(n)
    requires !n.FunctionCall? && !n.Literal? && !n.Mapping?
    decreases n, 2
  {
    var pre := Ind(isIndent, indent);
    match n
    case StructDefinition(at, members) =>
      var body := Items(d, members, StructMembers, true, true, Deeper(indent));
      pre + "struct " + at.name + "{\n" + Concat(Suffixed(body, "\n")) + pre + "}"
    case EnumDefinition(at, members) =>
      pre + "enum " + at.name + " {\n" + EnumBody(|members|) + pre + "}"
    case InlineAssembly(at, body) =>
      if d == Legacy then
        var lines := Split(at.operations, '\n');
        pre + "assembly {\n" + Join(AsmLines(lines[1..], isIndent, indent), "\n")
      else
        pre + "assembly {\n"
        + (if body.YulBlock? then Text(d, body, false, true, indent) else "")
        + "\n" + pre + "}"
    case YulForLoop(_, before, cond, post, body) =>
      pre + "for {\n" + (if before.YulBlock? then Sub(d, before, indent) else "") + "\n" + pre + "}"
      + (if cond.YulFunctionCall? then " " + Sub(d, cond, indent) else "")
      + " {\n" + (if post.YulBlock? then Sub(d, post, indent) else "") + "\n" + pre + "} {\n"
      + (if body.YulBlock? then Sub(d, body, indent) else "") + "\n" + pre + "}"
    case YulCase(_, value, body) =>
      var head :=
        if value.YulLiteral? then
          var v := Sub(d, value, indent);
          if v != "default" then "case " + v + " {\n" else "default {\n"
        else "";
      pre + head + (if body.YulBlock? then Sub(d, body, indent) else "") + "\n" + pre + "}"
    case YulIf(_, cond, body) =>
      pre + "if"
      + (if cond.YulFunctionCall? || cond.YulLiteral? || cond.YulIdentifier? then " " + Sub(d, cond, indent) else "")
      + "{\n" + (if body.YulBlock? then Sub(d, body, indent) else "") + "\n" + pre + "}"
  }

  // ---------------------------------------------------------------------------
  // Rendering with the dedup set of printed shadow statements

  /** `SourceCode(isSc, isIndent, indent)` of any node, given the set `track`
      of shadow statements printed so far; returns the text and the new set. */
  function SourceCode(d: Dialect, n: Node, isSc: bool, isIndent: bool, indent: string, track: set<string>): (o: Out)
    ensures track <= o.track
    decreases n, 3
  {
    if !Tracked(n) then Out(Text(d, n, isSc, isIndent, indent), track)
    else if n.ExpressionStatement? then StatementCode(d, n, isSc, isIndent, indent, track)
    else CompoundCode(d, n, isSc, isIndent, indent, track)
  }

  /** An expression statement.  In the 0.5 rule it also prints, once per
      distinct text, the two shadow statements attached by the taint pass:
      `trackVariable` with ";" and `trackMapping`, whose ";" is written after
      the expression instead (and only while it has not been printed). */
  function StatementCode(d: Dialect, n: Node, isSc: bool, isIndent: bool, indent: string, track: set<string>): (o: Out)
    requires n.ExpressionStatement?
    ensures track <= o.track
    decreases n, 1
  {
    var code := StatementHead(d, n, isIndent, indent);
    if d == V08 then Out(code + Semi(isSc), track)
    else
      var a := Lead(d, n, code, indent, track);
      var b := ShadowIf(d, n.trackVariable, true, indent, a);
      var c := ShadowIf(d, n.trackMapping, false, indent, b);
      Out(c.code + Semi(isSc), c.track)
  }

  /** The 0.5 statement's head with the ";" that follows it while the
      mapping shadow is not yet printed; probing that costs a rendering,
      whose additions to the set are kept. */
  function Lead(d: Dialect, n: Node, code: string, indent: string, track: set<string>): (o: Out)
    requires n.ExpressionStatement?
    ensures track <= o.track
    decreases n, 0
  {
    if !n.expression.Nil? && !n.trackMapping.Nil? then
      var probe := SourceCode(d, n.trackMapping, false, true, indent, track);
      Out(code + (if probe.code in probe.track then "" else ";"), probe.track)
    else Out(code, track)
  }

  /** `Shadow` for a slot that holds an expression statement; any other slot
      prints nothing. */
  function ShadowIf(d: Dialect, s: Node, isSc: bool, indent: string, acc: Out): (o: Out)
    ensures acc.track <= o.track
    decreases s, 5
  {
    if s.ExpressionStatement? then Shadow(d, s, isSc, indent, acc) else acc
  }

  /** The indent and the expression of an expression statement, before any
      ";" or shadow text. */
  function StatementHead(d: Dialect, n: Node, isIndent: bool, indent: string): string
    requires n.ExpressionStatement?
  {
    var e := n.expression;
    Ind(isIndent, indent)
      + (if e.Assignment? || e.FunctionCall? || e.UnaryOperation? || e.Identifier? then Sub(d, e, indent) else "")
  }

  /** Print shadow statement `s` on a new line after `acc.code` unless its
      text is already in the set, and record it.  The Go code renders `s`
      three times (test, print, record); each rendering may itself extend
      the set, so all three are threaded. */
  function Shadow(d: Dialect, s: Node, isSc: bool, indent: string, acc: Out): (o: Out)
    requires s.ExpressionStatement?
    ensures acc.track <= o.track
    decreases s, 4
  {
    var probe := SourceCode(d, s, isSc, true, indent, acc.track);
    if probe.code in probe.track then Out(acc.code, probe.track)
    else
      var shown := SourceCode(d, s, isSc, true, indent, probe.track);
      var marked := SourceCode(d, s, isSc, true, indent, shown.track);
      Out(acc.code + "\n" + shown.code, marked.track + {marked.code})
  }

  /** The statements of a `Block`, one rendering per statement (the caller
      puts "\n" between them), each one level deeper. */
  function BlockParts(d: Dialect, xs: seq<Node>, indent: string, track: set<string>): (o: Outs)
    ensures |o.parts| == |xs| && track <= o.track
    decreases xs, 0
  {
    if |xs| == 0 then Outs([], track)
    else
      var x := xs[0];
      var inner := Deeper(indent);
      var h :=
        if x.ExpressionStatement? || x.PlaceholderStatement? || x.Return? || x.EmitStatement? ||
           x.VariableDeclarationStatement? || x.RevertStatement? || x.DoWhileStatement?
        then SourceCode(d, x, true, true, inner, track)
        else if x.IfStatement? || x.InlineAssembly? || x.ForStatement? || x.UncheckedBlock? ||
                x.WhileStatement? || x.TryStatement?
        then SourceCode(d, x, false, true, inner, track)
        else if x.Block? then
          var o := SourceCode(d, x, false, true, inner, track);
          Out(inner + "{\n" + o.code + "\n" + inner + "}", o.track)
        else Out("", track);
      var rest := BlockParts(d, xs[1..], indent, h.track);
      Outs([h.code] + rest.parts, rest.track)
  }

  /** The statements of an `unchecked` block, each one level deeper and
      followed by "\n" (a statement of another kind leaves only the "\n"). */
  function UncheckedParts(d: Dialect, xs: seq<Node>, indent: string, track: set<string>): (o: Outs)
    ensures |o.parts| == |xs| && track <= o.track
    decreases xs, 0
  {
    if |xs| == 0 then Outs([], track)
    else
      var x := xs[0];
      var inner := Deeper(indent);
      var h :=
        if x.ExpressionStatement? || x.VariableDeclarationStatement? || x.Return? || x.EmitStatement?
        then SourceCode(d, x, true, true, inner, track)
        else if x.InlineAssembly? || x.IfStatement? || x.WhileStatement?
        then SourceCode(d, x, false, true, inner, track)
        else Out("", track);
      var rest := UncheckedParts(d, xs[1..], indent, h.track);
      Outs([h.code + "\n"] + rest.parts, rest.track)
  }

  /** The clauses of a `try`: the first introduced by " returns ", the others
      by " catch "; entries of another kind print nothing. */
  function ClauseParts(d: Dialect, xs: seq<Node>, first: bool, indent: string, track: set<string>): (o: Outs)
    ensures |o.parts| == |xs| && track <= o.track
    decreases xs, 0
  {
    if |xs| == 0 then Outs([], track)
    else
      var x := xs[0];
      var h :=
        if x.TryCatchClause? then
          var o := SourceCode(d, x, false, true, indent, track);
          Out((if first then " returns " else " catch ") + o.code, o.track)
        else Out("", track);
      var rest := ClauseParts(d, xs[1..], false, indent, h.track);
      Outs([h.code] + rest.parts, rest.track)
  }

  /** The modifiers of a 0.6 function header: " " before each invocation,
      "," between entries. */
  function ModifierText(d: Dialect, ms: seq<Node>, indent: string): string
  {
    var parts := Items(d, ms, Modifiers, false, false, indent);
    Join(seq(|parts|, i requires 0 <= i < |parts| => if ms[i].ModifierInvocation? then " " + parts[i] else ""), ",")
  }

  /** A body block " {\n" ... "\n}" as function and modifier definitions print it. */
  function BodyCode(d: Dialect, body: Node, isIndent: bool, indent: string, track: set<string>): (o: Out)
    ensures track <= o.track
    decreases body, 4
  {
    var o := if body.Block? then SourceCode(d, body, false, false, indent, track) else Out("", track);
    Out(" {\n" + o.code + "\n" + Ind(isIndent, indent) + "}", o.track)
  }

  /** Blocks, control flow, function and modifier definitions. */
  function CompoundCode(d: Dialect, n: Node, isSc: bool, isIndent: bool, indent: string, track: set<string>): (o: Out)
    requires Tracked(n) && !n.ExpressionStatement?
    ensures track <= o.track
    decreases n, 2
  {
    match n
    case Block(_, _) => BlockCode(d, n, indent, track)
    case UncheckedBlock(_, _) => UncheckedCode(d, n, isIndent, indent, track)
    case IfStatement(_, _, _, _) => IfCode(d, n, isIndent, indent, track)
    case ForStatement(_, _, _, _, _) => ForCode(d, n, isIndent, indent, track)
    case WhileStatement(_, _, _) => WhileCode(d, n, isIndent, indent, track)
    case DoWhileStatement(_, _, _) => DoWhileCode(d, n, isSc, isIndent, indent, track)
    case TryStatement(_, _, _) => TryCode(d, n, isIndent, indent, track)
    case TryCatchClause(_, _, _) => ClauseCode(d, n, isIndent, indent, track)
    case ModifierDefinition(_, _, _) => ModifierCode(d, n, isIndent, indent, track)
    case FunctionDefinition(_, _, _, _, _, _) => FunctionCode(d, n, isIndent, indent, track)
  }

  /** A block: its statements joined by "\n"; the block itself prints no
      indent and no braces. */
  function BlockCode(d: Dialect, n: Node, indent: string, track: set<string>): (o: Out)
    requires n.Block?
    ensures track <= o.track
    decreases n, 1
  {
    var o := BlockParts(d, n.statements, indent, track);
    Out(Join(o.parts, "\n"), o.track)
  }

  function UncheckedCode(d: Dialect, n: Node, isIndent: bool, indent: string, track: set<string>): (o: Out)
    requires n.UncheckedBlock?
    ensures track <= o.track
    decreases n, 1
  {
    var pre := Ind(isIndent, indent);
    var o := UncheckedParts(d, n.statements, indent, track);
    Out(pre + "unchecked {\n" + Concat(o.parts) + pre + "}", o.track)
  }

  /** An if statement; the 0.8 rule has no else branch. */
  function IfCode(d: Dialect, n: Node, isIndent: bool, indent: string, track: set<string>): (o: Out)
    requires n.IfStatement?
    ensures track <= o.track
    decreases n, 1
  {
    var pre := Ind(isIndent, indent);
    var c := n.condition;
    var tb := n.trueBody;
    if d == Legacy then
      var head := pre + "if"
        + (if c.BinaryOperation? || c.UnaryOperation? || c.Literal? || c.IndexAccess? || c.Identifier?
           then "(" + Sub(d, c, indent) + ")" else "")
        + " {\n";
      var t :=
        if tb.Block? || tb.IfStatement? then SourceCode(d, tb, false, true, indent, track)
        else if tb.ExpressionStatement? then SourceCode(d, tb, true, true, Deeper(indent), track)
        else if tb.Return? then SourceCode(d, tb, true, true, indent, track)
        else Out("", track);
      var f := ElseCode(d, n.falseBody, isIndent, indent, t.track);
      Out(head + t.code + "\n" + pre + "}" + f.code, f.track)
    else
      var t := if tb.Block? then SourceCode(d, tb, false, true, indent, track) else Out("", track);
      Out(pre + "if" + (if c.BinaryOperation? then "(" + Sub(d, c, indent) + ")" else "")
          + " {\n" + t.code + "\n" + pre + "}", t.track)
  }

  /** The else part of a 0.5 if statement. */
  function ElseCode(d: Dialect, fb: Node, isIndent: bool, indent: string, track: set<string>): (o: Out)
    ensures track <= o.track
    decreases fb, 4
  {
    var pre := Ind(isIndent, indent);
    if fb.Block? then
      var o := SourceCode(d, fb, false, true, indent, track);
      Out(" else {\n" + o.code + "\n" + pre + "}", o.track)
    else if fb.IfStatement? then
      var o := SourceCode(d, fb, false, true, indent, track);
      Out(" else " + TrimLeftSpaces(o.code), o.track)
    else if fb.ExpressionStatement? then
      var o := SourceCode(d, fb, true, true, indent, track);
      Out(" else {\n" + o.code + "\n" + pre + "}", o.track)
    else Out("", track)
  }

  /** A for statement: " (" only if some header part exists, but ") {"
      always. */
  function ForCode(d: Dialect, n: Node, isIndent: bool, indent: string, track: set<string>): (o: Out)
    requires n.ForStatement?
    ensures track <= o.track
    decreases n, 1
  {
    var pre := Ind(isIndent, indent);
    var init := n.init;
    var c := n.condition;
    var step := n.loop;
    var s := if step.ExpressionStatement? then SourceCode(d, step, false, false, indent, track) else Out("", track);
    var b := if n.body.Block? then SourceCode(d, n.body, false, false, indent, s.track) else Out("", s.track);
    Out(pre + "for" + (if !init.Nil? || !c.Nil? || !step.Nil? then " (" else "")
        + (if init.VariableDeclarationStatement? then Sub(d, init, indent) else "") + ";"
        + (if c.BinaryOperation? then " " + Sub(d, c, indent) else "") + ";"
        + (if step.ExpressionStatement? then " " + s.code else "")
        + ") {\n" + b.code + "\n" + pre + "}", b.track)
  }

  function WhileCode(d: Dialect, n: Node, isIndent: bool, indent: string, track: set<string>): (o: Out)
    requires n.WhileStatement?
    ensures track <= o.track
    decreases n, 1
  {
    var pre := Ind(isIndent, indent);
    var c := n.condition;
    var b := if n.body.Block? then SourceCode(d, n.body, false, false, indent, track) else Out("", track);
    Out(pre + "while"
        + (if c.FunctionCall? || c.BinaryOperation? || c.Literal? then " (" + Sub(d, c, indent) + ") " else "")
        + "{\n" + b.code + "\n" + pre + "}", b.track)
  }

  function DoWhileCode(d: Dialect, n: Node, isSc: bool, isIndent: bool, indent: string, track: set<string>): (o: Out)
    requires n.DoWhileStatement?
    ensures track <= o.track
    decreases n, 1
  {
    var pre := Ind(isIndent, indent);
    var c := n.condition;
    var b := if n.body.Block? then SourceCode(d, n.body, false, false, indent, track) else Out("", track);
    Out(pre + "do {\n" + b.code + "\n" + pre + "} while"
        + (if c.FunctionCall? || c.BinaryOperation? || c.Literal? then " (" + Sub(d, c, indent) + ")" else "")
        + Semi(isSc), b.track)
  }

  function TryCode(d: Dialect, n: Node, isIndent: bool, indent: string, track: set<string>): (o: Out)
    requires n.TryStatement?
    ensures track <= o.track
    decreases n, 1
  {
    var call := n.externalCall;
    var o := ClauseParts(d, n.clauses, true, indent, track);
    Out(Ind(isIndent, indent) + "try" + (if call.FunctionCall? then " " + Sub(d, call, indent) else "")
        + Concat(o.parts), o.track)
  }

  /** A try/catch clause: "(parameters)" when present, then the braced block;
      no leading indent and no error name. */
  function ClauseCode(d: Dialect, n: Node, isIndent: bool, indent: string, track: set<string>): (o: Out)
    requires n.TryCatchClause?
    ensures track <= o.track
    decreases n, 1
  {
    var params := n.parameters;
    var b := BodyCode(d, n.block, isIndent, indent, track);
    Out((if params.ParameterList? then "(" + Sub(d, params, indent) + ")" else "") + b.code, b.track)
  }

  function ModifierCode(d: Dialect, n: Node, isIndent: bool, indent: string, track: set<string>): (o: Out)
    requires n.ModifierDefinition?
    ensures track <= o.track
    decreases n, 1
  {
    var params := n.parameters;
    var b := BodyCode(d, n.body, isIndent, indent, track);
    Out(Ind(isIndent, indent) + "modifier " + n.at.name
        + (if params.ParameterList? then "(" + Sub(d, params, indent) + ")" else "") + b.code, b.track)
  }

  /** A function definition: header, then the body; 0.6 prints braces only
      for a present body and ";" for an unimplemented function, and a
      receive function is "receive(…) … {}" whatever its body. */
  function FunctionCode(d: Dialect, n: Node, isIndent: bool, indent: string, track: set<string>): (o: Out)
    requires n.FunctionDefinition?
    ensures track <= o.track
    decreases n, 1
  {
    var pre := Ind(isIndent, indent);
    if d == V08 then
      var b := BodyCode(d, n.body, isIndent, indent, track);
      Out(pre + V08Header(n, indent) + b.code, b.track)
    else if n.at.kind == "receive" then
      Out(pre + LegacyHeader(n, indent) + " {}", track)
    else
      var b := if n.body.Nil? then Out("", track) else BodyCode(d, n.body, isIndent, indent, track);
      Out(pre + LegacyHeader(n, indent) + b.code + (if n.at.implemented then "" else ";"), b.track)
  }

  /** The rendered parameter list of a function ("" unless it is a list). */
  function ParamText(d: Dialect, params: Node, indent: string): string
  {
    if params.ParameterList? then Sub(d, params, indent) else ""
  }

  /** The 0.8 function header: always "function NAME(…)", then visibility,
      mutability (even "nonpayable"), an override and " retruns (…)". */
  function V08Header(n: Node, indent: string): string
    requires n.FunctionDefinition?
  {
    var at := n.at;
    var rpl := ParamText(V08, n.returnParameters, indent);
    "function " + at.name + "(" + ParamText(V08, n.parameters, indent) + ")"
    + (if at.visibility != "" then " " + at.visibility else "")
    + (if at.stateMutability != "" then " " + at.stateMutability else "")
    + (if n.overrides.OverrideSpecifier? then " " + Sub(V08, n.overrides, indent) else "")
    + (if rpl != "" then " retruns (" + rpl + ")" else "")
  }

  /** The 0.6 header, chosen by the function's kind. */
  function LegacyHeader(n: Node, indent: string): string
    requires n.FunctionDefinition?
  {
    var at := n.at;
    var params := ParamText(Legacy, n.parameters, indent);
    var rpl := ParamText(Legacy, n.returnParameters, indent);
    var vis := if at.visibility != "" then " " + at.visibility else "";
    var mut := if at.stateMutability != "" && at.stateMutability != "nonpayable" then " " + at.stateMutability else "";
    if at.kind == "function" then
      "function " + at.name + "(" + params + ")" + vis + ModifierText(Legacy, n.modifiers, indent) + mut
      + (if at.virtual then " virtual" else "")
      + (if rpl != "" then " returns (" + rpl + ")" else "")
    else if at.kind == "constructor" then
      "constructor(" + params + ")" + ModifierText(Legacy, n.modifiers, indent) + vis
    else if at.kind == "receive" then "receive(" + params + ")" + vis + mut
    else if at.kind == "fallback" then "fallback()" + vis + mut
    else ""
  }

  /** `MakeSignature`: the contract name, then "." and the function's name
      (or "constructor" / "receive"), then the parameter list in parentheses. */
  function MakeSignature(d: Dialect, contractName: string, fd: Node): (sig: string)
    requires fd.FunctionDefinition?
    ensures StartsWith(sig, contractName)
    ensures |sig| > |contractName| && sig[|sig| - 1] == ')'
    ensures var tail := "(" + ParamText(d, fd.parameters, "") + ")";
            (fd.at.kind == "function" ==> sig == contractName + "." + fd.at.name + tail) &&
            (fd.at.kind == "constructor" ==> sig == contractName + ".constructor" + tail) &&
            (fd.at.kind == "receive" ==> sig == contractName + ".receive" + tail) &&
            (fd.at.kind !in {"function", "constructor", "receive"} ==> sig == contractName + tail)
  {
    var at := fd.at;
    var named :=
      if at.kind == "function" then "." + at.name
      else if at.kind == "constructor" then ".constructor"
      else if at.kind == "receive" then ".receive"
      else "";
    contractName + named + "(" + ParamText(d, fd.parameters, "") + ")"
  }

  // ---------------------------------------------------------------------------
  // Flat rendering

  /** With both flags off a `Framed` kind prints as its core text. */
  lemma FramedFlat(d: Dialect, n: Node, indent: string)
    requires Framed(n)
    ensures Sub(d, n, indent) == Core(d, n, indent)
  {
    FramedText(d, n, false, false, indent);
    assert Ind(false, indent) == "" && SemiOf(n, false) == "";
  }

  /** A `Framed` kind prints as the indent, its core text and its ";". */
  lemma FramedText(d: Dialect, n: Node, isSc: bool, isIndent: bool, indent: string)
    requires Framed(n)
    ensures Text(d, n, isSc, isIndent, indent) == Ind(isIndent, indent) + Core(d, n, indent) + SemiOf(n, isSc)
  {
  }

  lemma ExprFlat(d: Dialect, n: Node, indent: string)
    requires ExprCoreKind(n)
    ensures Sub(d, n, indent) == ExprCore(d, n, indent)
  {
    FramedFlat(d, n, indent);
  }

  /** An index access on an identifier prints both operands flat, in brackets. */
  lemma IndexFlat(d: Dialect, n: Node, indent: string)
    requires n.IndexAccess? && n.baseExpression.Identifier?
    requires n.indexExpression.Identifier? || n.indexExpression.Literal?
    ensures Sub(d, n, indent) == Sub(d, n.baseExpression, indent) + "[" + Sub(d, n.indexExpression, indent) + "]"
  {
    ExprFlat(d, n, indent);
  }

  lemma OperationFlat(d: Dialect, n: Node, indent: string)
    requires n.BinaryOperation? || n.Assignment? || n.UnaryOperation?
    ensures Sub(d, n, indent) == OperationCore(d, n, indent)
  {
    ExprFlat(d, n, indent);
  }

  lemma DeclFlat(d: Dialect, n: Node, indent: string)
    requires DeclCoreKind(n)
    ensures Sub(d, n, indent) == DeclCore(d, n, indent)
  {
    FramedFlat(d, n, indent);
    assert !ExprCoreKind(n) && !StmtCoreKind(n);
  }

  lemma VarDeclFlat(d: Dialect, n: Node, indent: string)
    requires n.VariableDeclaration?
    ensures Sub(d, n, indent) == VarDeclCore(d, n, indent)
  {
    DeclFlat(d, n, indent);
  }
}

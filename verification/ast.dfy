/** The typed Solidity syntax tree that the builders produce and every other
    part of the tool works on.  A Go `ASTNode` interface value becomes one
    `Node`; the nil interface is `Nil`. */
module Ast {

  /** The two families of node rules: `Legacy` gathers the files written for
      compiler versions 0.4, 0.5 and 0.6, `V08` the files written for 0.8. */
  datatype Dialect = Legacy | V08

  /** The scalar JSON fields of a node.  Each kind reads the ones its Go struct
      declares and ignores the rest; `signature` is the cached value that
      `MakeSignature` stores in a function definition. */
  datatype Attrs = Attrs(
    id: int,
    name: string,
    operator: string,
    kind: string,
    value: string,
    hexValue: string,
    subdenomination: string,
    typeString: string,
    typeNameText: string,
    visibility: string,
    stateMutability: string,
    storageLocation: string,
    constant: bool,
    indexed: bool,
    virtual: bool,
    implemented: bool,
    prefix: bool,
    stateVariable: bool,
    memberName: string,
    license: string,
    literals: seq<string>,
    operations: string,
    names: seq<string>,
    referencedDeclaration: int,
    linearizedBaseContracts: seq<int>,
    scope: int,
    contractKind: string,
    signature: string)

  /** Attributes with every field at its Go zero value. */
  function Blank(): (a: Attrs)
    ensures a.id == 0 && a.name == "" && a.kind == "" && a.signature == ""
  {
    Attrs(0, "", "", "", "", "", "", "", "", "", "", "", false, false, false,
          false, false, false, "", "", [], "", [], 0, [], 0, "", "")
  }

  datatype Node =
    | Nil
    // declarations
    | SourceUnit(at: Attrs, nodes: seq<Node>)
    | PragmaDirective(at: Attrs)
    | ContractDefinition(at: Attrs, baseContracts: seq<Node>, nodes: seq<Node>)
    | InheritanceSpecifier(at: Attrs, baseName: Node)
    | UsingForDirective(at: Attrs, libraryName: Node, typeName: Node)
    | StructDefinition(at: Attrs, members: seq<Node>)
    | EnumDefinition(at: Attrs, members: seq<Node>)
    | EnumValue(at: Attrs)
    | ErrorDefinition(at: Attrs, parameters: Node)
    | EventDefinition(at: Attrs, parameters: Node)
    | FunctionDefinition(at: Attrs, parameters: Node, returnParameters: Node,
                         modifiers: seq<Node>, overrides: Node, body: Node)
    | ModifierDefinition(at: Attrs, parameters: Node, body: Node)
    | ModifierInvocation(at: Attrs, modifierName: Node, arguments: seq<Node>)
    | OverrideSpecifier(at: Attrs)
    | ParameterList(at: Attrs, params: seq<Node>)
    | VariableDeclaration(at: Attrs, typeName: Node, value: Node)
    // type names
    | ElementaryTypeName(at: Attrs)
    | UserDefinedTypeName(at: Attrs, pathNode: Node)
    | IdentifierPath(at: Attrs)
    | Mapping(at: Attrs, keyType: Node, valueType: Node)
    | ArrayTypeName(at: Attrs, baseType: Node, length: Node)
    // statements
    | Block(at: Attrs, statements: seq<Node>)
    | UncheckedBlock(at: Attrs, statements: seq<Node>)
    | ExpressionStatement(at: Attrs, expression: Node, trackVariable: Node, trackMapping: Node)
    | VariableDeclarationStatement(at: Attrs, declarations: seq<Node>, initialValue: Node)
    | IfStatement(at: Attrs, condition: Node, trueBody: Node, falseBody: Node)
    | ForStatement(at: Attrs, init: Node, condition: Node, loop: Node, body: Node)
    | WhileStatement(at: Attrs, condition: Node, body: Node)
    | DoWhileStatement(at: Attrs, condition: Node, body: Node)
    | TryStatement(at: Attrs, externalCall: Node, clauses: seq<Node>)
    | TryCatchClause(at: Attrs, parameters: Node, block: Node)
    | Return(at: Attrs, expression: Node)
    | EmitStatement(at: Attrs, eventCall: Node)
    | RevertStatement(at: Attrs, errorCall: Node)
    | PlaceholderStatement(at: Attrs)
    | Break(at: Attrs)
    | Continue(at: Attrs)
    | InlineAssembly(at: Attrs, ast: Node)
    // expressions
    | Assignment(at: Attrs, leftHandSide: Node, rightHandSide: Node)
    | BinaryOperation(at: Attrs, leftExpression: Node, rightExpression: Node)
    | UnaryOperation(at: Attrs, subExpression: Node)
    | Conditional(at: Attrs, condition: Node, trueExpression: Node, falseExpression: Node)
    | FunctionCall(at: Attrs, expression: Node, arguments: seq<Node>, ref: int)
    | FunctionCallOptions(at: Attrs, expression: Node, options: seq<Node>)
    | MemberAccess(at: Attrs, expression: Node)
    | IndexAccess(at: Attrs, baseExpression: Node, indexExpression: Node)
    | TupleExpression(at: Attrs, components: seq<Node>)
    | NewExpression(at: Attrs, typeName: Node)
    | ElementaryTypeNameExpression(at: Attrs, typeName: Node)
    | Identifier(at: Attrs)
    | Literal(at: Attrs)
    // inline assembly (Yul)
    | YulBlock(at: Attrs, statements: seq<Node>)
    | YulAssignment(at: Attrs, variableNames: seq<Node>, value: Node)
    | YulVariableDeclaration(at: Attrs, variables: seq<Node>, value: Node)
    | YulExpressionStatement(at: Attrs, expression: Node)
    | YulFunctionCall(at: Attrs, functionName: Node, arguments: seq<Node>)
    | YulForLoop(at: Attrs, pre: Node, condition: Node, post: Node, body: Node)
    | YulSwitch(at: Attrs, expression: Node, cases: seq<Node>)
    | YulCase(at: Attrs, value: Node, body: Node)
    | YulIf(at: Attrs, condition: Node, body: Node)
    | YulLiteral(at: Attrs)
    | YulTypedName(at: Attrs)
    | YulIdentifier(at: Attrs)
    | YulBreak(at: Attrs)

  /** `Type()`: the `nodeType` tag of a node. */
  function NodeType(n: Node): (t: string)
    ensures n.Nil? <==> t == ""
  {
    match n
    case Nil => ""
    case SourceUnit(_, _) => "SourceUnit"
    case PragmaDirective(_) => "PragmaDirective"
    case ContractDefinition(_, _, _) => "ContractDefinition"
    case InheritanceSpecifier(_, _) => "InheritanceSpecifier"
    case UsingForDirective(_, _, _) => "UsingForDirective"
    case StructDefinition(_, _) => "StructDefinition"
    case EnumDefinition(_, _) => "EnumDefinition"
    case EnumValue(_) => "EnumValue"
    case ErrorDefinition(_, _) => "ErrorDefinition"
    case EventDefinition(_, _) => "EventDefinition"
    case FunctionDefinition(_, _, _, _, _, _) => "FunctionDefinition"
    case ModifierDefinition(_, _, _) => "ModifierDefinition"
    case ModifierInvocation(_, _, _) => "ModifierInvocation"
    case OverrideSpecifier(_) => "OverrideSpecifier"
    case ParameterList(_, _) => "ParameterList"
    case VariableDeclaration(_, _, _) => "VariableDeclaration"
    case ElementaryTypeName(_) => "ElementaryTypeName"
    case UserDefinedTypeName(_, _) => "UserDefinedTypeName"
    case IdentifierPath(_) => "IdentifierPath"
    case Mapping(_, _, _) => "Mapping"
    case ArrayTypeName(_, _, _) => "ArrayTypeName"
    case Block(_, _) => "Block"
    case UncheckedBlock(_, _) => "UncheckedBlock"
    case ExpressionStatement(_, _, _, _) => "ExpressionStatement"
    case VariableDeclarationStatement(_, _, _) => "VariableDeclarationStatement"
    case IfStatement(_, _, _, _) => "IfStatement"
    case ForStatement(_, _, _, _, _) => "ForStatement"
    case WhileStatement(_, _, _) => "WhileStatement"
    case DoWhileStatement(_, _, _) => "DoWhileStatement"
    case TryStatement(_, _, _) => "TryStatement"
    case TryCatchClause(_, _, _) => "TryCatchClause"
    case Return(_, _) => "Return"
    case EmitStatement(_, _) => "EmitStatement"
    case RevertStatement(_, _) => "RevertStatement"
    case PlaceholderStatement(_) => "PlaceholderStatement"
    case Break(_) => "Break"
    case Continue(_) => "Continue"
    case InlineAssembly(_, _) => "InlineAssembly"
    case Assignment(_, _, _) => "Assignment"
    case BinaryOperation(_, _, _) => "BinaryOperation"
    case UnaryOperation(_, _) => "UnaryOperation"
    case Conditional(_, _, _, _) => "Conditional"
    case FunctionCall(_, _, _, _) => "FunctionCall"
    case FunctionCallOptions(_, _, _) => "FunctionCallOptions"
    case MemberAccess(_, _) => "MemberAccess"
    case IndexAccess(_, _, _) => "IndexAccess"
    case TupleExpression(_, _) => "TupleExpression"
    case NewExpression(_, _) => "NewExpression"
    case ElementaryTypeNameExpression(_, _) => "ElementaryTypeNameExpression"
    case Identifier(_) => "Identifier"
    case Literal(_) => "Literal"
    case YulBlock(_, _) => "YulBlock"
    case YulAssignment(_, _, _) => "YulAssignment"
    case YulVariableDeclaration(_, _, _) => "YulVariableDeclaration"
    case YulExpressionStatement(_, _) => "YulExpressionStatement"
    case YulFunctionCall(_, _, _) => "YulFunctionCall"
    case YulForLoop(_, _, _, _, _) => "YulForLoop"
    case YulSwitch(_, _, _) => "YulSwitch"
    case YulCase(_, _, _) => "YulCase"
    case YulIf(_, _, _) => "YulIf"
    case YulLiteral(_) => "YulLiteral"
    case YulTypedName(_) => "YulTypedName"
    case YulIdentifier(_) => "YulIdentifier"
    case YulBreak(_) => "YulBreak"
  }

  /** The Yul kinds, whose `NodeID()` is the constant -1. */
  predicate IsYul(n: Node)
  {
    n.YulBlock? || n.YulAssignment? || n.YulVariableDeclaration? ||
    n.YulExpressionStatement? || n.YulFunctionCall? || n.YulForLoop? ||
    n.YulSwitch? || n.YulCase? || n.YulIf? || n.YulLiteral? ||
    n.YulTypedName? || n.YulIdentifier? || n.YulBreak?
  }

  /** `NodeID()`: the decoded id, or -1 for a Yul node.  Calling it on nil
      panics and on a `YulSwitch` it recurses forever, so both are excluded. */
  function NodeID(n: Node): (id: int)
    requires !n.Nil? && !n.YulSwitch?
    ensures IsYul(n) ==> id == -1
    ensures !IsYul(n) ==> id == n.at.id
  {
    if IsYul(n) then -1 else n.at.id
  }

  /** A contract with its member list replaced. */
  function WithMembers(c: Node, ms: seq<Node>): (r: Node)
    requires c.ContractDefinition?
    ensures r.ContractDefinition? && r.at == c.at && r.baseContracts == c.baseContracts && r.nodes == ms
  {
    ContractDefinition(c.at, c.baseContracts, ms)
  }
}

/** The builders: each `GetX` decodes one JSON object into a node of kind
    X, builds its children slot by slot, and (for most kinds) registers the
    node.  The JSON is taken as already decoded into `Raw` records. */
module Builder {
  import opened Wrappers
  import opened Ast
  import opened Registry

  // ---------------------------------------------------------------------------
  // Input

  /** One JSON value in a child position, tagged with the key it sits under
      in its parent (the elements of an array all carry the array's key).
      `Empty` is an empty object or null; `decodes` says whether the
      object's scalar fields unmarshal. */
  datatype Raw =
    | Empty(key: string)
    | Object(key: string, nodeType: string, decodes: bool, at: Attrs, children: seq<Raw>)

  /** The children under `key`, in order. */
  function Keyed(children: seq<Raw>, key: string): (r: seq<Raw>)
    ensures forall x :: x in r ==> x in children && x.key == key
    ensures |r| <= |children|
    decreases |children|
  {
    if |children| == 0 then []
    else (if children[0].key == key then [children[0]] else []) + Keyed(children[1..], key)
  }

  // ---------------------------------------------------------------------------
  // Node kinds

  datatype Kind =
    | KSourceUnit
    | KPragmaDirective
    | KContractDefinition
    | KInheritanceSpecifier
    | KUsingForDirective
    | KStructDefinition
    | KEnumDefinition
    | KEnumValue
    | KErrorDefinition
    | KEventDefinition
    | KFunctionDefinition
    | KModifierDefinition
    | KModifierInvocation
    | KOverrideSpecifier
    | KParameterList
    | KVariableDeclaration
    | KElementaryTypeName
    | KUserDefinedTypeName
    | KIdentifierPath
    | KMapping
    | KArrayTypeName
    | KBlock
    | KUncheckedBlock
    | KExpressionStatement
    | KVariableDeclarationStatement
    | KIfStatement
    | KForStatement
    | KWhileStatement
    | KDoWhileStatement
    | KTryStatement
    | KTryCatchClause
    | KReturn
    | KEmitStatement
    | KRevertStatement
    | KPlaceholderStatement
    | KBreak
    | KContinue
    | KInlineAssembly
    | KAssignment
    | KBinaryOperation
    | KUnaryOperation
    | KConditional
    | KFunctionCall
    | KFunctionCallOptions
    | KMemberAccess
    | KIndexAccess
    | KTupleExpression
    | KNewExpression
    | KElementaryTypeNameExpression
    | KIdentifier
    | KLiteral
    | KYulBlock
    | KYulAssignment
    | KYulVariableDeclaration
    | KYulExpressionStatement
    | KYulFunctionCall
    | KYulForLoop
    | KYulSwitch
    | KYulCase
    | KYulIf
    | KYulLiteral
    | KYulTypedName
    | KYulIdentifier
    | KYulBreak

  function Name(k: Kind): (s: string)
  {
    match k
    case KSourceUnit => "SourceUnit"
    case KPragmaDirective => "PragmaDirective"
    case KContractDefinition => "ContractDefinition"
    case KInheritanceSpecifier => "InheritanceSpecifier"
    case KUsingForDirective => "UsingForDirective"
    case KStructDefinition => "StructDefinition"
    case KEnumDefinition => "EnumDefinition"
    case KEnumValue => "EnumValue"
    case KErrorDefinition => "ErrorDefinition"
    case KEventDefinition => "EventDefinition"
    case KFunctionDefinition => "FunctionDefinition"
    case KModifierDefinition => "ModifierDefinition"
    case KModifierInvocation => "ModifierInvocation"
    case KOverrideSpecifier => "OverrideSpecifier"
    case KParameterList => "ParameterList"
    case KVariableDeclaration => "VariableDeclaration"
    case KElementaryTypeName => "ElementaryTypeName"
    case KUserDefinedTypeName => "UserDefinedTypeName"
    case KIdentifierPath => "IdentifierPath"
    case KMapping => "Mapping"
    case KArrayTypeName => "ArrayTypeName"
    case KBlock => "Block"
    case KUncheckedBlock => "UncheckedBlock"
    case KExpressionStatement => "ExpressionStatement"
    case KVariableDeclarationStatement => "VariableDeclarationStatement"
    case KIfStatement => "IfStatement"
    case KForStatement => "ForStatement"
    case KWhileStatement => "WhileStatement"
    case KDoWhileStatement => "DoWhileStatement"
    case KTryStatement => "TryStatement"
    case KTryCatchClause => "TryCatchClause"
    case KReturn => "Return"
    case KEmitStatement => "EmitStatement"
    case KRevertStatement => "RevertStatement"
    case KPlaceholderStatement => "PlaceholderStatement"
    case KBreak => "Break"
    case KContinue => "Continue"
    case KInlineAssembly => "InlineAssembly"
    case KAssignment => "Assignment"
    case KBinaryOperation => "BinaryOperation"
    case KUnaryOperation => "UnaryOperation"
    case KConditional => "Conditional"
    case KFunctionCall => "FunctionCall"
    case KFunctionCallOptions => "FunctionCallOptions"
    case KMemberAccess => "MemberAccess"
    case KIndexAccess => "IndexAccess"
    case KTupleExpression => "TupleExpression"
    case KNewExpression => "NewExpression"
    case KElementaryTypeNameExpression => "ElementaryTypeNameExpression"
    case KIdentifier => "Identifier"
    case KLiteral => "Literal"
    case KYulBlock => "YulBlock"
    case KYulAssignment => "YulAssignment"
    case KYulVariableDeclaration => "YulVariableDeclaration"
    case KYulExpressionStatement => "YulExpressionStatement"
    case KYulFunctionCall => "YulFunctionCall"
    case KYulForLoop => "YulForLoop"
    case KYulSwitch => "YulSwitch"
    case KYulCase => "YulCase"
    case KYulIf => "YulIf"
    case KYulLiteral => "YulLiteral"
    case KYulTypedName => "YulTypedName"
    case KYulIdentifier => "YulIdentifier"
    case KYulBreak => "YulBreak"
  }

  /** Every kind, family by family.  Names are unique, so the order only
      decides how soon a lookup stops. */
  const AllKinds: seq<Kind> := UnitKinds + DeclarationKinds + TypeKinds + StatementKinds + ExpressionKinds + YulKinds

  const UnitKinds: seq<Kind> := [KSourceUnit, KPragmaDirective, KContractDefinition]
  const DeclarationKinds: seq<Kind> := [
    KFunctionDefinition, KInheritanceSpecifier, KUsingForDirective, KStructDefinition, KEnumDefinition,
    KEnumValue, KErrorDefinition, KEventDefinition, KModifierDefinition, KModifierInvocation,
    KOverrideSpecifier, KParameterList, KVariableDeclaration]
  const TypeKinds: seq<Kind> := [KElementaryTypeName, KUserDefinedTypeName, KIdentifierPath, KMapping, KArrayTypeName]
  const StatementKinds: seq<Kind> := [
    KBlock, KUncheckedBlock, KExpressionStatement, KVariableDeclarationStatement, KIfStatement,
    KForStatement, KWhileStatement, KDoWhileStatement, KTryStatement, KTryCatchClause, KReturn,
    KEmitStatement, KRevertStatement, KPlaceholderStatement, KBreak, KContinue, KInlineAssembly]
  const ExpressionKinds: seq<Kind> := [
    KAssignment, KBinaryOperation, KUnaryOperation, KConditional, KFunctionCall, KFunctionCallOptions,
    KMemberAccess, KIndexAccess, KTupleExpression, KNewExpression, KElementaryTypeNameExpression,
    KIdentifier, KLiteral]
  const YulKinds: seq<Kind> := [
    KYulBlock, KYulAssignment, KYulVariableDeclaration, KYulExpressionStatement, KYulFunctionCall,
    KYulForLoop, KYulSwitch, KYulCase, KYulIf, KYulLiteral, KYulTypedName, KYulIdentifier, KYulBreak]

  /** The kind a `nodeType` tag names, if it names one. */
  function KindOf(s: string): (r: Option<Kind>)
    ensures r.Some? ==> Name(r.value) == s
    ensures r.None? ==> forall k :: k in AllKinds ==> Name(k) != s
  {
    Lookup(AllKinds, s)
  }

  /** The tags of functions and contracts name their kinds. */
  lemma TagKinds(s: string, k: Kind)
    requires k == KFunctionDefinition || k == KContractDefinition
    requires s == Name(k)
    ensures KindOf(s) == Some(k)
  {
    if k == KFunctionDefinition {
      FunctionTagFront(s);
    } else {
      ContractTagFront(s);
    }
    FoundInFront(s, k);
  }

  /** The function definition leads the second family, and no kind of
      the first has its name. */
  lemma FunctionTagFront(s: string)
    requires s == Name(KFunctionDefinition)
    ensures Lookup(UnitKinds + DeclarationKinds, s) == Some(KFunctionDefinition)
  {
    assert DeclarationKinds[0] == KFunctionDefinition;
    LookupAt(DeclarationKinds, s, 0);
    assert Name(UnitKinds[0]) != s && Name(UnitKinds[1]) != s && Name(UnitKinds[2]) != s;
    assert forall x :: x in UnitKinds ==> Name(x) != s;
    LookupSkip(UnitKinds, DeclarationKinds, s);
  }

  /** The first family holds the contract definition's name at the
      contract definition. */
  lemma ContractTagFront(s: string)
    requires s == Name(KContractDefinition)
    ensures Lookup(UnitKinds + DeclarationKinds, s) == Some(KContractDefinition)
  {
    assert Name(UnitKinds[0]) != s && Name(UnitKinds[1]) != s && UnitKinds[2] == KContractDefinition;
    LookupAt(UnitKinds, s, 2);
    LookupPrefix(UnitKinds, DeclarationKinds, s);
  }

  /** What the first two families find, every kind finds. */
  lemma FoundInFront(s: string, k: Kind)
    requires Lookup(UnitKinds + DeclarationKinds, s) == Some(k)
    ensures KindOf(s) == Some(k)
  {
    var front := UnitKinds + DeclarationKinds;
    LookupPrefix(front, TypeKinds, s);
    LookupPrefix(front + TypeKinds, StatementKinds, s);
    LookupPrefix(front + TypeKinds + StatementKinds, ExpressionKinds, s);
    LookupPrefix(front + TypeKinds + StatementKinds + ExpressionKinds, YulKinds, s);
  }

  /** The lookup finds the first kind with the name. */
  lemma {:induction false} LookupAt(ks: seq<Kind>, s: string, j: nat)
    requires j < |ks| && Name(ks[j]) == s
    requires forall i :: 0 <= i < j ==> Name(ks[i]) != s
    ensures Lookup(ks, s) == Some(ks[j])
    decreases j
  {
    if j > 0 {
      LookupAt(ks[1..], s, j - 1);
    }
  }

  /** A name found in a list is found first in any longer list. */
  lemma {:induction false} LookupPrefix(a: seq<Kind>, b: seq<Kind>, s: string)
    ensures Lookup(a, s).Some? ==> Lookup(a + b, s) == Lookup(a, s)
    decreases |a|
  {
    if |a| > 0 {
      assert (a + b)[0] == a[0] && (a + b)[1..] == a[1..] + b;
      LookupPrefix(a[1..], b, s);
    }
  }

  /** A list without the name is passed over. */
  lemma {:induction false} LookupSkip(a: seq<Kind>, b: seq<Kind>, s: string)
    requires forall x :: x in a ==> Name(x) != s
    ensures Lookup(a + b, s) == Lookup(b, s)
    decreases |a|
  {
    if |a| > 0 {
      assert (a + b)[0] == a[0] && (a + b)[1..] == a[1..] + b;
      assert forall x :: x in a[1..] ==> x in a;
      LookupSkip(a[1..], b, s);
    } else {
      assert a + b == b;
    }
  }

  function Lookup(ks: seq<Kind>, s: string): (r: Option<Kind>)
    ensures r.Some? ==> Name(r.value) == s
    ensures r.None? ==> forall k :: k in ks ==> Name(k) != s
    decreases |ks|
  {
    if |ks| == 0 then None
    else if Name(ks[0]) == s then Some(ks[0])
    else Lookup(ks[1..], s)
  }

  // ---------------------------------------------------------------------------
  // The slot table

  /** A child slot: its JSON key, the kinds its `switch` builds (any other
      kind is logged and left out), whether it holds a list, and whether an
      empty list entry stands for a blank number literal. */
  datatype SlotSpec = SlotSpec(key: string, accepted: seq<Kind>, many: bool, padded: bool)

  function One(key: string, accepted: seq<Kind>): SlotSpec { SlotSpec(key, accepted, false, false) }
  function Many(key: string, accepted: seq<Kind>): SlotSpec { SlotSpec(key, accepted, true, false) }
  function Padded(key: string, accepted: seq<Kind>): SlotSpec { SlotSpec(key, accepted, true, true) }

  /** The one slot of a tuple: its components, where an empty entry keeps
      its position as a blank number literal. */
  const Components := Padded("components", [KBinaryOperation, KElementaryTypeNameExpression, KIdentifier, KLiteral, KConditional, KIndexAccess, KFunctionCall, KMemberAccess])

  /** The member kinds a legacy contract builds, in its `nodes` list. */
  const ContractMembers := [KVariableDeclaration, KFunctionDefinition, KModifierDefinition, KEventDefinition,
                            KStructDefinition, KEnumDefinition, KUsingForDirective]

  /** Whether the builder of a kind ends with `gn.AddASTNode`: every legacy
      builder of a declaration, statement or expression does; the 0.8
      builders of the kinds both dialects have, the Yul kinds and the
      remaining structural kinds do not. */
  predicate Registers(d: Dialect, k: Kind)
    ensures k == KYulSwitch ==> !Registers(d, k)
  {
    match k
    case KBreak | KContinue | KEmitStatement | KEnumDefinition | KEnumValue
       | KErrorDefinition | KEventDefinition | KIdentifier | KIdentifierPath | KModifierDefinition
       | KModifierInvocation | KOverrideSpecifier | KParameterList | KPlaceholderStatement
       | KVariableDeclarationStatement => false
    case KYulAssignment | KYulBlock | KYulBreak | KYulCase | KYulExpressionStatement | KYulForLoop
       | KYulFunctionCall | KYulIdentifier | KYulIf | KYulLiteral | KYulSwitch | KYulTypedName
       | KYulVariableDeclaration => false
    case KArrayTypeName | KAssignment | KBinaryOperation | KContractDefinition | KFunctionDefinition | KInheritanceSpecifier
       | KInlineAssembly | KMapping | KReturn | KSourceUnit | KUserDefinedTypeName | KUsingForDirective
       | KVariableDeclaration => d == Legacy
    case _ => true
  }

  /** The child slots each kind's builder fills, in the order it builds
      them; a kind whose builder exists in one dialect only uses that
      builder in both. */
  function Slots(d: Dialect, k: Kind): seq<SlotSpec>
  {
    match k
    case KArrayTypeName =>
      if d == Legacy then
        [One("baseType", [KElementaryTypeName, KUserDefinedTypeName]),
                  One("length", [KLiteral])]
      else
        [One("baseType", [KElementaryTypeName])]
    case KAssignment =>
      if d == Legacy then
        [One("leftHandSide", [KIdentifier, KIndexAccess, KTupleExpression, KMemberAccess]),
                  One("rightHandSide", [KLiteral, KIdentifier, KFunctionCall, KMemberAccess, KBinaryOperation, KIndexAccess, KUnaryOperation])]
      else
        [One("leftHandSide", [KIdentifier]),
                  One("rightHandSide", [KLiteral])]
    case KBinaryOperation =>
      if d == Legacy then
        [One("leftExpression", [KLiteral, KIdentifier, KBinaryOperation, KUnaryOperation, KFunctionCall, KMemberAccess, KTupleExpression, KIndexAccess]),
                  One("rightExpression", [KIdentifier, KBinaryOperation, KFunctionCall, KLiteral, KUnaryOperation, KMemberAccess, KTupleExpression, KIndexAccess])]
      else
        [One("leftExpression", [KLiteral, KIdentifier, KBinaryOperation, KUnaryOperation, KFunctionCall]),
                  One("rightExpression", [KIdentifier, KBinaryOperation, KFunctionCall, KLiteral, KUnaryOperation, KMemberAccess])]
    case KBlock =>
      [Many("statements", [KPlaceholderStatement, KExpressionStatement, KReturn, KEmitStatement, KIfStatement, KVariableDeclarationStatement, KInlineAssembly, KForStatement, KRevertStatement, KBlock, KUncheckedBlock, KWhileStatement, KTryStatement, KDoWhileStatement])]
    case KBreak =>
      []
    case KConditional =>
      [One("condition", [KTupleExpression, KBinaryOperation, KIdentifier]),
                One("falseExpression", [KIdentifier, KFunctionCall, KLiteral, KBinaryOperation]),
                One("trueExpression", [KIdentifier, KMemberAccess, KLiteral, KFunctionCall, KBinaryOperation])]
    case KContinue =>
      []
    case KContractDefinition =>
      if d == Legacy then
        [Many("baseContracts", [KInheritanceSpecifier]),
                  Many("nodes", ContractMembers)]
      else
        [Many("baseContracts", [KInheritanceSpecifier])]
    case KDoWhileStatement =>
      [One("body", [KBlock]),
                One("condition", [KFunctionCall, KBinaryOperation, KLiteral])]
    case KElementaryTypeName =>
      []
    case KElementaryTypeNameExpression =>
      if d == Legacy then
        []
      else
        [One("typeName", [KElementaryTypeName])]
    case KEmitStatement =>
      [One("eventCall", [KFunctionCall])]
    case KEnumDefinition =>
      [Many("members", [])]
    case KEnumValue =>
      []
    case KErrorDefinition =>
      [One("parameters", [KParameterList])]
    case KEventDefinition =>
      [One("parameters", [KParameterList])]
    case KExpressionStatement =>
      if d == Legacy then
        [One("expression", [KAssignment, KFunctionCall, KUnaryOperation, KIdentifier])]
      else
        [One("expression", [KAssignment, KFunctionCall, KUnaryOperation, KIdentifier])]
    case KForStatement =>
      [One("initializationExpression", [KVariableDeclarationStatement]),
                One("condition", [KBinaryOperation]),
                One("loopExpression", [KExpressionStatement]),
                One("body", [KBlock])]
    case KFunctionCall =>
      [One("expression", [KIdentifier, KMemberAccess, KElementaryTypeNameExpression, KNewExpression, KFunctionCallOptions]),
                Many("arguments", [KFunctionCall, KIdentifier, KLiteral, KBinaryOperation, KMemberAccess, KUnaryOperation, KConditional, KElementaryTypeNameExpression, KTupleExpression, KIndexAccess])]
    case KFunctionCallOptions =>
      [One("expression", [KMemberAccess]),
                Many("options", [KMemberAccess])]
    case KFunctionDefinition =>
      if d == Legacy then
        [Many("modifiers", [KModifierInvocation]),
                  One("body", [KBlock]),
                  One("overrides", []),
                  One("parameters", [KParameterList]),
                  One("returnParameters", [KParameterList])]
      else
        [One("body", [KBlock]),
                  One("overrides", [KOverrideSpecifier]),
                  One("parameters", [KParameterList]),
                  One("returnParameters", [KParameterList])]
    case KIdentifier =>
      []
    case KIdentifierPath =>
      []
    case KIfStatement =>
      if d == Legacy then
        [One("condition", [KBinaryOperation, KUnaryOperation, KLiteral, KIndexAccess, KIdentifier]),
                  One("falseBody", [KBlock, KIfStatement, KExpressionStatement]),
                  One("trueBody", [KBlock, KExpressionStatement, KReturn, KIfStatement])]
      else
        [One("condition", [KBinaryOperation]),
                  One("trueBody", [KBlock])]
    case KIndexAccess =>
      [One("baseExpression", [KIdentifier, KIndexAccess, KMemberAccess, KElementaryTypeNameExpression]),
                One("indexExpression", [KIdentifier, KFunctionCall, KLiteral, KIndexAccess, KMemberAccess, KBinaryOperation, KUnaryOperation])]
    case KInheritanceSpecifier =>
      if d == Legacy then
        [One("baseName", [KUserDefinedTypeName])]
      else
        [One("baseName", [KIdentifierPath])]
    case KInlineAssembly =>
      if d == Legacy then
        []
      else
        [One("AST", [KYulBlock])]
    case KLiteral =>
      []
    case KMapping =>
      if d == Legacy then
        [One("keyType", [KElementaryTypeName]),
                  One("valueType", [KElementaryTypeName, KMapping, KUserDefinedTypeName, KArrayTypeName])]
      else
        [One("keyType", [KElementaryTypeName]),
                  One("valueType", [KElementaryTypeName])]
    case KMemberAccess =>
      [One("expression", [KIndexAccess, KIdentifier, KFunctionCall, KMemberAccess])]
    case KModifierDefinition =>
      [One("parameters", [KParameterList]),
                One("body", [KBlock])]
    case KModifierInvocation =>
      [Many("arguments", [KIdentifier]),
                One("modifierName", [KIdentifierPath])]
    case KNewExpression =>
      [One("typeName", [KArrayTypeName, KElementaryTypeName])]
    case KOverrideSpecifier =>
      []
    case KParameterList =>
      [Many("parameters", [KVariableDeclaration])]
    case KPlaceholderStatement =>
      []
    case KPragmaDirective =>
      []
    case KReturn =>
      if d == Legacy then
        [One("expression", [KIndexAccess, KLiteral, KBinaryOperation, KMemberAccess, KIdentifier, KFunctionCall, KTupleExpression])]
      else
        [One("expression", [KIndexAccess, KLiteral])]
    case KRevertStatement =>
      [One("errorCall", [KFunctionCall])]
    case KSourceUnit =>
      if d == Legacy then
        [Many("nodes", [KPragmaDirective, KContractDefinition, KVariableDeclaration])]
      else
        [Many("nodes", [KPragmaDirective, KContractDefinition])]
    case KStructDefinition =>
      [Many("members", [KVariableDeclaration])]
    case KTryCatchClause =>
      [One("block", [KBlock]),
                One("parameters", [KParameterList])]
    case KTryStatement =>
      [Many("clauses", [KTryCatchClause]),
                One("externalCall", [KFunctionCall])]
    case KTupleExpression =>
      [Components]
    case KUnaryOperation =>
      [One("subExpression", [KIdentifier, KFunctionCall, KIndexAccess])]
    case KUncheckedBlock =>
      [Many("statements", [KExpressionStatement, KVariableDeclarationStatement, KInlineAssembly, KIfStatement, KReturn, KWhileStatement, KEmitStatement])]
    case KUserDefinedTypeName =>
      if d == Legacy then
        []
      else
        [One("pathNode", [KIdentifierPath])]
    case KUsingForDirective =>
      if d == Legacy then
        [One("libraryName", [KUserDefinedTypeName]),
                  One("typeName", [KElementaryTypeName, KUserDefinedTypeName])]
      else
        [One("libraryName", [KIdentifierPath]),
                  One("typeName", [KElementaryTypeName])]
    case KVariableDeclaration =>
      if d == Legacy then
        [One("typeName", [KMapping, KElementaryTypeName, KUserDefinedTypeName, KArrayTypeName]),
                  One("value", [KLiteral, KBinaryOperation, KFunctionCall, KIdentifier, KMemberAccess, KUnaryOperation, KTupleExpression])]
      else
        [One("typeName", [KMapping, KElementaryTypeName, KUserDefinedTypeName, KArrayTypeName]),
                  One("value", [KLiteral, KBinaryOperation])]
    case KVariableDeclarationStatement =>
      [Many("declarations", [KVariableDeclaration]),
                One("initialValue", [KFunctionCall, KMemberAccess, KBinaryOperation, KLiteral])]
    case KWhileStatement =>
      [One("body", [KBlock]),
                One("condition", [KFunctionCall, KBinaryOperation, KLiteral])]
    case KYulAssignment =>
      [Many("variableNames", [KYulIdentifier]),
                One("value", [KYulFunctionCall, KYulIdentifier])]
    case KYulBlock =>
      if d == Legacy then
        [Many("statements", [KYulAssignment, KYulExpressionStatement, KYulVariableDeclaration, KYulForLoop, KYulSwitch, KYulIf, KYulBreak])]
      else
        [Many("statements", [KYulAssignment])]
    case KYulBreak =>
      []
    case KYulCase =>
      [One("body", [KYulBlock]),
                One("value", [KYulLiteral])]
    case KYulExpressionStatement =>
      [One("expression", [KYulFunctionCall])]
    case KYulForLoop =>
      [One("body", [KYulBlock]),
                One("condition", [KYulFunctionCall]),
                One("post", [KYulBlock]),
                One("pre", [KYulBlock])]
    case KYulFunctionCall =>
      [Many("arguments", [KYulIdentifier]),
                One("functionName", [KYulIdentifier])]
    case KYulIdentifier =>
      []
    case KYulIf =>
      [One("condition", [KYulFunctionCall, KYulLiteral, KYulIdentifier]),
                One("body", [KYulBlock])]
    case KYulLiteral =>
      []
    case KYulSwitch =>
      [Many("cases", [KYulCase]),
                One("expression", [KYulFunctionCall, KYulIdentifier])]
    case KYulTypedName =>
      []
    case KYulVariableDeclaration =>
      [One("value", [KYulFunctionCall, KYulIdentifier]),
                Many("variables", [KYulTypedName])]
  }

  // ---------------------------------------------------------------------------
  // From slots to nodes and back

  /** A slot's contents: what was built for `key`, nothing if the key was
      never built. */
  function Children(v: map<string, seq<Node>>, key: string): seq<Node>
  {
    if key in v then v[key] else []
  }

  /** A single-node slot's contents, `Nil` when empty. */
  function Child(v: map<string, seq<Node>>, key: string): Node
  {
    var c := Children(v, key);
    if |c| > 0 then c[0] else Nil
  }

  /** `referencedFunctionDefinition`: -1 unless the callee is an identifier
      or a member access, whose referenced declaration it then takes. */
  function RefOf(callee: Node): (r: int)
    ensures callee.Identifier? || callee.MemberAccess? ==> r == callee.at.referencedDeclaration
    ensures !(callee.Identifier? || callee.MemberAccess?) ==> r == -1
  {
    if callee.Identifier? || callee.MemberAccess? then callee.at.referencedDeclaration else -1
  }

  /** `n` is a node of kind `k`.  The first two conjuncts follow from
      `OfKind`; they are spelt out so that registrability needs no case split. */
  predicate Is(n: Node, k: Kind)
  {
    !n.Nil? && (n.YulSwitch? <==> k == KYulSwitch) && OfKind(n, k)
  }

  /** The constructor of `n` is the one `k` names. */
  predicate OfKind(n: Node, k: Kind)
  {
    match k
    case KSourceUnit => n.SourceUnit?
    case KPragmaDirective => n.PragmaDirective?
    case KContractDefinition => n.ContractDefinition?
    case KInheritanceSpecifier => n.InheritanceSpecifier?
    case KUsingForDirective => n.UsingForDirective?
    case KStructDefinition => n.StructDefinition?
    case KEnumDefinition => n.EnumDefinition?
    case KEnumValue => n.EnumValue?
    case KErrorDefinition => n.ErrorDefinition?
    case KEventDefinition => n.EventDefinition?
    case KFunctionDefinition => n.FunctionDefinition?
    case KModifierDefinition => n.ModifierDefinition?
    case KModifierInvocation => n.ModifierInvocation?
    case KOverrideSpecifier => n.OverrideSpecifier?
    case KParameterList => n.ParameterList?
    case KVariableDeclaration => n.VariableDeclaration?
    case KElementaryTypeName => n.ElementaryTypeName?
    case KUserDefinedTypeName => n.UserDefinedTypeName?
    case KIdentifierPath => n.IdentifierPath?
    case KMapping => n.Mapping?
    case KArrayTypeName => n.ArrayTypeName?
    case KBlock => n.Block?
    case KUncheckedBlock => n.UncheckedBlock?
    case KExpressionStatement => n.ExpressionStatement?
    case KVariableDeclarationStatement => n.VariableDeclarationStatement?
    case KIfStatement => n.IfStatement?
    case KForStatement => n.ForStatement?
    case KWhileStatement => n.WhileStatement?
    case KDoWhileStatement => n.DoWhileStatement?
    case KTryStatement => n.TryStatement?
    case KTryCatchClause => n.TryCatchClause?
    case KReturn => n.Return?
    case KEmitStatement => n.EmitStatement?
    case KRevertStatement => n.RevertStatement?
    case KPlaceholderStatement => n.PlaceholderStatement?
    case KBreak => n.Break?
    case KContinue => n.Continue?
    case KInlineAssembly => n.InlineAssembly?
    case KAssignment => n.Assignment?
    case KBinaryOperation => n.BinaryOperation?
    case KUnaryOperation => n.UnaryOperation?
    case KConditional => n.Conditional?
    case KFunctionCall => n.FunctionCall?
    case KFunctionCallOptions => n.FunctionCallOptions?
    case KMemberAccess => n.MemberAccess?
    case KIndexAccess => n.IndexAccess?
    case KTupleExpression => n.TupleExpression?
    case KNewExpression => n.NewExpression?
    case KElementaryTypeNameExpression => n.ElementaryTypeNameExpression?
    case KIdentifier => n.Identifier?
    case KLiteral => n.Literal?
    case KYulBlock => n.YulBlock?
    case KYulAssignment => n.YulAssignment?
    case KYulVariableDeclaration => n.YulVariableDeclaration?
    case KYulExpressionStatement => n.YulExpressionStatement?
    case KYulFunctionCall => n.YulFunctionCall?
    case KYulForLoop => n.YulForLoop?
    case KYulSwitch => n.YulSwitch?
    case KYulCase => n.YulCase?
    case KYulIf => n.YulIf?
    case KYulLiteral => n.YulLiteral?
    case KYulTypedName => n.YulTypedName?
    case KYulIdentifier => n.YulIdentifier?
    case KYulBreak => n.YulBreak?
  }

  /** The node of kind `k` with attributes `at` and the built slots `v`.
      Fields no slot fills (the shadow statements of an expression
      statement, the members of a 0.8 contract) start empty. */
  function Assemble(k: Kind, at: Attrs, v: map<string, seq<Node>>): (n: Node)
    ensures !n.Nil? && (n.YulSwitch? <==> k == KYulSwitch)
  {
    match k
    case KSourceUnit => SourceUnit(at, Children(v, "nodes"))
    case KPragmaDirective => PragmaDirective(at)
    case KContractDefinition => ContractDefinition(at, Children(v, "baseContracts"), Children(v, "nodes"))
    case KInheritanceSpecifier => InheritanceSpecifier(at, Child(v, "baseName"))
    case KUsingForDirective => UsingForDirective(at, Child(v, "libraryName"), Child(v, "typeName"))
    case KStructDefinition => StructDefinition(at, Children(v, "members"))
    case KEnumDefinition => EnumDefinition(at, Children(v, "members"))
    case KEnumValue => EnumValue(at)
    case KErrorDefinition => ErrorDefinition(at, Child(v, "parameters"))
    case KEventDefinition => EventDefinition(at, Child(v, "parameters"))
    case KFunctionDefinition =>
      FunctionDefinition(at, Child(v, "parameters"), Child(v, "returnParameters"),
                         Children(v, "modifiers"), Child(v, "overrides"), Child(v, "body"))
    case KModifierDefinition => ModifierDefinition(at, Child(v, "parameters"), Child(v, "body"))
    case KModifierInvocation => ModifierInvocation(at, Child(v, "modifierName"), Children(v, "arguments"))
    case KOverrideSpecifier => OverrideSpecifier(at)
    case KParameterList => ParameterList(at, Children(v, "parameters"))
    case KVariableDeclaration => VariableDeclaration(at, Child(v, "typeName"), Child(v, "value"))
    case KElementaryTypeName => ElementaryTypeName(at)
    case KUserDefinedTypeName => UserDefinedTypeName(at, Child(v, "pathNode"))
    case KIdentifierPath => IdentifierPath(at)
    case KMapping => Mapping(at, Child(v, "keyType"), Child(v, "valueType"))
    case KArrayTypeName => ArrayTypeName(at, Child(v, "baseType"), Child(v, "length"))
    case KBlock => Block(at, Children(v, "statements"))
    case KUncheckedBlock => UncheckedBlock(at, Children(v, "statements"))
    case KExpressionStatement => ExpressionStatement(at, Child(v, "expression"), Nil, Nil)
    case KVariableDeclarationStatement =>
      VariableDeclarationStatement(at, Children(v, "declarations"), Child(v, "initialValue"))
    case KIfStatement => IfStatement(at, Child(v, "condition"), Child(v, "trueBody"), Child(v, "falseBody"))
    case KForStatement =>
      ForStatement(at, Child(v, "initializationExpression"), Child(v, "condition"),
                   Child(v, "loopExpression"), Child(v, "body"))
    case KWhileStatement => WhileStatement(at, Child(v, "condition"), Child(v, "body"))
    case KDoWhileStatement => DoWhileStatement(at, Child(v, "condition"), Child(v, "body"))
    case KTryStatement => TryStatement(at, Child(v, "externalCall"), Children(v, "clauses"))
    case KTryCatchClause => TryCatchClause(at, Child(v, "parameters"), Child(v, "block"))
    case KReturn => Return(at, Child(v, "expression"))
    case KEmitStatement => EmitStatement(at, Child(v, "eventCall"))
    case KRevertStatement => RevertStatement(at, Child(v, "errorCall"))
    case KPlaceholderStatement => PlaceholderStatement(at)
    case KBreak => Break(at)
    case KContinue => Continue(at)
    case KInlineAssembly => InlineAssembly(at, Child(v, "AST"))
    case KAssignment => Assignment(at, Child(v, "leftHandSide"), Child(v, "rightHandSide"))
    case KBinaryOperation => BinaryOperation(at, Child(v, "leftExpression"), Child(v, "rightExpression"))
    case KUnaryOperation => UnaryOperation(at, Child(v, "subExpression"))
    case KConditional =>
      Conditional(at, Child(v, "condition"), Child(v, "trueExpression"), Child(v, "falseExpression"))
    case KFunctionCall =>
      var callee := Child(v, "expression");
      FunctionCall(at, callee, Children(v, "arguments"), RefOf(callee))
    case KFunctionCallOptions => FunctionCallOptions(at, Child(v, "expression"), Children(v, "options"))
    case KMemberAccess => MemberAccess(at, Child(v, "expression"))
    case KIndexAccess => IndexAccess(at, Child(v, "baseExpression"), Child(v, "indexExpression"))
    case KTupleExpression => TupleExpression(at, Children(v, "components"))
    case KNewExpression => NewExpression(at, Child(v, "typeName"))
    case KElementaryTypeNameExpression => ElementaryTypeNameExpression(at, Child(v, "typeName"))
    case KIdentifier => Identifier(at)
    case KLiteral => Literal(at)
    case KYulBlock => YulBlock(at, Children(v, "statements"))
    case KYulAssignment => YulAssignment(at, Children(v, "variableNames"), Child(v, "value"))
    case KYulVariableDeclaration => YulVariableDeclaration(at, Children(v, "variables"), Child(v, "value"))
    case KYulExpressionStatement => YulExpressionStatement(at, Child(v, "expression"))
    case KYulFunctionCall => YulFunctionCall(at, Child(v, "functionName"), Children(v, "arguments"))
    case KYulForLoop => YulForLoop(at, Child(v, "pre"), Child(v, "condition"), Child(v, "post"), Child(v, "body"))
    case KYulSwitch => YulSwitch(at, Child(v, "expression"), Children(v, "cases"))
    case KYulCase => YulCase(at, Child(v, "value"), Child(v, "body"))
    case KYulIf => YulIf(at, Child(v, "condition"), Child(v, "body"))
    case KYulLiteral => YulLiteral(at)
    case KYulTypedName => YulTypedName(at)
    case KYulIdentifier => YulIdentifier(at)
    case KYulBreak => YulBreak(at)
  }


  /** Assembly builds a node of the kind asked for. */
  lemma AssembleIs(k: Kind, at: Attrs, v: map<string, seq<Node>>)
    ensures Is(Assemble(k, at, v), k)
  {
    AssembleOfKind(k, at, v);
  }

  lemma AssembleOfKind(k: Kind, at: Attrs, v: map<string, seq<Node>>)
    ensures OfKind(Assemble(k, at, v), k)
  {
  }

  /** An assembled node of any kind but `YulSwitch` can be registered. */
  lemma AssembleRegistrable(k: Kind, at: Attrs, v: map<string, seq<Node>>)
    ensures k != KYulSwitch ==> Registrable(Assemble(k, at, v))
  {
  }

  // ---------------------------------------------------------------------------
  // Building

  /** What a builder returns, with the registry as it stands afterwards:
      registrations made before an error are not undone. */
  datatype Built<T> = Built(result: Result<T>, gn: GlobalNodes)

  /** The registry only gains ids and stays well indexed. */
  predicate Grows(gn: GlobalNodes, r: GlobalNodes)
  {
    gn.nodes.Keys <= r.nodes.Keys && gn.functions.Keys <= r.functions.Keys &&
    (WellIndexed(gn) ==> WellIndexed(r))
  }

  lemma GrowsTransitive(a: GlobalNodes, b: GlobalNodes, c: GlobalNodes)
    requires Grows(a, b) && Grows(b, c)
    ensures Grows(a, c)
  {
  }

  lemma KindsCons(n: Node, k: Kind, ns: seq<Node>, ks: seq<Kind>)
    requires Is(n, k) && Kinds(ns, ks)
    ensures Kinds([n] + ns, [k] + ks)
  {
    forall i | 0 <= i < |ns| + 1
      ensures Is(([n] + ns)[i], ([k] + ks)[i])
    {
      if i > 0 {
        assert ([n] + ns)[i] == ns[i - 1] && ([k] + ks)[i] == ks[i - 1];
      }
    }
  }

  /** The decoded scalar fields: the cached signature is not a JSON field. */
  function Decoded(at: Attrs): (r: Attrs)
    ensures r.signature == "" && r.id == at.id && r.name == at.name
  {
    at.(signature := "")
  }

  /** The entries a slot's builder reads: the whole list, or the one value
      under the key. */
  function Items(s: SlotSpec, children: seq<Raw>): (r: seq<Raw>)
    ensures forall x :: x in r ==> x in children && x.key == s.key
    ensures !s.many ==> |r| <= 1
  {
    var all := Keyed(children, s.key);
    if s.many || |all| == 0 then all else all[..1]
  }

  /** A non-empty entry whose `nodeType` is one the slot's `switch` builds. */
  predicate Accepted(s: SlotSpec, x: Raw)
  {
    x.Object? && KindOf(x.nodeType).Some? && KindOf(x.nodeType).value in s.accepted
  }

  /** The kinds a slot ends up holding: one per accepted entry, in order,
      plus a number literal for each empty entry of a padded list. */
  function Expected(s: SlotSpec, items: seq<Raw>): (r: seq<Kind>)
    ensures |r| <= |items|
    decreases |items|
  {
    if |items| == 0 then []
    else
      (if Accepted(s, items[0]) then [KindOf(items[0].nodeType).value]
       else if items[0].Empty? && s.padded then [KLiteral]
       else []) + Expected(s, items[1..])
  }

  /** `ns` holds nodes of the kinds `ks`, position by position. */
  predicate Kinds(ns: seq<Node>, ks: seq<Kind>)
  {
    |ns| == |ks| && forall i :: 0 <= i < |ns| ==> Is(ns[i], ks[i])
  }

  /** The stand-in for an empty tuple component. */
  const Padding: Node := Literal(Blank().(kind := "number"))

  /** The value a Yul `case` without one gets: the `default` label. */
  const DefaultLabel: Node := YulLiteral(Blank().(kind := "number", value := "default"))

  /** The built slots by key: every specified key is present and holds
      what was built for one slot of that key. */
  function SlotMap(specs: seq<SlotSpec>, vals: seq<seq<Node>>): (r: map<string, seq<Node>>)
    requires |vals| == |specs|
    ensures forall s :: s in specs ==> s.key in r
    ensures forall key :: key in r ==> exists i :: 0 <= i < |specs| && specs[i].key == key && r[key] == vals[i]
    decreases |specs|
  {
    if |specs| == 0 then map[]
    else
      var r := SlotMap(specs[1..], vals[1..])[specs[0].key := vals[0]];
      assert forall key :: key in r && key != specs[0].key ==>
               exists i :: 1 <= i < |specs| && specs[i].key == key && r[key] == vals[i] by {
        forall key | key in r && key != specs[0].key
          ensures exists i :: 1 <= i < |specs| && specs[i].key == key && r[key] == vals[i]
        {
          var j :| 0 <= j < |specs| - 1 && specs[1..][j].key == key && r[key] == vals[1..][j];
          assert specs[j + 1].key == key && r[key] == vals[j + 1];
        }
      }
      r
  }

  /** Every specified slot is in `v`, and each entry of `v` holds the kinds
      some slot of its key expects from `children`. */
  predicate Filled(specs: seq<SlotSpec>, children: seq<Raw>, v: map<string, seq<Node>>)
  {
    (forall s :: s in specs ==> s.key in v) &&
    forall key :: key in v ==>
      exists i :: 0 <= i < |specs| && specs[i].key == key && Kinds(v[key], Expected(specs[i], Items(specs[i], children)))
  }

  /** Slots built to their expected kinds fill the map made of them. */
  lemma SlotMapFilled(specs: seq<SlotSpec>, children: seq<Raw>, vals: seq<seq<Node>>)
    requires |vals| == |specs|
    requires forall i :: 0 <= i < |vals| ==> Kinds(vals[i], Expected(specs[i], Items(specs[i], children)))
    ensures Filled(specs, children, SlotMap(specs, vals))
  {
    var v := SlotMap(specs, vals);
    forall key | key in v
      ensures exists i :: 0 <= i < |specs| && specs[i].key == key && Kinds(v[key], Expected(specs[i], Items(specs[i], children)))
    {
      var i :| 0 <= i < |specs| && specs[i].key == key && v[key] == vals[i];
    }
  }

  /** No entry of any slot is one its `switch` builds. */
  predicate NoneAccepted(specs: seq<SlotSpec>, children: seq<Raw>)
  {
    forall i, x :: 0 <= i < |specs| && x in Items(specs[i], children) ==> !Accepted(specs[i], x)
  }

  /** No non-empty value under `key`. */
  predicate Absent(raw: Raw, key: string)
    requires raw.Object?
  {
    var all := Keyed(raw.children, key);
    |all| == 0 || all[0].Empty?
  }

  /** A Yul case with a body and no value is the `default` case. */
  function DefaultValue(raw: Raw, v: map<string, seq<Node>>): (r: map<string, seq<Node>>)
    requires raw.Object?
    ensures Child(r, "body") == Child(v, "body")
    ensures Absent(raw, "value") && !Child(v, "body").Nil? ==> Child(r, "value") == DefaultLabel
    ensures !(Absent(raw, "value") && !Child(v, "body").Nil?) ==> r == v
  {
    if Absent(raw, "value") && !Child(v, "body").Nil? then v["value" := [DefaultLabel]] else v
  }

  /** The node of kind `k` made from `raw`'s scalar fields and the slots
      `vals` built for `specs`, in order. */
  function Make(k: Kind, raw: Raw, specs: seq<SlotSpec>, vals: seq<seq<Node>>): (n: Node)
    requires raw.Object? && |vals| == |specs|
    requires forall i :: 0 <= i < |vals| ==> Kinds(vals[i], Expected(specs[i], Items(specs[i], raw.children)))
    ensures Is(n, k) && (k != KYulSwitch ==> Registrable(n))
    ensures exists v :: Filled(specs, raw.children, v) &&
              n == Assemble(k, Decoded(raw.at), if k == KYulCase then DefaultValue(raw, v) else v)
  {
    var v := SlotMap(specs, vals);
    SlotMapFilled(specs, raw.children, vals);
    var v' := if k == KYulCase then DefaultValue(raw, v) else v;
    AssembleIs(k, Decoded(raw.at), v');
    AssembleRegistrable(k, Decoded(raw.at), v');
    Assemble(k, Decoded(raw.at), v')
  }

  /** `GetX(gn, raw)` for the kind `k`: decode the scalar fields, build each
      slot in turn (the first child error aborts), assemble the node and,
      if the kind registers, add it to the registry after its children. */
  function BuildAs(d: Dialect, k: Kind, raw: Raw, gn: GlobalNodes): (r: Built<Node>)
    requires raw.Object?
    ensures Grows(gn, r.gn)
    ensures !raw.decodes ==> r.result.Err? && r.gn == gn
    ensures r.result.Ok? ==> Is(r.result.value, k)
    ensures r.result.Ok? && Registers(d, k) ==>
              Registrable(r.result.value) && NodeID(r.result.value) in r.gn.nodes &&
              r.gn.nodes[NodeID(r.result.value)] == r.result.value
    decreases raw, 2
  {
    if !raw.decodes then Built(Err("failed to unmarshal " + Name(k)), gn)
    else
      var built := BuildSlots(d, raw, Slots(d, k), gn);
      if built.result.Err? then Built(Err(built.result.msg), built.gn)
      else
        var n := Make(k, raw, Slots(d, k), built.result.value);
        if Registers(d, k) then Built(Ok(n), AddASTNode(built.gn, n))
        else Built(Ok(n), built.gn)
  }

  /** What a successful build is: the node assembled from slots filled by
      the kind's slot policy (with a YulCase's default label); and a build
      can only fail through a child when some entry is accepted. */
  lemma BuildShape(d: Dialect, k: Kind, raw: Raw, gn: GlobalNodes)
    requires raw.Object?
    ensures var r := BuildAs(d, k, raw, gn);
            r.result.Ok? ==>
              exists v :: Filled(Slots(d, k), raw.children, v) &&
                r.result.value == Assemble(k, Decoded(raw.at), if k == KYulCase then DefaultValue(raw, v) else v)
    ensures raw.decodes && NoneAccepted(Slots(d, k), raw.children) ==> BuildAs(d, k, raw, gn).result.Ok?
  {
  }

  /** Build the slots of `specs` from `parent`'s children, in order. */
  function BuildSlots(d: Dialect, parent: Raw, specs: seq<SlotSpec>, gn: GlobalNodes): (r: Built<seq<seq<Node>>>)
    requires parent.Object?
    ensures Grows(gn, r.gn)
    ensures r.result.Ok? ==>
              |r.result.value| == |specs| &&
              forall i :: 0 <= i < |specs| ==> Kinds(r.result.value[i], Expected(specs[i], Items(specs[i], parent.children)))
    ensures NoneAccepted(specs, parent.children) ==> r.result.Ok? && r.gn == gn
    decreases parent, 1, |specs|
  {
    if |specs| == 0 then Built(Ok([]), gn)
    else
      var first := BuildItems(d, parent, specs[0], Items(specs[0], parent.children), gn);
      if first.result.Err? then Built(Err(first.result.msg), first.gn)
      else
        var rest := BuildSlots(d, parent, specs[1..], first.gn);
        if rest.result.Err? then Built(Err(rest.result.msg), rest.gn)
        else Built(Ok([first.result.value] + rest.result.value), rest.gn)
  }

  /** Build one slot's entries in order: an accepted entry is built by its
      own kind's builder, an empty entry of a padded list becomes `Padding`,
      and anything else is left out. */
  function BuildItems(d: Dialect, parent: Raw, s: SlotSpec, items: seq<Raw>, gn: GlobalNodes): (r: Built<seq<Node>>)
    requires parent.Object? && forall x :: x in items ==> x in parent.children
    ensures Grows(gn, r.gn)
    ensures r.result.Ok? ==> Kinds(r.result.value, Expected(s, items))
    ensures (forall x :: x in items ==> !Accepted(s, x)) ==> r.result.Ok? && r.gn == gn
    decreases parent, 0, |items|, 1
  {
    if |items| == 0 then Built(Ok([]), gn)
    else if Accepted(s, items[0]) then BuildAccepted(d, parent, s, items, gn)
    else
      assert forall y :: y in items[1..] ==> y in items;
      var rest := BuildItems(d, parent, s, items[1..], gn);
      if rest.result.Err? || !(items[0].Empty? && s.padded) then rest
      else
        KindsCons(Padding, KLiteral, rest.result.value, Expected(s, items[1..]));
        Built(Ok([Padding] + rest.result.value), rest.gn)
  }

  /** The first entry is accepted: build it, then the rest. */
  function BuildAccepted(d: Dialect, parent: Raw, s: SlotSpec, items: seq<Raw>, gn: GlobalNodes): (r: Built<seq<Node>>)
    requires parent.Object? && forall x :: x in items ==> x in parent.children
    requires |items| > 0 && Accepted(s, items[0])
    ensures Grows(gn, r.gn)
    ensures r.result.Ok? ==> Kinds(r.result.value, Expected(s, items))
    decreases parent, 0, |items|, 0
  {
    var x := items[0];
    assert x in items && forall y :: y in items[1..] ==> y in items;
    var one := BuildAs(d, KindOf(x.nodeType).value, x, gn);
    if one.result.Err? then Built(Err(one.result.msg), one.gn)
    else
      var rest := BuildItems(d, parent, s, items[1..], one.gn);
      GrowsTransitive(gn, one.gn, rest.gn);
      if rest.result.Err? then Built(Err(rest.result.msg), rest.gn)
      else
        KindsCons(one.result.value, KindOf(x.nodeType).value, rest.result.value, Expected(s, items[1..]));
        Built(Ok([one.result.value] + rest.result.value), rest.gn)
  }
}

# TaintGuard core in Dafny

TaintGuard reads the JSON syntax tree the Solidity compiler emits, rebuilds it
as a typed tree, looks for `delegatecall` uses that may overwrite a contract's
owner, instruments the contract with shadow state that records which function
last wrote the owner, and prints the instrumented contract as Solidity again.
This project models that core as pure functions over one inductive syntax tree
and proves what each step promises.

| file | module | what it models |
|---|---|---|
| `wrappers.dfy` | `Wrappers` | `Option`/`Result`: a Go `(value, error)` pair or a panic becomes `Err` |
| `text.dfy` | `Str` | the Go `strings` functions the tool calls (`Contains`, `ToUpper`, `Trim*`, `Split`, `Join`) |
| `ast.dfy` | `Ast` | the `ASTNode` interface as one `Node` datatype, `Type()`, `NodeID()` |
| `registry.dfy` | `Registry` | `GlobalNodes`: the id → node map and its function and contract indexes |
| `callpath.dfy` | `CallPath` | the `NormalCallPath` tree (`SetCaller`, `SetCallee`, `Lookup`, `Path`) and the one-slot mailboxes of `Option` |
| `builder.dfy`, `builder_facts.dfy` | `Builder`, `BuilderFacts` | every `GetX` builder: its slot policy, child errors, and registration |
| `render.dfy`, `render_facts.dfy` | `Render`, `RenderFacts` | `SourceCode(isSc, isIndent, indent)` of every node kind in the two rule families |
| `shadow_facts.dfy` | `ShadowFacts` | the once-only printing of shadow statements through `instrumentedTrack` |
| `traverse.dfy` | `Traverse` | `TraverseFunctionCall`: the call-path pass |
| `delegate.dfy` | `Delegate` | `TraverseDelegatecall`: which nodes the delegatecall pass reaches |
| `taint.dfy`, `taint_facts.dfy` | `Taint`, `TaintFacts` | `TraverseTaintOwner`: owner-write detection and shadow-statement attachment |
| `inst05.dfy` | `Inst05` | `src/v0.5/inst.go`: the owner and assertion instrumentation and the storage-layout check |
| `inst08.dfy` | `Inst08` | `src/v0.8/inst.go`: the 0.8 owner instrumentation |
| `run.dfy` | `Runner` | `src/v0.4/run.go`: build, per-function dispatch of findings, and the closure pass |

Conventions of the model:

- **Node kinds and rule families.** Each Go node kind is a constructor of `Ast.Node`, and the Go nil interface is `Nil`.
  - The files for compiler versions 0.4, 0.5 and 0.6 form the `Legacy` rule family, and the 0.8 files form `V08`.
  - No kind has files in two of the legacy versions.
  - A kind whose file exists in one family only uses that file's rule in both.
- **State is passed explicitly.** The registry, the call-path tree and the `Option` accumulator of the passes are all passed as values. So is the package-global set `instrumentedTrack` of shadow texts already printed: `Render.SourceCode` takes it in and returns it with the text.
- **Go panics and non-termination become results.** A Go type assertion that would panic on a missing registry entry is an `Err` result. Recursion that the Go code never stops is bounded by a `fuel` parameter, and running out of fuel is an error.
  - Two lemmas prove that the real inputs that cause endless recursion exhaust any fuel: `Inst05.MutualBasesDiverge` and `Runner.SelfCallDiverges`.
- **Input to the builders is decoded JSON.** A builder's input is a `Builder.Raw` record: a node type tag, a flag saying whether the object's scalar fields unmarshal, the decoded scalar fields, and the child values, each tagged with its key.

## Model

| member | source | states |
|---|---|---|
| Registry.NewGlobalNodes | src/v0.5/ast/0.go:135-142 | the fresh registry holds no node, no function and no contract under any id or name, and is well indexed |
| Registry.AddASTNode | src/v0.5/ast/0.go:144-156 | the node is stored under its `NodeID()`, replacing any earlier node with that id, and no other id changes. Only a function definition enters the function index; only a contract definition enters the by-id and by-name contract indexes; well-indexing is preserved |
| Registry.LastRegistrationWins | src/v0.5/ast/0.go:144-146 | after registering a sequence, an id maps to the last node in the sequence that carries it |
| Registry.UntouchedIDsKept | src/v0.5/ast/0.go:144-146 | an id that no registered node carries keeps its earlier entry, or stays absent |
| Registry.AddAllSnoc | src/v0.5/ast/0.go:144-156 | registering `ns + [n]` is registering `ns` and then `n` |
| CallPath.NewNormalCallPath | src/v0.5/ast/0.go:181-184 | a fresh path is one node with an empty name and no callees |
| CallPath.SetCaller | src/v0.5/ast/0.go:186-189 | only the name and id change: the callees are kept, the pre-order names change in the first position only, and looking up the new id finds the node itself |
| CallPath.SetCallee | src/v0.5/ast/0.go:191-196 | exactly one leaf is appended after the existing callees, in order; the name and id are unchanged and the tree grows by one node |
| CallPath.LookupFindsContained | src/v0.5/ast/0.go:214-228 | `Lookup` finds a node iff the tree holds that id, and the node it finds carries that id |
| CallPath.LookupPrefersLastCallee | src/v0.5/ast/0.go:214-228 | when the root does not match, a match in the last callee subtree wins over matches in earlier ones |
| CallPath.PathIsPreOrder | src/v0.5/ast/0.go:230-239 | `Path` appends "name, " for every node of the tree, in pre-order, to the string it is given |
| CallPath.MakeMailbox | src/v0.5/ast/0.go:33-47 | a new channel is empty and has exactly the requested capacity |
| CallPath.TrySend | src/v0.4/run.go:25-27 | a non-blocking send succeeds iff a slot is free, and then appends the item without changing the capacity |
| CallPath.TryRecv | src/v0.4/run.go:31-59 | a receive in a `select` with `default` yields the oldest item iff one is queued, and never blocks |
| CallPath.SendThenRecv | src/v0.5/ast/0.go:14-47 | what is sent into a fresh mailbox is what is received, and the mailbox is empty afterwards |
| Runner.Deliver | src/v0.4/run.go:22-30 | each function gets two fresh mailboxes of capacity 1, holding exactly what its traversal sent |
| Runner.Select | src/v0.4/run.go:31-59 | no finding iff both mailboxes are empty; otherwise exactly one finding, taken from a mailbox that holds it; when only one mailbox is ready, that mailbox's finding |
| Runner.Protect | src/v0.4/run.go:32-41 | in the unknown-target case the owner instrumentation goes into the Ownable base if the contract inherits its owner, otherwise into the contract itself; the assertion always goes to the function's own contract; a missing base makes the step fail |
| Runner.ActKnown | src/v0.4/run.go:42-56 | in the known-target case a callee name that is not registered is an error. Otherwise the contract is instrumented iff the two layouts share an owner slot, and nothing changes when they do not |
| Runner.Act | src/v0.4/run.go:31-59 | acting on a finding adds at most one assertion and never changes the function index; a function whose contract is not registered is an error |
| Runner.FunctionTurn | src/v0.4/run.go:20-59 | each function is traced from a fresh call path; with nothing sent, the world is left exactly as it was |
| Runner.Functions | src/v0.4/run.go:20-60 | the loop adds at most one assertion per function, keeps the function index, and yields the traced paths of the registered functions in loop order |
| Runner.TracedDependsOnFunctions | src/v0.4/run.go:20-30 | tracing reads only the function index, so instrumenting contracts does not change the paths later functions get |
| Runner.QuietFunctionsChangeNothing | src/v0.4/run.go:31-59 | when no function reports a finding, the loop succeeds and leaves the registry and the assertions unchanged |
| Runner.Retrace | src/v0.4/run.go:75-86 | the path's existing callees stay in front, untouched; when its head names a registered function it takes that function's signature and id, and the callees added behind are exactly the function's resolved calls; any other path is unchanged |
| Runner.CloseOne | src/v0.4/run.go:77-85 | one path is closed into a path with the retraced path's name, id and number of callees; a retraced path without callees is the result as it is, and one with callees but no fuel left fails |
| Runner.CloseAll | src/v0.4/run.go:75-86 | the closure keeps one path per input path, each with the name, id and callee count of that path retraced, every callee being closed recursively |
| Runner.CloseAllEach | src/v0.4/run.go:75-86 | the closure of a list succeeds exactly when every path's own closure does, and then holds those closures in order |
| Runner.CloseAllAppend | src/v0.4/run.go:75-86 | closing two lists joined is closing each and joining the results, or the first failure |
| Runner.CloseAllDependsOnFunctions | src/v0.4/run.go:75-86 | the closure reads only the function index of the registry |
| Runner.CloseCallees | src/v0.4/run.go:63-65 | each top-level path keeps its name and id, and its callee list is replaced by that list's closure; the step fails exactly when some path's callees fail to close |
| Runner.SelfCallDiverges | src/v0.4/run.go:75-86 | a function that calls itself makes the closure pass fail for every amount of fuel: the pass keeps no visited set |
| Runner.Refresh | src/v0.4/run.go:12-73 | the returned unit has the same length as the input, and each top-level contract is replaced by the registry's current version of it |
| Runner.Whole | src/v0.4/run.go:13-15 | an empty file decodes as an object with no children; an object is taken as it is |
| Runner.Parse | src/v0.6/ast/SourceUnit.go:60-104 | a successful parse is a source unit over a well-indexed registry; an object whose fields do not unmarshal fails |
| Runner.ParseRegistersContractFunction | src/v0.6/ast/SourceUnit.go:78-83 | a file holding one contract with one function parses to that unit; the function is in the function index, the contract is in both contract indexes, and tracing the function's id gives the function's own traced path |
| Runner.Run | src/v0.4/run.go:12-18 | a build error is returned before any analysis. Otherwise the result is a source unit with at most one path and one assertion per function; without the closure pass, the paths are exactly the traced ones; with it, each traced path keeps its name, id and number of callees, and its callees are replaced by their closure |
| Runner.Analyse | src/v0.4/run.go:20-73 | analysis keeps the number of top-level units; without the closure pass its paths are exactly the traced ones; with it, there is one path per traced path, with the same name, id and number of callees, whose callees are the closure of the traced path's callees |
| Traverse.Calls | src/v0.8/ast/Block.go:149-180 | every reported call lies inside the node, is a function call, and has a reference other than -1 |
| Traverse.ExprCalls | src/v0.6/ast/BinaryOperation.go:206-238 | the calls found below an expression lie inside it and carry a reference |
| Traverse.StmtCalls | src/v0.8/ast/ForStatement.go:229-257 | the calls found below a statement lie inside it and carry a reference |
| Traverse.Components | src/v0.8/ast/TupleExpression.go:154-163 | the calls found in tuple components lie inside one of the components |
| Traverse.Clauses | src/v0.8/ast/TryStatement.go:145-161 | the calls found in try clauses lie inside one of the clauses |
| Traverse.AddCallee | src/v0.8/ast/FunctionCall.go:248-256 | a callee named by the target's signature is added iff the reference resolves to a registered function definition; otherwise the path is unchanged |
| Traverse.Resolved | src/v0.8/ast/FunctionCall.go:248-256 | there is at most one callee per call, and every callee names a registered function definition by its signature |
| Traverse.AddCalleesAppendsResolved | src/v0.8/ast/FunctionCall.go:248-256 | visiting the calls one by one keeps the name, id and earlier callees and appends exactly the resolved callees, in call order |
| Traverse.TraverseFunctionCall | src/v0.6/ast/FunctionDefinition.go:446-456 | the node is named after the function's signature and id, and its body's resolved calls are appended after the existing callees |
| Traverse.V08IfIgnoresElse | src/v0.8/ast/IfStatement.go:149-169 | the 0.8 pass never visits an `if`'s else slot |
| Traverse.LegacyIfSkipsNestedTrueIf | src/v0.5/ast/IfStatement.go:249-289 | the legacy pass skips a nested `if` in the true branch |
| Traverse.CallArgumentsNotVisited | src/v0.8/ast/FunctionCall.go:248-256 | the pass never visits a call's arguments, and a call is reported iff its reference is not -1 |
| Delegate.Frontier | src/v0.5/ast/IfStatement.go:319-345 | every node the pass hands on lies inside the start node and is of a kind whose rule is not modelled here |
| Delegate.BinaryReachesCallsOnly | src/v0.6/ast/BinaryOperation.go:240-262 | inside a binary operation the pass reaches only function calls and member accesses |
| Delegate.AssignmentReachesCallsOnly | src/v0.5/ast/Assignment.go:270-294 | inside an assignment the pass reaches only function calls and member accesses |
| Delegate.CallStatementNotInspected | src/v0.5/ast/ExpressionStatement.go:185-192 | an expression statement that is not an assignment hands nothing on |
| Taint.TrackAssignment | src/v0.5/ast/Assignment.go:224-247 | the recorded write is `mapping["<function>"] = v`, and it reuses the same right-hand node |
| Taint.OwnerWrite | src/v0.5/ast/Assignment.go:217-268 | the state is tainted afterwards exactly when it was tainted before or the left side is an identifier with the owner's name, so taint is never reset; only the taint flag and the recorded assignment can change, and an owner write records the mapping assignment of its right side |
| Taint.TrackMappingStatement | src/v0.5/ast/ExpressionStatement.go:148-153 | the mapping shadow is a plain statement wrapping the recorded assignment |
| Taint.TrackVariableStatement | src/v0.5/ast/ExpressionStatement.go:154-177 | the variable shadow is the plain statement `variable = "<function>"` |
| Taint.TaintStatement | src/v0.5/ast/ExpressionStatement.go:143-183 | only an assignment is inspected. If the state is tainted afterwards, both shadow slots are set from it; a statement that is not an assignment is left as it is |
| Taint.TaintNode | src/v0.6/ast/FunctionDefinition.go:458-466 | the pass changes only shadow slots and never clears taint. A function definition makes its signature the current function name |
| Taint.TaintBlock | src/v0.8/ast/Block.go:182-205 | a block keeps everything but shadow slots, and keeps the current function name |
| Taint.TaintIf | src/v0.5/ast/IfStatement.go:291-317 | the pass on an `if` changes nothing but shadow slots, keeps the condition, the owner names and the current function name, and never clears taint |
| Taint.TaintTry | src/v0.8/ast/TryStatement.go:163-172 | a `try` keeps everything but shadow slots, and keeps the current function name |
| Taint.TaintBody | src/v0.8/ast/WhileStatement.go:164-171 | loop and clause bodies keep the function name; a function definition sets it to its signature |
| Taint.TaintMembers | src/v0.5/inst.go:445-450 | members keep their number and order; only function bodies change; nothing changes while untainted; the owner names are kept |
| Taint.TaintContract | src/v0.5/inst.go:445-450 | the contract keeps its attributes, bases and member count; every member is kept except function bodies; an untainted pass returns the contract unchanged |
| TaintFacts.TaintIfFalseFirst | src/v0.5/ast/IfStatement.go:291-317 | with an owner write in both branches, the else branch's shadow records the else value and the state after the `if` records the true value, so the else branch is visited first |
| TaintFacts.TaintSkipsCondition | src/v0.5/ast/IfStatement.go:291-317 | the condition of an `if` is never looked at: replacing it changes the result in that slot only |
| TaintFacts.LaterAssignmentsShadowed | src/v0.5/ast/Assignment.go:217-268 | once tainted, every later assignment statement gets both shadows, built from the most recently recorded write |
| TaintFacts.TrackVariableText | src/v0.5/ast/ExpressionStatement.go:154-177 | the variable shadow prints as `xxx_track_V = "<function>"` |
| TaintFacts.TrackMappingText | src/v0.5/ast/Assignment.go:224-247 | the mapping shadow prints as `xxx_track_mapping_V["<function>"] = v` for every value kind the 0.5 assignment rule prints |
| TaintFacts.LegacyAssignmentText | src/v0.5/ast/Assignment.go:28-91 | an assignment prints as left, " " + operator, " " + right, each side only when the rule knows its kind |
| ShadowFacts.ShadowOnce | src/v0.5/ast/ExpressionStatement.go:46-54 | a shadow statement is printed on a new line iff its text is not yet in the set, and its text is in the set afterwards |
| ShadowFacts.ShadowIdempotent | src/v0.5/ast/ExpressionStatement.go:46-68 | printing the same shadow twice prints the same text and leaves the same set as printing it once |
| ShadowFacts.ShadowedStatement | src/v0.5/ast/ExpressionStatement.go:15-71 | the full 0.5 rule, stated as written. The ";" follows the expression only while the mapping shadow is unprinted. Each unprinted shadow then follows on its own line: the variable shadow with ";", the mapping shadow closed by the statement's own ";". Both texts end up in the set |
| ShadowFacts.SecondRenderBare | src/v0.5/ast/ExpressionStatement.go:41-64 | printing a statement again against the set its first printing left produces no shadow text and no extra ";", and leaves the set unchanged |
| ShadowFacts.V08IgnoresShadows | src/v0.8/ast/ExpressionStatement.go:18-50 | the 0.8 rule prints a statement exactly as the same statement without shadows, and leaves the set alone |
| ShadowFacts.PlainStatement | src/v0.5/ast/ExpressionStatement.go:15-71 | a statement without shadows prints as its indent and expression and the optional ";", and leaves the set alone |
| Render.SourceCode | src/v0.5/ast/ExpressionStatement.go:46-68 | the set of printed shadow texts only grows |
| Render.MakeSignature | src/v0.6/ast/FunctionDefinition.go:412-440 | a signature is the contract name followed by ".NAME" for a function, ".constructor" for a constructor, ".receive" for a receive function and nothing for any other kind, then the parameter list in parentheses |
| RenderFacts.SignatureKeepsName | src/v0.6/ast/FunctionDefinition.go:412-440 | two functions of one contract whose names hold no "(" get equal signatures only when their names are equal |
| RenderFacts.TextSemicolonLaw | src/v0.8/ast/Identifier.go:24-34 | for a kind that cannot hold a statement, `isSc` appends exactly ";" when the kind ends with one and changes nothing otherwise |
| RenderFacts.SemicolonLaw | src/v0.8/ast/Block.go:18-66 | the same law for every kind; the set evolves identically with `isSc` on and off |
| RenderFacts.IndentLaw | src/v0.4/ast/ElementaryTypeName.go:23-39 | for the framed kinds, `isIndent` prepends exactly the indent |
| RenderFacts.MappingIndentAfterKeyword | src/v0.4/ast/Mapping.go:23-72 | a mapping writes the indent after the keyword "mapping" instead of before it |
| RenderFacts.NumberLiteralIgnoresIndent | src/v0.8/ast/Literal.go:30-66 | a number or bool literal prints as its value, a space and any subdenomination, then ";" iff `isSc`; the indent is discarded |
| RenderFacts.PayableConversion | src/v0.8/ast/FunctionCall.go:33-130 | an `address payable(x)` conversion prints as `payable(x)` |
| RenderFacts.IndentedCallNotRewritten | src/v0.8/ast/FunctionCall.go:125-127 | an indented call keeps its indent in front, because the rewrite only matches at position 0 |
| RenderFacts.PragmaShape | src/v0.8/ast/PragmaDirective.go:20-33 | a pragma always starts "pragma" and ends ";", whatever the flags |
| RenderFacts.PragmaPieceGlue | src/v0.8/ast/PragmaDirective.go:21-29 | a literal has its quotes trimmed and is glued on without a space iff it contains "." |
| RenderFacts.EmptyForHeader | src/v0.8/ast/ForStatement.go:21-101 | a `for` with no header parts and no body prints "for;;) {", an empty line and the closing brace |
| RenderFacts.V08HeaderShape | src/v0.8/ast/FunctionDefinition.go:32-98 | a 0.8 header starts "function NAME(" whatever the kind, and ends with " retruns (…)" when the return list is non-empty |
| RenderFacts.V08BracesWithoutBody | src/v0.8/ast/FunctionDefinition.go:100-127 | a 0.8 function without a body still prints its braces |
| RenderFacts.ErrorLeftUnclosed | src/v0.8/ast/ErrorDefinition.go:21-47 | an error definition never closes its parameter list: after the keyword, the event definition with the same name and parameters prints the error's text followed by ")" |
| RenderFacts.V08AssignmentIgnoresOperator | src/v0.8/ast/Assignment.go:28-72 | a 0.8 assignment prints " =" for every operator, so assignments that differ only in the operator print alike |
| RenderFacts.LegacyAssignmentShowsOperator | src/v0.5/ast/Assignment.go:28-90 | two legacy assignments with the same sides print the same text exactly when their operators are equal |
| RenderFacts.YulDefaultCaseHead | src/v0.6/ast/YulCase.go:18-60 | a Yul case whose value is the literal "default" opens with "default {" instead of "case … {" |
| RenderFacts.LicenseHeader | src/v0.8/ast/SourceUnit.go:21-39 | a 0.8 source unit starts with the SPDX licence line, where an empty licence reads as GPL-3.0; the legacy source unit ignores the licence |
| Builder.KindOf | src/v0.5/ast/Assignment.go:105-183 | a `nodeType` tag maps to the kind of that name, or to none iff no kind has that name |
| Builder.TagKinds | src/v0.6/ast/SourceUnit.go:70-83 | the tags "FunctionDefinition" and "ContractDefinition" map to exactly their own kinds |
| Builder.Make | src/v0.5/ast/Assignment.go:105-183 | the node is of the kind asked for, is registrable unless it is a `YulSwitch`, and is assembled from slots that hold the kinds their entries expect |
| Builder.BuildAs | src/v0.6/ast/FunctionDefinition.go:264-408 | the registry only gains ids; fields that fail to unmarshal fail the build without registering; a successful node has its kind and, when the kind registers, is registered under its id after its children |
| Builder.BuildShape | src/v0.5/ast/Assignment.go:105-183 | a successful build is the node assembled from the kind's slot policy. A build with no accepted child entries cannot fail, so unknown kinds only leave slots empty |
| Builder.BuildSlots | src/v0.6/ast/FunctionDefinition.go:264-408 | slots are built in order; each holds the kinds its entries expect; with no accepted entry the build succeeds and registers nothing |
| Builder.BuildItems | src/v0.8/ast/Block.go:80-145 | a list keeps its accepted entries in order, drops unknown kinds, pads empty tuple entries, and succeeds untouched when nothing is accepted |
| BuilderFacts.SingleSlot | src/v0.5/ast/Assignment.go:105-183 | a one-entry slot holds the node built from the entry iff its kind is accepted, and nothing otherwise |
| BuilderFacts.YulCaseDefault | src/v0.6/ast/YulCase.go:82-135 | a case built with a body but no value is the `default` case; a value entry gives a Yul literal iff it is one; with neither, the value is empty |
| BuilderFacts.CallReference | src/v0.8/ast/FunctionCall.go:146-168 | a built call refers to what an identifier or member-access callee references, and to -1 otherwise |
| BuilderFacts.PaddedKeepsAll | src/v0.8/ast/TupleExpression.go:126-134 | a padded list loses no empty or accepted entry, and each empty entry becomes a number literal |
| BuilderFacts.TupleComponents | src/v0.8/ast/TupleExpression.go:126-134 | a tuple keeps one component per entry, with a blank number literal in each empty position |
| BuilderFacts.AsIgnoresRegistry | src/v0.6/ast/SourceUnit.go:60-104 | what a builder returns does not depend on the registry it starts from |
| BuilderFacts.EntryErrorAborts | src/v0.8/ast/Block.go:80-145 | an accepted entry whose build fails makes its whole list fail, whatever the registry |
| BuilderFacts.SlotErrorAborts | src/v0.6/ast/FunctionDefinition.go:264-408 | a failing slot fails the list of slots |
| BuilderFacts.BareFunctionBuilds | src/v0.6/ast/FunctionDefinition.go:264-408 | a legacy function entry with no children builds to the bare function definition, and the registry gains exactly that function |
| BuilderFacts.RegisteringBuild | src/v0.6/ast/FunctionDefinition.go:403-407 | a registering kind whose slots build is added to the registry after everything its slots added |
| BuilderFacts.LegacyContractRegistered | src/v0.5/ast/0.go:144-156 | a built legacy contract is in the id index and the name index under its own id and name, and its members are of the member kinds the contract entry accepts |
| BuilderFacts.ContractWithFunction | src/v0.5/ast/0.go:144-156 | a legacy contract entry holding one function entry builds to the contract with that function as its only member; the function is registered first, then the contract |
| BuilderFacts.UnitWithContract | src/v0.6/ast/SourceUnit.go:78-83 | a source unit holding that contract builds to the unit over it, registering the function, the contract and the unit in that order |
| BuilderFacts.ChildErrorAborts | src/v0.6/ast/SourceUnit.go:73-95 | an accepted child whose build fails makes the parent's build fail, with no partial node |
| Inst05.IsInheritFromOwnableContract | src/v0.5/inst.go:11-46 | a contract declaring a candidate itself yields no base, and the bases are not inspected. Otherwise the result is the first base, skipping the contract's own id, that is named "Ownable" or declares a candidate; a missing base is an error |
| Inst05.ScanBases | src/v0.5/inst.go:24-43 | no base iff every id is passed over; a found base is the first that is not passed over; an error names an unregistered id that comes before any owner base |
| Inst05.FirstContained | src/v0.5/inst.go:62-72 | the first candidate, in candidate order, contained in the name ignoring case: no earlier candidate is contained; none iff no candidate is contained |
| Inst05.LastBytesSlot | src/v0.5/inst.go:58-76 | the candidate named by the last bytes32 member that contains one; later matches overwrite earlier ones |
| Inst05.IsOwnableOnlyHasBytesPosition | src/v0.5/inst.go:48-79 | no answer if any candidate is stored as an address. Otherwise the answer is exactly the last-bytes32-slot scan: a candidate iff some bytes32 variable's upper-cased name contains its upper-cased form, and then the first candidate contained in the last such variable, with no later bytes32 variable containing any |
| Inst05.LookupGetRepresentOwnerName | src/v0.5/inst.go:107-134 | the name of the first getter-shaped function (name holds the owner name and GET, no parameters, one address return), with no getter-shaped or panicking function before it; an error iff a function whose name matches but whose parameter list, return list or return value is nil comes first (the Go code panics there); none iff no function is either |
| Inst05.AlreadyDeclared | src/v0.5/inst.go:432-440 | the duplicate test holds iff some member declaration prints exactly as the given text |
| Inst05.ShadowVarPrints | src/v0.5/inst.go:385-430 | the shadow variable prints as `bytes xxx_track_V` |
| Inst05.ShadowMappingPrints | src/v0.5/inst.go:385-430 | the shadow mapping prints as `mapping (bytes => address) xxx_track_mapping_V` |
| Inst05.AppendStatement | src/v0.5/inst.go:257-258 | a statement is appended at the end of a function's body block; all else is kept, and a function without a block is unchanged |
| Inst05.InsertTrackCodeInFunction | src/v0.5/inst.go:196-259 | the setter's body gains exactly two statements, `xxx_track_R = "<sig>"` then `xxx_track_mapping_R["<sig>"] = param`; all else is kept |
| Inst05.InsertRepresentOwnerNameInContract | src/v0.5/inst.go:261-321 | afterwards the shadow pair of `rep` is declared. When neither declaration was printed before, exactly that pair is appended; otherwise nothing changes |
| Inst05.RepresentDuplicate | src/v0.5/inst.go:305-317 | the duplicate test holds iff a member prints like either shadow declaration |
| Inst05.InsertRepresentIdempotent | src/v0.5/inst.go:261-321 | declaring the pair twice is declaring it once |
| Inst05.LookupSetRepresentOwnerName | src/v0.5/inst.go:81-105 | an error iff a function whose name matches but whose parameter list or single parameter is nil comes before every setter-shaped function (the Go code panics there). Otherwise true iff a setter-shaped function exists (name holds the owner and SET or TRANSFER, one address parameter); then the first one, with nothing shaped or panicking before it, gets the two recording statements and the contract the shadow pair; when false the contract is unchanged |
| Inst05.FirstSetter | src/v0.5/inst.go:83-102 | the scan stops at the first member that is setter-shaped or would panic: an error for the second, its index for the first, none when neither occurs |
| Inst05.TrackSetter | src/v0.5/inst.go:93-98 | the old members are kept except the setter, which gains the recording statements; the shadow pair is declared afterwards, and attributes and bases are kept |
| Inst05.OwnerStep | src/v0.5/inst.go:323-455 | a member that is not a candidate changes nothing; otherwise the contract only grows, with its attributes and bases kept |
| Inst05.OwnerStepInstruments | src/v0.5/inst.go:339-450 | after a candidate's step its getter is there and a member prints like its shadow variable |
| Inst05.OwnerLoopInstruments | src/v0.5/inst.go:323-455 | every candidate the loop passes keeps its getter and shadow variable to the end |
| Inst05.OwnerLoopWithoutCandidates | src/v0.5/inst.go:323-455 | with no candidate the loop changes nothing |
| Inst05.InstrumentCodeForOwner | src/v0.5/inst.go:323-455 | old members change only inside function bodies, and new members are appended. The reported owner is the last candidate, or "" when there is none |
| Inst05.InstrumentedOwnersHaveShadows | src/v0.5/inst.go:323-455 | every candidate ends up with its getter and with a member printing like its shadow variable |
| Inst05.NoCandidateNoChange | src/v0.5/inst.go:323-455 | a contract without candidates is returned unchanged, with owner "" |
| Inst05.AssertText | src/v0.5/inst.go:136-194 | the inserted check prints as `assert(MAPPING[INDEX] == GETTER())` at the current indent |
| Inst05.OwnStateVars | src/v0.5/inst.go:544-559 | the contract's own state variables: every entry is taken from a state-variable declaration; none when there is no such declaration |
| Inst05.OwnStateVarsComplete | src/v0.5/inst.go:552-558 | every state-variable declaration among the members gives an entry of the layout |
| Inst05.OwnStateVarsAppend | src/v0.5/inst.go:553-557 | the layout of two member lists placed one after the other is the first layout followed by the second |
| Inst05.OwnStateVarsOne | src/v0.5/inst.go:553-557 | one member contributes its name and type exactly when it is a state-variable declaration |
| Inst05.StateVars | src/v0.5/inst.go:544-559 | the layout ends with the contract's own state variables. A contract listing only itself contributes only its own; zero fuel is reported |
| Inst05.StateVarsLayout | src/v0.5/inst.go:544-559 | with fuel left, the layout is exactly the bases' layout followed by the contract's own state variables, and it fails iff the bases' layout fails |
| Inst05.BaseVars | src/v0.5/inst.go:544-559 | an unregistered base id is an error; a list naming only the contract itself contributes nothing |
| Inst05.BaseVarsAppend | src/v0.5/inst.go:545-550 | the bases' layout is the in-order concatenation: for two id lists one after the other, the first error if either fails, otherwise the first layout followed by the second |
| Inst05.BaseVarsOne | src/v0.5/inst.go:545-550 | one id contributes nothing when it is the contract itself, is an error when it is not registered, and is otherwise that base's own full layout |
| Inst05.MutualBasesDiverge | src/v0.5/inst.go:544-559 | two contracts listing each other as bases exhaust any fuel: the Go recursion never ends |
| Inst05.SameOwnerSlot | src/v0.5/inst.go:532-539 | the loop answers true iff at some index below both lengths the callee's variable has a candidate name and the same type as the caller's |
| Inst05.VerifyVariableDeclarationOrder | src/v0.5/inst.go:517-542 | fails iff either layout cannot be collected; otherwise true iff the two layouts share an owner slot |
| Inst08.IsInheritFromOwnableContract | src/v0.8/inst.go:10-21 | the first base in linearisation order, other than the contract itself, named exactly "Ownable": every earlier id is passed over; none iff every base is passed over; an error iff an unregistered id other than the contract's own comes before any "Ownable" base |
| Inst08.PrivateShadowVarPrints | src/v0.8/inst.go:27-58 | the 0.8 shadow variable prints as `bytes private xxx_track_V` |
| Inst08.ShadowIdsNegative | src/v0.8/inst.go:27-117 | the synthesised nodes carry the fixed ids -100 to -105, all negative |
| Inst08.Protect | src/v0.8/inst.go:121-138 | exactly the private shadow pair is appended, and the owner-taint pass changes only function bodies |
| Inst08.Step | src/v0.8/inst.go:24-140 | only a declaration named exactly "owner" or "_owner" is acted on, and only when no member prints like its shadow variable |
| Inst08.InstrumentCode | src/v0.8/inst.go:23-142 | the contract only grows; its attributes and bases are kept |
| Inst08.InstrumentedOwnersDeclared | src/v0.8/inst.go:23-142 | every owner variable among the original members has its shadow variable afterwards |
| Inst08.InstrumentIdempotent | src/v0.8/inst.go:23-142 | instrumenting twice is instrumenting once |
| Inst08.AppendedNotOwners | src/v0.8/inst.go:121-138 | no owner variable lies past the original members: everything appended is named `xxx_track_…` |
| Str.ContainsSpec | src/v0.5/inst.go:66 | `Contains` finds a substring iff it occurs at some offset |
| Str.ToUpperIdempotent | src/v0.5/inst.go:85 | upper-casing twice is upper-casing once |
| Str.SplitJoin | src/v0.5/ast/InlineAssembly.go:26-45 | splitting and rejoining with the same separator gives back the input |
| Str.HexEscapePairs | src/v0.8/ast/Literal.go:41-47 | the k-th `\xHH` escape spells the k-th pair of hex digits, and a trailing odd digit is dropped |
| Str.TrimQuotes | src/v0.8/ast/PragmaDirective.go:24 | the result is a slice of the input with only double quotes cut off on either side, and it neither starts nor ends with a double quote |

## Left out

- Command-line handling, file I/O, the Graphviz call graph, and pragma-version detection (`main.go`, `src/utils.go`, `src/v0.6/cfg/cfg.go`): these are I/O and floating-point arithmetic.
- Logging: warnings and error logs are dropped. Every logged case follows the code path the Go function takes after logging.
- JSON decoding (`json.Unmarshal`, the jsoniter `Get`/`Size` calls): the builders take decoded `Raw` records, and only "does this object's scalar part unmarshal" is kept, as `Raw.decodes`.
- Go map iteration order (src/v0.4/run.go:22) is the `order` parameter of `Runner.Run`.
- `select`'s random choice between two ready mailboxes is the `preferKnown` field of `Runner.Sent`.
- The sends into the mailboxes happen in code this model does not contain: `Runner.Sent` records what was sent for each function.
- Concurrency: the 0.8 driver `src/v0.8/run.go` spawns a goroutine per function and is not part of this model. `src/v0.5/run.go` calls the instrumentation with arities the shown `src/v0.5/inst.go` does not have, so it is not modelled either; `src/v0.4/run.go` is.
- `MakeCG` and the configuration graph output behind `isCfg` are not part of this model. Only the closure pass `TraverseFunctionCallAll` is.
- `CloseAll`, `StateVars`: the Go recursion keeps no visited set and may not terminate. The model bounds it with `fuel` and reports `OutOfFuel`; the divergence lemmas show that the cyclic inputs exhaust any fuel.
- `YulSwitch.NodeID` (src/v0.8/ast/YulSwitch.go:67-69) calls itself forever. `Ast.NodeID` requires a node that is not a `YulSwitch`, and the `YulSwitch` builder never registers.
- Methods that are called but whose source is not part of this model:
  - `AppendNode`: at src/v0.5/inst.go:257-258 it is called on a function definition. `Inst05.AppendStatement` appends the statement to the function's body block, and leaves a function whose body is not a block unchanged, dropping the statement.
  - `InsertReturnOwnerFunction` is an append to the contract's member list.
  - `Traverse.Calls`: blocks hand the pass to `EmitStatement` and `VariableDeclarationStatement` (src/v0.8/ast/Block.go:157-162), and unchecked blocks hand it to `VariableDeclarationStatement` (src/v0.8/ast/UncheckedBlock.go:137-138). Neither kind's `TraverseFunctionCall` is part of this model, so the model reports no calls inside them.
  - `ContractDefinition.TraverseTaintOwner` hands the pass to each member function in order (`Taint.TaintContract`).
  - `ContractDefinition.TraverseDelegatecall`, and the delegatecall rules of function calls, member accesses and blocks, are where findings are made; `Delegate.Frontier` stops at them.
- The taint rule of `for` statements is not part of this model; `Taint.TaintNode` leaves a `for` as it is.
- `Str.ToUpper`: maps ASCII letters only, because Go's full Unicode case mapping is not modelled. Identifiers in Solidity are ASCII.
- The 0.8 `ast` package does not compile as one package: it has two `ASTNode` interfaces and builders with and without a registry argument. The 0.8 rules are modelled file by file, and the builders that take no registry never register.
- The 0.8 `FunctionCall` builder dereferences a child's result before checking its error. That would panic; the model returns the child's error instead.
- Nil dereferences in 0.8 renderers print "" in the model. In the Go code they panic. They occur in `InheritanceSpecifier` with no base name, `ElementaryTypeNameExpression` with no type name, and `FunctionCallOptions` with fewer names than options.
- The legacy contract builder, the registry-taking `GetContractDefinition` that src/v0.6/ast/SourceUnit.go:79 calls, is not part of this model. The model builds a legacy contract like the other legacy builders: inheritance specifiers under `baseContracts`, the member kinds of `Builder.ContractMembers` under `nodes`, and registration after the members. Which member kinds it accepts is this model's choice. The 0.8 builder (src/v0.8/ast/ContractDefinition.go:61-87) is modelled as written: it keeps only inheritance specifiers, never fills members and does not register. So a legacy run traces the functions of the file's contracts (`Runner.ParseRegistersContractFunction`), and a 0.8 contract built from JSON has no members.
- A nil member inside a contract's member list would panic at its `Type()` call in src/v0.5/inst.go. Built contracts never hold one, and the scans treat a `Nil` member as matching nothing.
- A function's signature is not a JSON field: it is empty after building and set by `MakeSignature`, which the model treats as a given attribute of each function definition.
- Go nil slices and empty slices are the same empty sequence.
- The getter that `InsertReturnOwnerFunction` adds is modelled as a plain append. Its source is not part of this model, so whether it rejects duplicates is unknown.

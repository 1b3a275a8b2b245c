/** The 0.5 instrumentation decisions: which contract gets protected, which
    state variable stands for the owner, and which functions set or read it. */
module Inst05 {
  import opened Wrappers
  import opened Ast
  import opened Str
  import opened Registry
  import opened Render
  import opened Taint
  import opened TaintFacts

  /** The index of the first node satisfying `p`, if any. */
  function Find(ns: seq<Node>, p: Node -> bool): (r: Option<nat>)
    ensures r.Some? ==> r.value < |ns| && p(ns[r.value]) && forall j :: 0 <= j < r.value ==> !p(ns[j])
    ensures r.None? ==> forall j :: 0 <= j < |ns| ==> !p(ns[j])
  {
    if |ns| == 0 then None
    else if p(ns[0]) then Some(0)
    else
      var t := Find(ns[1..], p);
      assert forall j :: 1 <= j < |ns| ==> ns[j] == ns[1..][j - 1];
      if t.Some? then Some(t.value + 1) else None
  }

  /** The first member that either is wanted (`p`) or panics (`q`):
      nothing found means neither occurs, and the found member panics
      exactly when a panicking member comes before every wanted one. */
  lemma FindEither(ns: seq<Node>, p: Node -> bool, q: Node -> bool, pq: Node -> bool)
    requires forall m :: pq(m) == (p(m) || q(m))
    requires forall m :: !(p(m) && q(m))
    ensures var k := Find(ns, pq);
            (k.None? <==> forall j :: 0 <= j < |ns| ==> !p(ns[j]) && !q(ns[j])) &&
            (k.Some? && q(ns[k.value]) <==> exists i :: 0 <= i < |ns| && q(ns[i]) && forall j :: 0 <= j < i ==> !p(ns[j])) &&
            (k.Some? ==> forall j :: 0 <= j < k.value ==> !p(ns[j]) && !q(ns[j]))
  {
    var k := Find(ns, pq);
    if k.Some? {
      var i := k.value;
      assert forall j :: 0 <= j < i ==> !pq(ns[j]);
      if !q(ns[i]) {
        // The wanted member at `i` precedes every panicking one.
        forall h | 0 <= h < |ns| && q(ns[h])
          ensures i < h && p(ns[i])
        {
          assert pq(ns[h]);
        }
      }
    }
  }

  /** A member declares a variable whose name is one of the candidates. */
  predicate DeclaresCandidate(ms: seq<Node>, variables: seq<string>)
  {
    exists m :: m in ms && m.VariableDeclaration? && m.at.name in variables
  }

  /** A base that hands the contract its owner: one named "Ownable" or one
      declaring a candidate variable. */
  predicate OwnerBase(b: Node, variables: seq<string>)
  {
    b.ContractDefinition? && (b.at.name == "Ownable" || DeclaresCandidate(b.nodes, variables))
  }

  /** The registry holds a contract definition under `id`. */
  predicate Present(gn: GlobalNodes, id: int)
  {
    id in gn.contractsByID && gn.contractsByID[id].ContractDefinition?
  }

  /** Base id `id` was passed over by the scan: it is the contract's own id,
      or a registered contract that does not hand on an owner. */
  predicate PassedOver(gn: GlobalNodes, id: int, self: int, variables: seq<string>)
  {
    id == self || (Present(gn, id) && !OwnerBase(gn.contractsByID[id], variables))
  }

  /** `IsInheritFromOwnableContract`: a contract that declares a candidate
      itself needs no base (`Ok(None)`, bases unread); otherwise the first
      owner-giving base in linearisation order, skipping its own id.  A base
      id the registry does not hold makes the Go type assertion panic. */
  function IsInheritFromOwnableContract(c: Node, gn: GlobalNodes, variables: seq<string>): (r: Result<Option<Node>>)
    requires c.ContractDefinition?
    ensures DeclaresCandidate(c.nodes, variables) ==> r == Ok(None)
    ensures !DeclaresCandidate(c.nodes, variables) ==>
              r == ScanBases(c.at.linearizedBaseContracts, NodeID(c), gn, variables)
  {
    if DeclaresCandidate(c.nodes, variables) then Ok(None)
    else ScanBases(c.at.linearizedBaseContracts, NodeID(c), gn, variables)
  }

  /** The scan over the linearised base ids. */
  function ScanBases(ids: seq<int>, self: int, gn: GlobalNodes, variables: seq<string>): (r: Result<Option<Node>>)
    ensures r == Ok(None) <==> forall j :: 0 <= j < |ids| ==> PassedOver(gn, ids[j], self, variables)
    ensures r.Ok? && r.value.Some? ==>
              exists k :: 0 <= k < |ids| && ids[k] != self && Present(gn, ids[k]) &&
                          r.value.value == gn.contractsByID[ids[k]] && OwnerBase(r.value.value, variables) &&
                          forall j :: 0 <= j < k ==> PassedOver(gn, ids[j], self, variables)
    ensures r.Err? ==>
              exists k :: 0 <= k < |ids| && ids[k] != self && !Present(gn, ids[k]) &&
                          forall j :: 0 <= j < k ==> PassedOver(gn, ids[j], self, variables)
  {
    if |ids| == 0 then Ok(None)
    else
      var id := ids[0];
      assert forall j :: 1 <= j < |ids| ==> ids[j] == ids[1..][j - 1];
      if id == self then ScanBases(ids[1..], self, gn, variables)
      else if !Present(gn, id) then Err("base contract is not registered")
      else if OwnerBase(gn.contractsByID[id], variables) then Ok(Some(gn.contractsByID[id]))
      else ScanBases(ids[1..], self, gn, variables)
  }

  /** A state variable whose name is a candidate and whose type is
      "address": the owner is stored directly. */
  predicate AddressOwner(m: Node, variables: seq<string>)
  {
    m.VariableDeclaration? && m.at.name in variables && m.at.typeString == "address"
  }

  /** The first entry of `xs` that satisfies `p`. */
  function FirstWhere(xs: seq<string>, p: string -> bool): (r: Option<string>)
    ensures r.Some? ==> exists i :: 0 <= i < |xs| && xs[i] == r.value && p(xs[i]) &&
                                    forall j :: 0 <= j < i ==> !p(xs[j])
    ensures r.None? <==> forall j :: 0 <= j < |xs| ==> !p(xs[j])
    decreases |xs|
  {
    if |xs| == 0 then None
    else if p(xs[0]) then Some(xs[0])
    else
      var r := FirstWhere(xs[1..], p);
      assert forall j :: 1 <= j < |xs| ==> xs[j] == xs[1..][j - 1];
      r
  }

  /** The first candidate contained, case-insensitively, in `name`. */
  function FirstContained(name: string, variables: seq<string>): (r: Option<string>)
    ensures r.Some? ==> r.value in variables && ContainsFold(name, r.value)
    ensures r.Some? ==> exists i :: 0 <= i < |variables| && variables[i] == r.value &&
                                    forall j :: 0 <= j < i ==> !ContainsFold(name, variables[j])
    ensures r.None? <==> forall v :: v in variables ==> !ContainsFold(name, v)
  {
    FirstWhere(variables, v => ContainsFold(name, v))
  }

  /** The candidate a member stands for, if it is a bytes32 variable whose
      name contains one. */
  function BytesSlot(m: Node, variables: seq<string>): Option<string>
  {
    if m.VariableDeclaration? && m.at.typeString == "bytes32" then FirstContained(m.at.name, variables) else None
  }

  /** The last member whose slot is filled wins: later matches overwrite
      earlier ones. */
  function LastSlot(ms: seq<Node>, slot: Node -> Option<string>): (r: Option<string>)
    ensures r.Some? ==> exists k :: 0 <= k < |ms| && slot(ms[k]) == r &&
                                    forall j :: k < j < |ms| ==> slot(ms[j]).None?
    ensures r.None? ==> forall j :: 0 <= j < |ms| ==> slot(ms[j]).None?
    decreases |ms|
  {
    if |ms| == 0 then None
    else
      var last := slot(ms[|ms| - 1]);
      var front := ms[..|ms| - 1];
      assert forall j :: 0 <= j < |front| ==> front[j] == ms[j];
      if last.Some? then last else LastSlot(front, slot)
  }

  /** The candidate named by the last bytes32 member that contains one. */
  function LastBytesSlot(ms: seq<Node>, variables: seq<string>): (r: Option<string>)
    ensures r.Some? ==> exists k :: 0 <= k < |ms| && BytesSlot(ms[k], variables) == r &&
                                    forall j :: k < j < |ms| ==> BytesSlot(ms[j], variables).None?
    ensures r.None? ==> forall j :: 0 <= j < |ms| ==> BytesSlot(ms[j], variables).None?
  {
    LastSlot(ms, m => BytesSlot(m, variables))
  }

  /** `IsOwnableOnlyHasBytesPosition`: no answer if a candidate is stored as
      an address; otherwise the candidate named by the last bytes32 variable
      that contains one. */
  function IsOwnableOnlyHasBytesPosition(c: Node, variables: seq<string>): (r: Option<string>)
    requires c.ContractDefinition?
    ensures (exists m :: m in c.nodes && AddressOwner(m, variables)) ==> r.None?
    ensures r.Some? ==> (r.value in variables &&
              exists m :: m in c.nodes && m.VariableDeclaration? && m.at.typeString == "bytes32" &&
                          ContainsFold(m.at.name, r.value))
    ensures r.None? && !(exists m :: m in c.nodes && AddressOwner(m, variables)) ==>
              forall m, v :: m in c.nodes && m.VariableDeclaration? && m.at.typeString == "bytes32" && v in variables ==>
                             !ContainsFold(m.at.name, v)
    ensures !(exists m :: m in c.nodes && AddressOwner(m, variables)) ==> r == LastBytesSlot(c.nodes, variables)
    ensures r.Some? ==>
              exists k :: 0 <= k < |c.nodes| && c.nodes[k].VariableDeclaration? && c.nodes[k].at.typeString == "bytes32" &&
                          r == FirstContained(c.nodes[k].at.name, variables) &&
                          forall j :: k < j < |c.nodes| ==> BytesSlot(c.nodes[j], variables).None?
  {
    if exists m :: m in c.nodes && AddressOwner(m, variables) then None
    else
      var r := LastBytesSlot(c.nodes, variables);
      assert forall m :: m in c.nodes ==> exists j :: 0 <= j < |c.nodes| && c.nodes[j] == m;
      r
  }

  /** A function whose name contains the owner name and SET or TRANSFER
      (ignoring case): the setter test goes on to its parameters. */
  predicate SetterNamed(fd: Node, owner: string)
  {
    fd.FunctionDefinition? &&
    ContainsFold(fd.at.name, owner) &&
    (Contains(ToUpper(fd.at.name), "SET") || Contains(ToUpper(fd.at.name), "TRANSFER"))
  }

  /** A function shaped like the owner's setter: named like one, and it
      takes exactly one address parameter. */
  predicate SetterShaped(fd: Node, owner: string)
  {
    SetterNamed(fd, owner) &&
    fd.parameters.ParameterList? && |fd.parameters.params| == 1 &&
    fd.parameters.params[0].VariableDeclaration? && fd.parameters.params[0].at.typeString == "address"
  }

  /** A function named like the setter whose parameter list, or whose one
      parameter, is missing: asking a nil node for its type panics. */
  predicate SetterPanics(fd: Node, owner: string)
  {
    SetterNamed(fd, owner) &&
    (fd.parameters.Nil? ||
     (fd.parameters.ParameterList? && |fd.parameters.params| == 1 && fd.parameters.params[0].Nil?))
  }

  /** A function whose name contains the owner name and GET (ignoring
      case): the getter test goes on to its parameters. */
  predicate GetterNamed(fd: Node, owner: string)
  {
    fd.FunctionDefinition? && ContainsFold(fd.at.name, owner) && Contains(ToUpper(fd.at.name), "GET")
  }

  /** A function shaped like the owner's getter: named like one, no
      parameters, exactly one address return value. */
  predicate GetterShaped(fd: Node, owner: string)
  {
    GetterNamed(fd, owner) &&
    fd.parameters.ParameterList? && |fd.parameters.params| == 0 &&
    fd.returnParameters.ParameterList? && |fd.returnParameters.params| == 1 &&
    fd.returnParameters.params[0].VariableDeclaration? &&
    fd.returnParameters.params[0].at.typeString == "address"
  }

  /** A function named like the getter that reaches a missing parameter
      list, return list or return value: the type test on it panics. */
  predicate GetterPanics(fd: Node, owner: string)
  {
    GetterNamed(fd, owner) &&
    (fd.parameters.Nil? ||
     (fd.parameters.ParameterList? && |fd.parameters.params| == 0 &&
      (fd.returnParameters.Nil? ||
       (fd.returnParameters.ParameterList? && |fd.returnParameters.params| == 1 &&
        fd.returnParameters.params[0].Nil?))))
  }

  /** `LookupGetRepresentOwnerName`: the name of the first getter-shaped
      member; a getter-named member with a missing list before it panics. */
  function LookupGetRepresentOwnerName(c: Node, owner: string): (r: Result<Option<string>>)
    requires c.ContractDefinition?
    ensures r.Err? <==> exists k :: 0 <= k < |c.nodes| && GetterPanics(c.nodes[k], owner) &&
                                    forall j :: 0 <= j < k ==> !GetterShaped(c.nodes[j], owner)
    ensures r.Ok? && r.value.Some? ==>
              exists k :: 0 <= k < |c.nodes| && GetterShaped(c.nodes[k], owner) &&
                          r.value.value == c.nodes[k].at.name &&
                          forall j :: 0 <= j < k ==> !GetterShaped(c.nodes[j], owner) && !GetterPanics(c.nodes[j], owner)
    ensures r == Ok(None) <==>
              forall j :: 0 <= j < |c.nodes| ==> !GetterShaped(c.nodes[j], owner) && !GetterPanics(c.nodes[j], owner)
  {
    var shaped := m => GetterShaped(m, owner);
    var panics := m => GetterPanics(m, owner);
    var either := m => GetterShaped(m, owner) || GetterPanics(m, owner);
    FindEither(c.nodes, shaped, panics, either);
    var k := Find(c.nodes, either);
    if k.None? then Ok(None)
    else if GetterPanics(c.nodes[k.value], owner) then Err("nil parameter list of a getter")
    else Ok(Some(c.nodes[k.value].at.name))
  }
  // ---------------------------------------------------------------------------
  // Shadow names and declarations

  function TrackName(v: string): string { "xxx_track_" + v }
  function TrackMappingName(v: string): string { "xxx_track_mapping_" + v }
  function TrackFuncName(v: string): string { "xxx_track_func_" + v }

  function Elementary(name: string, mutability: string): Node
  {
    ElementaryTypeName(Blank().(name := name, stateMutability := mutability))
  }

  /** An internal state variable in default storage. */
  function StateVar(name: string, scope: int, ty: Node): Node
  {
    VariableDeclaration(
      Blank().(name := name, scope := scope, stateVariable := true,
               storageLocation := "default", visibility := "internal"),
      ty, Nil)
  }

  /** `bytes xxx_track_V`: the function that last wrote the owner. */
  function ShadowVar(v: string, scope: int): (r: Node)
    ensures r.VariableDeclaration?
  {
    StateVar(TrackName(v), scope, Elementary("bytes", ""))
  }

  /** `mapping(bytes => address) xxx_track_mapping_V`: the owner each
      function last wrote. */
  function ShadowMapping(v: string, valueMutability: string): Node
  {
    StateVar(TrackMappingName(v), 0,
             Mapping(Blank(), Elementary("bytes", ""), Elementary("address", valueMutability)))
  }

  /** Member `m` is a declaration whose text is `text`. */
  predicate PrintsAs(d: Dialect, m: Node, text: string)
  {
    m.VariableDeclaration? && Text(d, m, false, false, "") == text
  }

  predicate Declares(d: Dialect, ns: seq<Node>, text: string)
  {
    exists j :: 0 <= j < |ns| && PrintsAs(d, ns[j], text)
  }

  lemma DeclaredAt(d: Dialect, ns: seq<Node>, j: int, text: string)
    requires 0 <= j < |ns| && PrintsAs(d, ns[j], text)
    ensures Declares(d, ns, text)
  {
  }

  /** The duplicate test of the instrumenter: does some member declaration
      print as `text`? */
  function AlreadyDeclared(d: Dialect, ns: seq<Node>, text: string): (r: bool)
    ensures r <==> Declares(d, ns, text)
  {
    Find(ns, m => PrintsAs(d, m, text)).Some?
  }

  /** The texts of the two shadow declarations. */
  function ShadowVarDecl(v: string): string { "bytes " + TrackName(v) }
  function ShadowMappingDecl(v: string): string { "mapping (bytes => address) " + TrackMappingName(v) }

  /** An elementary type prints as its name, then any mutability other
      than "nonpayable". */
  lemma ElementaryText(d: Dialect, name: string, mutability: string, indent: string)
    ensures Sub(d, Elementary(name, mutability), indent) ==
            name + (if mutability != "" && mutability != "nonpayable" then " " + mutability else "")
  {
    ElementaryNodeText(d, Elementary(name, mutability), indent);
  }

  lemma ElementaryNodeText(d: Dialect, e: Node, indent: string)
    requires e.ElementaryTypeName?
    ensures Sub(d, e, indent) ==
            e.at.name + (if e.at.stateMutability != "" && e.at.stateMutability != "nonpayable" then " " + e.at.stateMutability else "")
  {
    DeclFlat(d, e, indent);
  }

  /** A synthetic state variable prints as its type, a space and its name. */
  lemma StateVarText(name: string, scope: int, ty: Node)
    requires ty.Mapping? || ty.ElementaryTypeName?
    requires name != ""
    ensures Text(Legacy, StateVar(name, scope, ty), false, false, "") == Sub(Legacy, ty, "") + " " + name
  {
    var n := StateVar(name, scope, ty);
    StateVarShape(name, scope, ty);
    PlainDeclText(n);
  }

  lemma StateVarShape(name: string, scope: int, ty: Node)
    ensures var n := StateVar(name, scope, ty);
            n.VariableDeclaration? && n.typeName == ty && n.value.Nil? && n.at.name == name &&
            !n.at.constant && !n.at.indexed && n.at.storageLocation == "default" && n.at.visibility == "internal"
  {
  }

  /** A 0.5 declaration in default storage, internal, not constant or
      indexed and without a value prints as its type and its name. */
  lemma PlainDeclText(n: Node)
    requires n.VariableDeclaration? && (n.typeName.Mapping? || n.typeName.ElementaryTypeName?) && n.value.Nil?
    requires n.at.name != "" && !n.at.constant && !n.at.indexed
    requires n.at.storageLocation == "default" && n.at.visibility == "internal"
    ensures Text(Legacy, n, false, false, "") == Sub(Legacy, n.typeName, "") + " " + n.at.name
  {
    VarDeclFlat(Legacy, n, "");
  }

  /** The shadow variable prints as "bytes xxx_track_V": storage, visibility
      and scope do not show. */
  lemma ShadowVarPrints(v: string, scope: int)
    ensures Text(Legacy, ShadowVar(v, scope), false, false, "") == ShadowVarDecl(v)
  {
    ElementaryText(Legacy, "bytes", "", "");
    StateVarText(TrackName(v), scope, Elementary("bytes", ""));
  }

  /** The shadow mapping prints as "mapping (bytes => address) xxx_track_mapping_V",
      whether or not its value type says "nonpayable". */
  lemma ShadowMappingPrints(v: string, mutability: string)
    requires mutability == "" || mutability == "nonpayable"
    ensures Text(Legacy, ShadowMapping(v, mutability), false, false, "") == ShadowMappingDecl(v)
  {
    var m := Mapping(Blank(), Elementary("bytes", ""), Elementary("address", mutability));
    MappingTypeText(mutability);
    StateVarText(TrackMappingName(v), 0, m);
  }

  lemma MappingTypeText(mutability: string)
    requires mutability == "" || mutability == "nonpayable"
    ensures Sub(Legacy, Mapping(Blank(), Elementary("bytes", ""), Elementary("address", mutability)), "") ==
            "mapping (bytes => address)"
  {
    var m := Mapping(Blank(), Elementary("bytes", ""), Elementary("address", mutability));
    ElementaryText(Legacy, "bytes", "", "");
    ElementaryText(Legacy, "address", mutability, "");
    BytesToAddressText(m);
  }

  lemma BytesToAddressText(m: Node)
    requires m.Mapping? && m.keyType.ElementaryTypeName? && m.valueType.ElementaryTypeName?
    requires Sub(Legacy, m.keyType, "") == "bytes" && Sub(Legacy, m.valueType, "") == "address"
    ensures Sub(Legacy, m, "") == "mapping (bytes => address)"
  {
    ElementaryMappingText(m);
  }

  /** A mapping between elementary types prints both types in brackets. */
  lemma ElementaryMappingText(m: Node)
    requires m.Mapping? && m.keyType.ElementaryTypeName? && m.valueType.ElementaryTypeName?
    ensures Sub(Legacy, m, "") == "mapping (" + Sub(Legacy, m.keyType, "") + " => " + Sub(Legacy, m.valueType, "") + ")"
  {
    MappingText(Legacy, m, "");
  }

  lemma MappingText(d: Dialect, m: Node, indent: string)
    requires m.Mapping?
    ensures Sub(d, m, indent) == "mapping" + MappingCore(d, m, indent)
  {
    assert !Framed(m);
  }

  /** The contract grew by appending, and every old member is either kept
      or, for a function, changed in its body only. */
  predicate Grows(a: seq<Node>, b: seq<Node>)
  {
    |a| <= |b| && forall i :: 0 <= i < |a| ==> KeptMember(a[i], b[i])
  }

  /** Appending members grows a contract. */
  lemma AppendGrows(a: seq<Node>, extra: seq<Node>)
    ensures Grows(a, a + extra)
  {
    forall i | 0 <= i < |a|
      ensures KeptMember(a[i], (a + extra)[i])
    {
      assert (a + extra)[i] == a[i];
    }
  }

  lemma GrowsKeepsDeclarations(d: Dialect, a: seq<Node>, b: seq<Node>, text: string)
    requires Grows(a, b) && Declares(d, a, text)
    ensures Declares(d, b, text)
  {
    var j :| 0 <= j < |a| && PrintsAs(d, a[j], text);
    assert KeptMember(a[j], b[j]);
    assert PrintsAs(d, b[j], text);
  }

  // ---------------------------------------------------------------------------
  // The setter: record every change of the represented owner

  /** Append a statement to a function's body block (a function without a
      block body is left as it is). */
  function AppendStatement(fd: Node, s: Node): (r: Node)
    requires fd.FunctionDefinition?
    ensures KeptMember(fd, r)
    ensures fd.body.Block? ==> r.body.Block? && r.body.at == fd.body.at &&
                               r.body.statements == fd.body.statements + [s]
    ensures !fd.body.Block? ==> r == fd
  {
    if fd.body.Block? then FunctionDefinition(fd.at, fd.parameters, fd.returnParameters, fd.modifiers, fd.overrides,
                                            Block(fd.body.at, fd.body.statements + [s])) else fd
  }

  /** The state naming the shadow pair of `rep` inside function `fd`, with
      the setter's parameter as the written value. */
  function SetterState(fd: Node, rep: string, param: string): TaintState
    requires fd.FunctionDefinition?
  {
    var st := TaintState(fd.at.signature, TrackName(rep), TrackMappingName(rep), "", true, Nil);
    st.(trackAssignment := TrackAssignment(st, Ident(param)))
  }

  /** `InsertTrackCodeInFunction`: the setter's body ends by recording its
      own signature in `xxx_track_R` and the new owner under that
      signature in `xxx_track_mapping_R` — the same two statements the
      taint pass attaches to owner writes. */
  function InsertTrackCodeInFunction(fd: Node, rep: string, param: string): (r: Node)
    requires fd.FunctionDefinition?
    ensures KeptMember(fd, r)
    ensures fd.body.Block? ==>
              var st := SetterState(fd, rep, param);
              r.body.Block? && r.body.statements ==
              fd.body.statements + [TrackVariableStatement(st), TrackMappingStatement(st)]
    ensures !fd.body.Block? ==> r == fd
  {
    var st := SetterState(fd, rep, param);
    AppendStatement(AppendStatement(fd, TrackVariableStatement(st)), TrackMappingStatement(st))
  }

  /** Either shadow declaration of `rep` is printed like by a member. */
  predicate RepresentDeclared(ns: seq<Node>, rep: string)
  {
    Declares(Legacy, ns, ShadowVarDecl(rep)) || Declares(Legacy, ns, ShadowMappingDecl(rep))
  }

  /** `InsertRepresentOwnerNameInContract`: declare the shadow pair for
      `rep` unless a member already prints like either declaration. */
  function InsertRepresentOwnerNameInContract(c: Node, rep: string): (r: Node)
    requires c.ContractDefinition?
    ensures r.ContractDefinition? && r.at == c.at && r.baseContracts == c.baseContracts
    ensures RepresentDeclared(r.nodes, rep)
    ensures RepresentDeclared(c.nodes, rep) ==> r == c
    ensures !RepresentDeclared(c.nodes, rep) ==> r.nodes == c.nodes + [ShadowVar(rep, 0), ShadowMapping(rep, "")]
  {
    if RepresentDuplicate(c.nodes, rep) then c
    else
      var vd := ShadowVar(rep, 0);
      var r := WithMembers(c, c.nodes + [vd, ShadowMapping(rep, "")]);
      assert r.nodes[|c.nodes|] == vd;
      ShadowVarPrints(rep, 0);
      DeclaredAt(Legacy, r.nodes, |c.nodes|, ShadowVarDecl(rep));
      r
  }

  /** The duplicate test against the printed shadow pair. */
  function RepresentDuplicate(ns: seq<Node>, rep: string): (b: bool)
    ensures b <==> RepresentDeclared(ns, rep)
  {
    ShadowVarPrints(rep, 0);
    ShadowMappingPrints(rep, "");
    AlreadyDeclared(Legacy, ns, Text(Legacy, ShadowVar(rep, 0), false, false, "")) ||
    AlreadyDeclared(Legacy, ns, Text(Legacy, ShadowMapping(rep, ""), false, false, ""))
  }

  /** Declaring the pair twice is declaring it once. */
  lemma InsertRepresentIdempotent(c: Node, rep: string)
    requires c.ContractDefinition?
    ensures var once := InsertRepresentOwnerNameInContract(c, rep);
            InsertRepresentOwnerNameInContract(once, rep) == once
  {
  }
  /** `LookupSetRepresentOwnerName`: the first setter-shaped member gets the
      two recording statements, and the contract gets the shadow pair; with
      no setter nothing changes.  A setter-named member with a missing
      parameter list before the first setter panics. */
  function LookupSetRepresentOwnerName(c: Node, rep: string): (r: Result<(bool, Node)>)
    requires c.ContractDefinition?
    ensures r.Err? <==> exists k :: 0 <= k < |c.nodes| && SetterPanics(c.nodes[k], rep) &&
                                    forall j :: 0 <= j < k ==> !SetterShaped(c.nodes[j], rep)
    ensures r.Ok? ==> (r.value.0 <==> exists k :: 0 <= k < |c.nodes| && SetterShaped(c.nodes[k], rep))
    ensures r.Ok? && !r.value.0 ==> r.value.1 == c
    ensures r.Ok? && r.value.0 ==>
              exists k :: 0 <= k < |c.nodes| && SetterShaped(c.nodes[k], rep) &&
                          (forall j :: 0 <= j < k ==> !SetterShaped(c.nodes[j], rep) && !SetterPanics(c.nodes[j], rep)) &&
                          r.value.1 == TrackSetter(c, k, rep)
  {
    var k := FirstSetter(c.nodes, rep);
    if k.Err? then Err(k.msg)
    else if k.value.None? then Ok((false, c))
    else Ok((true, TrackSetter(c, k.value.value, rep)))
  }

  /** The scan over the members for the first setter: an error when a
      setter-named member with a missing list comes first. */
  function FirstSetter(ns: seq<Node>, rep: string): (r: Result<Option<nat>>)
    ensures r.Err? <==> exists k :: 0 <= k < |ns| && SetterPanics(ns[k], rep) &&
                                    forall j :: 0 <= j < k ==> !SetterShaped(ns[j], rep)
    ensures r.Ok? && r.value.None? ==> forall j :: 0 <= j < |ns| ==> !SetterShaped(ns[j], rep)
    ensures r.Ok? && r.value.Some? ==>
              r.value.value < |ns| && SetterShaped(ns[r.value.value], rep) &&
              forall j :: 0 <= j < r.value.value ==> !SetterShaped(ns[j], rep) && !SetterPanics(ns[j], rep)
  {
    var shaped := m => SetterShaped(m, rep);
    var panics := m => SetterPanics(m, rep);
    var either := m => SetterShaped(m, rep) || SetterPanics(m, rep);
    FindEither(ns, shaped, panics, either);
    var k := Find(ns, either);
    if k.None? then Ok(None)
    else if SetterPanics(ns[k.value], rep) then Err("nil parameter list of a setter")
    else Ok(Some(k.value))
  }

  /** The setter at `i` records each assignment and the contract declares
      the shadow pair; the members before the pair are the old ones with
      that setter replaced. */
  function TrackSetter(c: Node, i: nat, rep: string): (d: Node)
    requires c.ContractDefinition? && i < |c.nodes| && SetterShaped(c.nodes[i], rep)
    ensures d.ContractDefinition? && |d.nodes| >= |c.nodes| && d.at == c.at && d.baseContracts == c.baseContracts
    ensures RepresentDeclared(d.nodes, rep)
    ensures d.nodes[..|c.nodes|] ==
            c.nodes[i := InsertTrackCodeInFunction(c.nodes[i], rep, c.nodes[i].parameters.params[0].at.name)]
  {
    var fd := c.nodes[i];
    var tracked := WithMembers(c, c.nodes[i := InsertTrackCodeInFunction(fd, rep, fd.parameters.params[0].at.name)]);
    var r := InsertRepresentOwnerNameInContract(tracked, rep);
    assert r.nodes[..|c.nodes|] == tracked.nodes;
    r
  }

  // ---------------------------------------------------------------------------
  // Owner instrumentation

  /** A member that is one of the candidate owner variables. */
  predicate Candidate(m: Node, variables: seq<string>)
  {
    m.VariableDeclaration? && m.at.name in variables
  }

  /** The internal view function returning the owner: `xxx_track_func_V`. */
  function Getter(v: string): Node
  {
    FunctionDefinition(
      Blank().(implemented := true, kind := "function", name := TrackFuncName(v),
               stateMutability := "view", visibility := "internal"),
      Nil,
      ParameterList(Blank(), [
        VariableDeclaration(Blank().(storageLocation := "default", visibility := "internal"),
                            Elementary("address", "nonpayable"), Nil)]),
      [], Nil,
      Block(Blank(), [Return(Blank(), Ident(v))]))
  }

  /** Some member is a function named like the getter of `v` that returns
      what the getter returns. */
  predicate HasGetter(ns: seq<Node>, v: string)
  {
    exists j :: 0 <= j < |ns| && ns[j].FunctionDefinition? &&
                ns[j].at == Getter(v).at && ns[j].returnParameters == Getter(v).returnParameters
  }

  lemma GrowsKeepsGetter(a: seq<Node>, b: seq<Node>, v: string)
    requires Grows(a, b) && HasGetter(a, v)
    ensures HasGetter(b, v)
  {
    var j :| 0 <= j < |a| && a[j].FunctionDefinition? &&
             a[j].at == Getter(v).at && a[j].returnParameters == Getter(v).returnParameters;
    assert KeptMember(a[j], b[j]);
  }

  /** The options the owner-taint pass is started with. */
  function OwnerTaint(v: string): TaintState
  {
    TaintState("", TrackName(v), TrackMappingName(v), v, false, Nil)
  }

  /** One member of the loop in `InstrumentCodeForOwner`: for a candidate
      `v`, add the getter, then — unless a member already prints like the
      shadow variable — the shadow pair, and run the owner-taint pass. */
  function OwnerStep(c: Node, m: Node, variables: seq<string>): (r: Node)
    requires c.ContractDefinition?
    ensures r.ContractDefinition? && r.at == c.at && r.baseContracts == c.baseContracts
    ensures Grows(c.nodes, r.nodes)
    ensures !Candidate(m, variables) ==> r == c
  {
    if !Candidate(m, variables) then c
    else
      var v := m.at.name;
      var g := WithMembers(c, c.nodes + [Getter(v)]);
      AppendGrows(c.nodes, [Getter(v)]);
      if AlreadyDeclared(Legacy, g.nodes, Text(Legacy, ShadowVar(v, NodeID(c)), false, false, "")) then g
      else
        var a := WithMembers(g, g.nodes + [ShadowVar(v, NodeID(c)), ShadowMapping(v, "nonpayable")]);
        var t := TaintContract(a, OwnerTaint(v)).node;
        AppendGrows(g.nodes, [ShadowVar(v, NodeID(c)), ShadowMapping(v, "nonpayable")]);
        GrowsTransitive(c.nodes, g.nodes, a.nodes);
        GrowsTransitive(c.nodes, a.nodes, t.nodes);
        t
  }

  /** After the step for a candidate, its getter and its shadow variable are there. */
  lemma OwnerStepInstruments(c: Node, m: Node, variables: seq<string>)
    requires c.ContractDefinition? && Candidate(m, variables)
    ensures var r := OwnerStep(c, m, variables);
            HasGetter(r.nodes, m.at.name) && Declares(Legacy, r.nodes, ShadowVarDecl(m.at.name))
  {
    var v := m.at.name;
    var p := ShadowVar(v, NodeID(c));
    var q := ShadowMapping(v, "nonpayable");
    var g := c.nodes + [Getter(v)];
    var r := OwnerStep(c, m, variables).nodes;
    OwnerStepCases(c, m, variables);
    AppendedAt(c.nodes, Getter(v), p, q);
    if Declares(Legacy, g, ShadowVarDecl(v)) {
      KeptGetter(g, r, |c.nodes|, v);
    } else {
      ShadowVarPrints(v, NodeID(c));
      KeptGetter(g + [p, q], r, |c.nodes|, v);
      KeptDeclares(g + [p, q], r, |g|, ShadowVarDecl(v));
    }
  }

  /** The two outcomes of a candidate's step: the getter alone when the
      shadow variable is already declared, else the getter and the shadow
      pair, with the owner-taint pass changing function bodies only. */
  lemma OwnerStepCases(c: Node, m: Node, variables: seq<string>)
    requires c.ContractDefinition? && Candidate(m, variables)
    ensures var v := m.at.name;
            var g := c.nodes + [Getter(v)];
            var a := g + [ShadowVar(v, NodeID(c)), ShadowMapping(v, "nonpayable")];
            var r := OwnerStep(c, m, variables).nodes;
            (Declares(Legacy, g, ShadowVarDecl(v)) ==> r == g) &&
            (!Declares(Legacy, g, ShadowVarDecl(v)) ==>
               |r| == |a| && forall i :: 0 <= i < |a| ==> KeptMember(a[i], r[i]))
  {
    ShadowVarPrints(m.at.name, NodeID(c));
  }

  /** Where the getter and the shadow pair land when appended. */
  lemma AppendedAt(ns: seq<Node>, getter: Node, p: Node, q: Node)
    ensures (ns + [getter])[|ns|] == getter
    ensures ((ns + [getter]) + [p, q])[|ns|] == getter
    ensures ((ns + [getter]) + [p, q])[|ns| + 1] == p
  {
  }

  lemma KeptGetter(a: seq<Node>, b: seq<Node>, j: int, v: string)
    requires |a| == |b| && forall i :: 0 <= i < |a| ==> KeptMember(a[i], b[i])
    requires 0 <= j < |a| && a[j] == Getter(v)
    ensures HasGetter(b, v)
  {
    assert KeptMember(a[j], b[j]);
  }

  lemma KeptDeclares(a: seq<Node>, b: seq<Node>, j: int, text: string)
    requires |a| == |b| && forall i :: 0 <= i < |a| ==> KeptMember(a[i], b[i])
    requires 0 <= j < |a| && PrintsAs(Legacy, a[j], text)
    ensures Declares(Legacy, b, text)
  {
    assert KeptMember(a[j], b[j]);
    DeclaredAt(Legacy, b, j, text);
  }

  /** The loop over the members the contract had when it started. */
  function OwnerLoop(c: Node, ms: seq<Node>, variables: seq<string>): (r: Node)
    requires c.ContractDefinition?
    ensures r.ContractDefinition? && r.at == c.at && r.baseContracts == c.baseContracts
    ensures Grows(c.nodes, r.nodes)
    decreases |ms|
  {
    if |ms| == 0 then c
    else
      var s := OwnerStep(c, ms[0], variables);
      var r := OwnerLoop(s, ms[1..], variables);
      GrowsTransitive(c.nodes, s.nodes, r.nodes);
      r
  }

  lemma GrowsTransitive(a: seq<Node>, b: seq<Node>, c: seq<Node>)
    requires Grows(a, b) && Grows(b, c)
    ensures Grows(a, c)
  {
    forall i | 0 <= i < |a|
      ensures KeptMember(a[i], c[i])
    {
      assert KeptMember(a[i], b[i]) && KeptMember(b[i], c[i]);
    }
  }

  /** Every candidate the loop passes keeps its getter and shadow variable
      to the end. */
  lemma {:induction false} OwnerLoopInstruments(c: Node, ms: seq<Node>, variables: seq<string>, k: nat)
    requires c.ContractDefinition? && k < |ms| && Candidate(ms[k], variables)
    ensures var r := OwnerLoop(c, ms, variables);
            HasGetter(r.nodes, ms[k].at.name) && Declares(Legacy, r.nodes, ShadowVarDecl(ms[k].at.name))
    decreases |ms|
  {
    var s := OwnerStep(c, ms[0], variables);
    var r := OwnerLoop(s, ms[1..], variables);
    OwnerLoopUnfold(c, ms, variables);
    if k == 0 {
      OwnerStepInstruments(c, ms[0], variables);
      GrowsKeepsGetter(s.nodes, r.nodes, ms[0].at.name);
      GrowsKeepsDeclarations(Legacy, s.nodes, r.nodes, ShadowVarDecl(ms[0].at.name));
    } else {
      assert ms[k] == ms[1..][k - 1];
      OwnerLoopInstruments(s, ms[1..], variables, k - 1);
    }
  }

  /** One round of the loop: the step for the first member, then the rest. */
  lemma OwnerLoopUnfold(c: Node, ms: seq<Node>, variables: seq<string>)
    requires c.ContractDefinition? && |ms| > 0
    ensures OwnerLoop(c, ms, variables) == OwnerLoop(OwnerStep(c, ms[0], variables), ms[1..], variables)
  {
  }

  /** With no candidate among the members the loop changes nothing. */
  lemma {:induction false} OwnerLoopWithoutCandidates(c: Node, ms: seq<Node>, variables: seq<string>)
    requires c.ContractDefinition?
    requires forall k :: 0 <= k < |ms| ==> !Candidate(ms[k], variables)
    ensures OwnerLoop(c, ms, variables) == c
    decreases |ms|
  {
    if |ms| > 0 {
      assert !Candidate(ms[0], variables);
      assert forall k :: 0 <= k < |ms| - 1 ==> ms[1..][k] == ms[k + 1];
      OwnerLoopWithoutCandidates(c, ms[1..], variables);
    }
  }

  /** The name of the last candidate among `ms`, or "" if none. */
  function LastCandidate(ms: seq<Node>, variables: seq<string>): (r: string)
    ensures (exists k :: 0 <= k < |ms| && Candidate(ms[k], variables)) ==>
              exists k :: 0 <= k < |ms| && Candidate(ms[k], variables) && r == ms[k].at.name &&
                          forall j :: k < j < |ms| ==> !Candidate(ms[j], variables)
    ensures (forall k :: 0 <= k < |ms| ==> !Candidate(ms[k], variables)) ==> r == ""
    decreases |ms|
  {
    if |ms| == 0 then ""
    else
      var front := ms[..|ms| - 1];
      assert forall j :: 0 <= j < |front| ==> front[j] == ms[j];
      if Candidate(ms[|ms| - 1], variables) then ms[|ms| - 1].at.name else LastCandidate(front, variables)
  }

  /** The instrumented contract and the owner variable that was reported. */
  datatype Owned = Owned(contract: Node, owner: string)

  /** `InstrumentCodeForOwner`: the loop runs over the members the contract
      had when it was called; old members only ever change inside function
      bodies, and the reported owner is the last candidate (or ""). */
  function InstrumentCodeForOwner(c: Node, variables: seq<string>): (r: Owned)
    requires c.ContractDefinition?
    ensures r.contract.ContractDefinition? && r.contract.at == c.at && r.contract.baseContracts == c.baseContracts
    ensures Grows(c.nodes, r.contract.nodes)
    ensures (exists k :: 0 <= k < |c.nodes| && Candidate(c.nodes[k], variables)) ==>
              exists k :: 0 <= k < |c.nodes| && Candidate(c.nodes[k], variables) && r.owner == c.nodes[k].at.name &&
                          forall j :: k < j < |c.nodes| ==> !Candidate(c.nodes[j], variables)
    ensures (forall k :: 0 <= k < |c.nodes| ==> !Candidate(c.nodes[k], variables)) ==> r.owner == ""
  {
    Owned(OwnerLoop(c, c.nodes, variables), LastCandidate(c.nodes, variables))
  }

  /** Every candidate owner variable of the contract ends up with its getter
      and a declaration printing like its shadow variable; in particular the
      reported owner, whose names the assertion below refers to. */
  lemma InstrumentedOwnersHaveShadows(c: Node, variables: seq<string>)
    requires c.ContractDefinition?
    ensures var r := InstrumentCodeForOwner(c, variables);
            (forall k :: 0 <= k < |c.nodes| && Candidate(c.nodes[k], variables) ==>
               HasGetter(r.contract.nodes, c.nodes[k].at.name) &&
               Declares(Legacy, r.contract.nodes, ShadowVarDecl(c.nodes[k].at.name))) &&
            ((exists k :: 0 <= k < |c.nodes| && Candidate(c.nodes[k], variables)) ==>
               HasGetter(r.contract.nodes, r.owner))
  {
    forall k | 0 <= k < |c.nodes| && Candidate(c.nodes[k], variables)
      ensures var r := InstrumentCodeForOwner(c, variables);
              HasGetter(r.contract.nodes, c.nodes[k].at.name) &&
              Declares(Legacy, r.contract.nodes, ShadowVarDecl(c.nodes[k].at.name))
    {
      OwnerLoopInstruments(c, c.nodes, variables, k);
    }
  }

  /** A contract without candidates is returned as it is. */
  lemma NoCandidateNoChange(c: Node, variables: seq<string>)
    requires c.ContractDefinition?
    requires forall k :: 0 <= k < |c.nodes| ==> !Candidate(c.nodes[k], variables)
    ensures InstrumentCodeForOwner(c, variables) == Owned(c, "")
  {
    OwnerLoopWithoutCandidates(c, c.nodes, variables);
  }

  // ---------------------------------------------------------------------------
  // The assertion handed to the delegatecall pass

  /** `assert(MAPPING[INDEX] == GETTER())`. */
  function AssertStatement(mapping: string, index: string, getter: string): Node
  {
    ExpressionStatement(
      Blank(),
      FunctionCall(Blank().(kind := "functionCall"), Ident("assert"), [
        BinaryOperation(Blank().(operator := "=="),
                        IndexAccess(Blank(), Ident(mapping), Ident(index)),
                        FunctionCall(Blank().(kind := "functionCall"), Ident(getter), [], 0))], 0),
      Nil, Nil)
  }

  /** `InsertCodeForAssert`: the check for a represented owner, read back
      through the contract's own getter. */
  function InsertCodeForAssert(rep: string, getOwner: string): Node
  {
    AssertStatement(TrackMappingName(rep), TrackName(rep), getOwner)
  }

  /** `InstrumentCodeForAssert`: the check for an owner variable, read back
      through the getter `InstrumentCodeForOwner` added. */
  function InstrumentCodeForAssert(owner: string): Node
  {
    AssertStatement(TrackMappingName(owner), TrackName(owner), TrackFuncName(owner))
  }
  /** A call with no arguments prints as the callee's name and "()". */
  lemma GetterCallText(getter: string, indent: string)
    ensures Sub(Legacy, FunctionCall(Blank().(kind := "functionCall"), Ident(getter), [], 0), indent) == getter + "()"
  {
    var c := FunctionCall(Blank().(kind := "functionCall"), Ident(getter), [], 0);
    IdentText(Legacy, getter, indent);
    assert Items(Legacy, [], CallArgs, false, false, indent) == [];
    assert CallCode(Legacy, c, false, false, indent) == getter + "()";
  }

  /** `m[i]` for two identifiers. */
  lemma IdentIndexText(mapping: string, index: string, indent: string)
    ensures Sub(Legacy, IndexAccess(Blank(), Ident(mapping), Ident(index)), indent) == mapping + "[" + index + "]"
  {
    var ia := IndexAccess(Blank(), Ident(mapping), Ident(index));
    IdentText(Legacy, mapping, indent);
    IdentText(Legacy, index, indent);
    IndexFlat(Legacy, ia, indent);
  }

  /** The compared operands: `m[i] == g()`. */
  lemma AssertConditionText(mapping: string, index: string, getter: string, indent: string)
    ensures var cond := AssertStatement(mapping, index, getter).expression.arguments[0];
            Sub(Legacy, cond, indent) == mapping + "[" + index + "]" + " ==" + " " + getter + "()"
  {
    var cond := AssertStatement(mapping, index, getter).expression.arguments[0];
    IdentIndexText(mapping, index, indent);
    GetterCallText(getter, indent);
    OperationFlat(Legacy, cond, indent);
  }

  /** A call of a named function with one printable argument. */
  lemma SingleArgCallText(c: Node, callee: string, indent: string)
    requires c.FunctionCall? && c.at.kind == "functionCall" && c.expression == Ident(callee)
    requires |c.arguments| == 1 && Accepts(CallArgs, c.arguments[0])
    ensures Sub(Legacy, c, indent) == callee + "(" + Sub(Legacy, c.arguments[0], indent) + ")"
  {
    IdentText(Legacy, callee, indent);
    assert Items(Legacy, c.arguments, CallArgs, false, false, indent) == [Sub(Legacy, c.arguments[0], indent)] by {
      assert c.arguments[1..] == [];
    }
    assert Sub(Legacy, c, indent) == CallCode(Legacy, c, false, false, indent);
  }

  /** The inserted check prints as `assert(MAPPING[INDEX] == GETTER())` at
      the current indent. */
  lemma AssertText(mapping: string, index: string, getter: string, indent: string)
    ensures StatementHead(Legacy, AssertStatement(mapping, index, getter), true, indent) ==
            indent + "assert" + "(" + (mapping + "[" + index + "]" + " ==" + " " + getter + "()") + ")"
  {
    var call := AssertStatement(mapping, index, getter).expression;
    AssertConditionText(mapping, index, getter, indent);
    SingleArgCallText(call, "assert", indent);
  }

  // ---------------------------------------------------------------------------
  // Storage layout comparison

  /** A state variable: its name and its type's text. */
  datatype Var = Var(name: string, typ: string)

  /** The contract's own state variables, in declaration order. */
  function OwnStateVars(ns: seq<Node>): (r: seq<Var>)
    ensures |r| <= |ns|
    ensures forall x :: x in r ==> exists j :: 0 <= j < |ns| && ns[j].VariableDeclaration? && ns[j].at.stateVariable &&
                                             x == Var(ns[j].at.name, ns[j].at.typeString)
    ensures (forall j :: 0 <= j < |ns| ==> !ns[j].VariableDeclaration? || !ns[j].at.stateVariable) ==> r == []
    decreases |ns|
  {
    if |ns| == 0 then []
    else
      var t := OwnStateVars(ns[1..]);
      assert forall j :: 1 <= j < |ns| ==> ns[j] == ns[1..][j - 1];
      if ns[0].VariableDeclaration? && ns[0].at.stateVariable
      then [Var(ns[0].at.name, ns[0].at.typeString)] + t
      else t
  }

  /** The layout of members laid end to end is the two layouts laid end
      to end: declaration order is kept. */
  lemma {:induction false} OwnStateVarsAppend(a: seq<Node>, b: seq<Node>)
    ensures OwnStateVars(a + b) == OwnStateVars(a) + OwnStateVars(b)
    decreases |a|
  {
    if |a| == 0 {
      assert a + b == b;
    } else {
      assert (a + b)[0] == a[0] && (a + b)[1..] == a[1..] + b;
      OwnStateVarsAppend(a[1..], b);
    }
  }

  /** Every state-variable declaration among the members gives an entry
      of the layout. */
  lemma {:induction false} OwnStateVarsComplete(ns: seq<Node>)
    ensures forall j :: 0 <= j < |ns| && ns[j].VariableDeclaration? && ns[j].at.stateVariable ==>
                          Var(ns[j].at.name, ns[j].at.typeString) in OwnStateVars(ns)
    decreases |ns|
  {
    if |ns| > 0 {
      OwnStateVarsComplete(ns[1..]);
      forall j | 1 <= j < |ns| && ns[j].VariableDeclaration? && ns[j].at.stateVariable
        ensures Var(ns[j].at.name, ns[j].at.typeString) in OwnStateVars(ns)
      {
        assert ns[j] == ns[1..][j - 1];
      }
    }
  }

  /** One member contributes its own name and type exactly when it is a
      state variable. */
  lemma OwnStateVarsOne(n: Node)
    ensures OwnStateVars([n]) == if n.VariableDeclaration? && n.at.stateVariable then [Var(n.at.name, n.at.typeString)] else []
  {
    assert [n][1..] == [];
  }

  /** Why a layout could not be collected. */
  const MissingBase := "base contract is not registered"
  const OutOfFuel := "inheritance does not bottom out"

  /** `lookupBaseContract`: the state variables of every linearised base
      (each collected the same way, recursively), then the contract's own.
      A base id the registry lacks is an error (the Go code panics); the
      recursion has no visited set, so `fuel` bounds it and running out is
      reported. */
  function StateVars(c: Node, gn: GlobalNodes, fuel: nat): (r: Result<seq<Var>>)
    requires c.ContractDefinition?
    ensures r.Ok? ==> |r.value| >= |OwnStateVars(c.nodes)| &&
                      r.value[|r.value| - |OwnStateVars(c.nodes)|..] == OwnStateVars(c.nodes)
    ensures fuel == 0 ==> r == Err(OutOfFuel)
    ensures fuel > 0 && (forall k :: 0 <= k < |c.at.linearizedBaseContracts| ==> c.at.linearizedBaseContracts[k] == NodeID(c)) ==>
              r == Ok(OwnStateVars(c.nodes))
    decreases fuel, 0, 0
  {
    if fuel == 0 then Err(OutOfFuel)
    else
      var b := BaseVars(c.at.linearizedBaseContracts, NodeID(c), gn, fuel - 1);
      if b.Err? then Err(b.msg)
      else
        var r := b.value + OwnStateVars(c.nodes);
        assert b.Ok? && b.value == [] ==> r == OwnStateVars(c.nodes);
        assert r[|r| - |OwnStateVars(c.nodes)|..] == OwnStateVars(c.nodes);
        Ok(r)
  }

  /** With fuel left, the layout is the bases' layout followed by the
      contract's own state variables, and it fails exactly when the bases'
      layout does. */
  lemma StateVarsLayout(c: Node, gn: GlobalNodes, fuel: nat)
    requires c.ContractDefinition? && fuel > 0
    ensures var r := StateVars(c, gn, fuel);
            var b := BaseVars(c.at.linearizedBaseContracts, NodeID(c), gn, fuel - 1);
            (r.Ok? <==> b.Ok?) && (r.Ok? ==> r.value == b.value + OwnStateVars(c.nodes))
  {
  }

  function BaseVars(ids: seq<int>, self: int, gn: GlobalNodes, fuel: nat): (r: Result<seq<Var>>)
    ensures (exists k :: 0 <= k < |ids| && ids[k] != self && !Present(gn, ids[k])) ==> r.Err?
    ensures (forall k :: 0 <= k < |ids| ==> ids[k] == self) ==> r == Ok([])
    decreases fuel, 1, |ids|
  {
    if |ids| == 0 then Ok([])
    else
      assert forall k :: 1 <= k < |ids| ==> ids[k] == ids[1..][k - 1];
      if ids[0] == self then BaseVars(ids[1..], self, gn, fuel)
      else if !Present(gn, ids[0]) then Err(MissingBase)
      else
        var h := StateVars(gn.contractsByID[ids[0]], gn, fuel);
        var t := BaseVars(ids[1..], self, gn, fuel);
        if h.Err? then Err(h.msg)
        else if t.Err? then Err(t.msg)
        else Ok(h.value + t.value)
  }

  /** The bases' layouts, in list order: a list of bases laid end to end
      gives the two layouts laid end to end, and the first failure wins. */
  lemma {:induction false} BaseVarsAppend(a: seq<int>, b: seq<int>, self: int, gn: GlobalNodes, fuel: nat)
    ensures var ra := BaseVars(a, self, gn, fuel);
            var rb := BaseVars(b, self, gn, fuel);
            BaseVars(a + b, self, gn, fuel) ==
              if ra.Err? then ra else if rb.Err? then rb else Ok(ra.value + rb.value)
    decreases |a|
  {
    if |a| == 0 {
      assert a + b == b;
      var rb := BaseVars(b, self, gn, fuel);
      if rb.Ok? {
        assert [] + rb.value == rb.value;
      }
    } else {
      assert (a + b)[0] == a[0] && (a + b)[1..] == a[1..] + b;
      BaseVarsAppend(a[1..], b, self, gn, fuel);
      var rb := BaseVars(b, self, gn, fuel);
      if a[0] != self && Present(gn, a[0]) {
        var h := StateVars(gn.contractsByID[a[0]], gn, fuel);
        var t := BaseVars(a[1..], self, gn, fuel);
        if h.Ok? && t.Ok? && rb.Ok? {
          assert h.value + (t.value + rb.value) == (h.value + t.value) + rb.value;
        }
      }
    }
  }

  /** One base id contributes nothing when it is the contract itself, fails
      when the registry lacks it, and is otherwise the base's own layout. */
  lemma BaseVarsOne(id: int, self: int, gn: GlobalNodes, fuel: nat)
    ensures BaseVars([id], self, gn, fuel) ==
            if id == self then Ok([])
            else if !Present(gn, id) then Err(MissingBase)
            else StateVars(gn.contractsByID[id], gn, fuel)
  {
    assert [id][1..] == [];
    if id != self && Present(gn, id) {
      var h := StateVars(gn.contractsByID[id], gn, fuel);
      if h.Ok? {
        assert h.value + [] == h.value;
      }
    }
  }

  /** Two contracts that list each other as bases make the lookup run out
      of fuel, however much it is given: the Go recursion does not end. */
  lemma {:induction false} MutualBasesDiverge(gn: GlobalNodes, a: int, b: int, fuel: nat)
    requires a != b && Present(gn, a) && Present(gn, b)
    requires gn.contractsByID[a].at.id == a && gn.contractsByID[b].at.id == b
    requires gn.contractsByID[a].at.linearizedBaseContracts == [b]
    requires gn.contractsByID[b].at.linearizedBaseContracts == [a]
    ensures StateVars(gn.contractsByID[a], gn, fuel) == Err(OutOfFuel)
    decreases fuel
  {
    if fuel > 0 {
      MutualBasesDiverge(gn, b, a, fuel - 1);
      MutualBasesDivergeStep(gn, a, b, fuel);
    }
  }

  /** One round of the mutual recursion: when the base runs out of fuel one
      level down, so does the contract. */
  lemma MutualBasesDivergeStep(gn: GlobalNodes, a: int, b: int, fuel: nat)
    requires a != b && fuel > 0 && Present(gn, a) && Present(gn, b)
    requires gn.contractsByID[a].at.id == a
    requires gn.contractsByID[a].at.linearizedBaseContracts == [b]
    requires StateVars(gn.contractsByID[b], gn, fuel - 1) == Err(OutOfFuel)
    ensures StateVars(gn.contractsByID[a], gn, fuel) == Err(OutOfFuel)
  {
    var ca := gn.contractsByID[a];
    assert NodeID(ca) == a;
    assert BaseVars([b][1..], a, gn, fuel - 1) == Ok([]);
    assert BaseVars([b], a, gn, fuel - 1) == Err(OutOfFuel);
  }

  /** Some slot holds, in the callee's layout, a candidate owner variable of
      the same type as the caller's variable in that slot. */
  predicate SharedOwnerSlot(caller: seq<Var>, callee: seq<Var>, variables: seq<string>)
  {
    exists i :: 0 <= i < |caller| && i < |callee| && callee[i].name in variables && callee[i].typ == caller[i].typ
  }

  /** The comparison loop of `VerifyVariableDeclarationOrder`. */
  method SameOwnerSlot(caller: seq<Var>, callee: seq<Var>, variables: seq<string>) returns (same: bool)
    ensures same <==> SharedOwnerSlot(caller, callee, variables)
  {
    same := false;
    var i := 0;
    while i < |caller| && i < |callee|
      invariant 0 <= i <= |caller| && i <= |callee| + 1
      invariant i <= |caller| && i <= |callee|
      invariant same <==> exists j :: 0 <= j < i && callee[j].name in variables && callee[j].typ == caller[j].typ
    {
      var k := 0;
      while k < |variables|
        invariant 0 <= k <= |variables|
        invariant same <==> (exists j :: 0 <= j < i && callee[j].name in variables && callee[j].typ == caller[j].typ) ||
                            (callee[i].typ == caller[i].typ && callee[i].name in variables[..k])
      {
        if callee[i].name == variables[k] && callee[i].typ == caller[i].typ {
          same := true;
        }
        assert variables[..k + 1] == variables[..k] + [variables[k]];
        k := k + 1;
      }
      assert variables[..k] == variables;
      i := i + 1;
    }
  }

  /** `VerifyVariableDeclarationOrder`: both layouts are collected (either
      failing fails the check), then compared slot by slot. */
  method VerifyVariableDeclarationOrder(caller: Node, callee: Node, gn: GlobalNodes, variables: seq<string>, fuel: nat)
    returns (r: Result<bool>)
    requires caller.ContractDefinition? && callee.ContractDefinition?
    ensures StateVars(caller, gn, fuel).Err? || StateVars(callee, gn, fuel).Err? <==> r.Err?
    ensures r.Ok? ==> (r.value <==> SharedOwnerSlot(StateVars(caller, gn, fuel).value,
                                                    StateVars(callee, gn, fuel).value, variables))
  {
    var a := StateVars(caller, gn, fuel);
    var b := StateVars(callee, gn, fuel);
    if a.Err? {
      return Err(a.msg);
    }
    if b.Err? {
      return Err(b.msg);
    }
    var same := SameOwnerSlot(a.value, b.value, variables);
    return Ok(same);
  }
}

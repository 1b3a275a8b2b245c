/** The 0.8 instrumentation: the owner is a variable literally named
    "owner" or "_owner", the shadow pair is private and carries fixed
    negative ids, and no getter is added. */
module Inst08 {
  import opened Wrappers
  import opened Ast
  import opened Registry
  import opened Render
  import opened Taint
  import opened Inst05

  /** `IsInheritFromOwnableContract`: the first base, in linearisation
      order and skipping the contract itself, named "Ownable".  A base id
      the registry lacks makes the Go type assertion panic. */
  function IsInheritFromOwnableContract(c: Node, gn: GlobalNodes): (r: Result<Option<Node>>)
    requires c.ContractDefinition?
    ensures r == Ok(None) <==>
              forall j :: 0 <= j < |c.at.linearizedBaseContracts| ==> OwnablePassedOver(gn, c.at.linearizedBaseContracts[j], NodeID(c))
    ensures r.Ok? && r.value.Some? ==>
              exists k :: 0 <= k < |c.at.linearizedBaseContracts| && c.at.linearizedBaseContracts[k] != NodeID(c) &&
                          Present(gn, c.at.linearizedBaseContracts[k]) &&
                          r.value.value == gn.contractsByID[c.at.linearizedBaseContracts[k]] &&
                          r.value.value.at.name == "Ownable" &&
                          forall j :: 0 <= j < k ==> OwnablePassedOver(gn, c.at.linearizedBaseContracts[j], NodeID(c))
    ensures r.Err? ==>
              exists k :: 0 <= k < |c.at.linearizedBaseContracts| && c.at.linearizedBaseContracts[k] != NodeID(c) &&
                          !Present(gn, c.at.linearizedBaseContracts[k]) &&
                          forall j :: 0 <= j < k ==> OwnablePassedOver(gn, c.at.linearizedBaseContracts[j], NodeID(c))
  {
    ScanOwnable(c.at.linearizedBaseContracts, NodeID(c), gn)
  }

  predicate OwnablePassedOver(gn: GlobalNodes, id: int, self: int)
  {
    id == self || (Present(gn, id) && gn.contractsByID[id].at.name != "Ownable")
  }

  function ScanOwnable(ids: seq<int>, self: int, gn: GlobalNodes): (r: Result<Option<Node>>)
    ensures r == Ok(None) <==> forall j :: 0 <= j < |ids| ==> OwnablePassedOver(gn, ids[j], self)
    ensures r.Ok? && r.value.Some? ==>
              exists k :: 0 <= k < |ids| && ids[k] != self && Present(gn, ids[k]) &&
                          r.value.value == gn.contractsByID[ids[k]] && r.value.value.at.name == "Ownable" &&
                          forall j :: 0 <= j < k ==> OwnablePassedOver(gn, ids[j], self)
    ensures r.Err? ==>
              exists k :: 0 <= k < |ids| && ids[k] != self && !Present(gn, ids[k]) &&
                          forall j :: 0 <= j < k ==> OwnablePassedOver(gn, ids[j], self)
  {
    if |ids| == 0 then Ok(None)
    else
      assert forall j :: 1 <= j < |ids| ==> ids[j] == ids[1..][j - 1];
      if ids[0] == self then ScanOwnable(ids[1..], self, gn)
      else if !Present(gn, ids[0]) then Err("base contract is not registered")
      else if gn.contractsByID[ids[0]].at.name == "Ownable" then Ok(Some(gn.contractsByID[ids[0]]))
      else ScanOwnable(ids[1..], self, gn)
  }

  /** The owner variable names 0.8 contracts are searched for. */
  predicate OwnerVariable(m: Node)
  {
    m.VariableDeclaration? && (m.at.name == "owner" || m.at.name == "_owner")
  }

  /** The private shadow variable, id -100, typed by an elementary name with id -101. */
  function PrivateShadowVar(v: string, scope: int): Node
  {
    VariableDeclaration(
      Blank().(id := -100, name := TrackName(v), scope := scope, stateVariable := true,
               storageLocation := "default", visibility := "private", typeString := "bytes"),
      ElementaryTypeName(Blank().(id := -101, name := "bytes", typeString := "bytes")),
      Nil)
  }

  /** The private shadow mapping, id -102, with mapping id -103, key -104 and value -105. */
  function PrivateShadowMapping(v: string): Node
  {
    VariableDeclaration(
      Blank().(id := -102, name := TrackMappingName(v), stateVariable := true,
               storageLocation := "default", visibility := "private",
               typeString := "mapping(bytes => address)"),
      Mapping(Blank().(id := -103, typeString := "mapping(bytes => address)"),
              ElementaryTypeName(Blank().(id := -104, name := "bytes", typeString := "bytes")),
              ElementaryTypeName(Blank().(id := -105, name := "address", stateMutability := "nonpayable",
                                          typeString := "address"))),
      Nil)
  }

  /** The text the duplicate test compares against. */
  function PrivateShadowDecl(v: string): string { "bytes private " + TrackName(v) }

  /** The 0.8 shadow variable prints as "bytes private xxx_track_V". */
  lemma PrivateShadowVarPrints(v: string, scope: int)
    ensures Text(V08, PrivateShadowVar(v, scope), false, false, "") == PrivateShadowDecl(v)
  {
    var n := PrivateShadowVar(v, scope);
    ShadowVarShape(v, scope);
    ElementaryNodeText(V08, n.typeName, "");
    V08DeclText(n);
  }

  lemma ShadowVarShape(v: string, scope: int)
    ensures var n := PrivateShadowVar(v, scope);
            n.VariableDeclaration? && n.value.Nil? && n.at.name == TrackName(v) && n.at.visibility == "private" &&
            n.typeName.ElementaryTypeName? && n.typeName.at.name == "bytes" && n.typeName.at.stateMutability == ""
  {
  }

  /** A 0.8 declaration with an elementary type and no value prints as the
      type, any visibility other than "internal", and the name. */
  lemma V08DeclText(n: Node)
    requires n.VariableDeclaration? && n.typeName.ElementaryTypeName? && n.value.Nil? && n.at.name != ""
    ensures Text(V08, n, false, false, "") ==
            Sub(V08, n.typeName, "")
            + (if n.at.visibility != "" && n.at.visibility != "internal" then " " + n.at.visibility else "")
            + " " + n.at.name
  {
    VarDeclFlat(V08, n, "");
  }

  /** The 0.8 shadow ids are the negative constants -100 to -105, so they
      never clash with an id the compiler assigns. */
  lemma ShadowIdsNegative(v: string, scope: int)
    ensures var p := PrivateShadowVar(v, scope);
            var q := PrivateShadowMapping(v);
            NodeID(p) == -100 && NodeID(p.typeName) == -101 &&
            NodeID(q) == -102 && NodeID(q.typeName) == -103 &&
            NodeID(q.typeName.keyType) == -104 && NodeID(q.typeName.valueType) == -105
  {
    ShadowVarIds(v, scope);
    ShadowMappingIds(v);
  }

  lemma ShadowVarIds(v: string, scope: int)
    ensures var p := PrivateShadowVar(v, scope);
            p.at.id == -100 && p.typeName.at.id == -101
  {
  }

  lemma ShadowMappingIds(v: string)
    ensures var q := PrivateShadowMapping(v);
            q.at.id == -102 && q.typeName.at.id == -103 &&
            q.typeName.keyType.at.id == -104 && q.typeName.valueType.at.id == -105
  {
  }

  /** Append the shadow pair for `v` and run the owner-taint pass. */
  function Protect(c: Node, v: string): (r: Node)
    requires c.ContractDefinition?
    ensures r.ContractDefinition? && r.at == c.at && r.baseContracts == c.baseContracts
    ensures Grows(c.nodes, r.nodes) && |r.nodes| == |c.nodes| + 2
    ensures r.nodes[|c.nodes|] == PrivateShadowVar(v, NodeID(c))
    ensures r.nodes[|c.nodes| + 1] == PrivateShadowMapping(v)
  {
    var a := WithMembers(c, c.nodes + [PrivateShadowVar(v, NodeID(c)), PrivateShadowMapping(v)]);
    assert forall i :: 0 <= i < |c.nodes| ==> a.nodes[i] == c.nodes[i];
    var t := TaintContract(a, OwnerTaint(v)).node;
    assert KeptMember(a.nodes[|c.nodes|], t.nodes[|c.nodes|]);
    assert KeptMember(a.nodes[|c.nodes| + 1], t.nodes[|c.nodes| + 1]);
    t
  }

  /** One member of the loop in `InstrumentCode`. */
  function Step(c: Node, m: Node): (r: Node)
    requires c.ContractDefinition?
    ensures r.ContractDefinition? && r.at == c.at && r.baseContracts == c.baseContracts
    ensures Grows(c.nodes, r.nodes)
    ensures !OwnerVariable(m) ==> r == c
    ensures OwnerVariable(m) && Declares(V08, c.nodes, PrivateShadowDecl(m.at.name)) ==> r == c
    ensures r == c || r == Protect(c, m.at.name)
  {
    if !OwnerVariable(m) then c
    else
      var v := m.at.name;
      PrivateShadowVarPrints(v, NodeID(c));
      if AlreadyDeclared(V08, c.nodes, Text(V08, PrivateShadowVar(v, NodeID(c)), false, false, "")) then c
      else Protect(c, v)
  }

  /** After the step for an owner variable its shadow variable is declared. */
  lemma StepDeclares(c: Node, m: Node)
    requires c.ContractDefinition? && OwnerVariable(m)
    ensures Declares(V08, Step(c, m).nodes, PrivateShadowDecl(m.at.name))
  {
    var v := m.at.name;
    var r := Step(c, m);
    PrivateShadowVarPrints(v, NodeID(c));
    if r != c {
      assert PrintsAs(V08, r.nodes[|c.nodes|], PrivateShadowDecl(v));
    }
  }

  function Loop(c: Node, ms: seq<Node>): (r: Node)
    requires c.ContractDefinition?
    ensures r.ContractDefinition? && r.at == c.at && r.baseContracts == c.baseContracts
    ensures Grows(c.nodes, r.nodes)
    decreases |ms|
  {
    if |ms| == 0 then c
    else
      var s := Step(c, ms[0]);
      var r := Loop(s, ms[1..]);
      GrowsTransitive(c.nodes, s.nodes, r.nodes);
      r
  }

  /** `InstrumentCode`: the loop over the members the contract had when it
      was called. */
  function InstrumentCode(c: Node): (r: Node)
    requires c.ContractDefinition?
    ensures r.ContractDefinition? && r.at == c.at && r.baseContracts == c.baseContracts
    ensures Grows(c.nodes, r.nodes)
  {
    Loop(c, c.nodes)
  }

  /** Every owner variable the loop passes has its shadow variable at the end. */
  lemma {:induction false} LoopDeclares(c: Node, ms: seq<Node>, k: nat)
    requires c.ContractDefinition? && k < |ms| && OwnerVariable(ms[k])
    ensures Declares(V08, Loop(c, ms).nodes, PrivateShadowDecl(ms[k].at.name))
    decreases |ms|
  {
    var s := Step(c, ms[0]);
    var r := Loop(s, ms[1..]);
    assert Loop(c, ms) == r;
    if k == 0 {
      StepDeclares(c, ms[0]);
      GrowsKeepsDeclarations(V08, s.nodes, r.nodes, PrivateShadowDecl(ms[0].at.name));
    } else {
      assert ms[k] == ms[1..][k - 1];
      LoopDeclares(s, ms[1..], k - 1);
    }
  }

  /** Members whose shadow variables are all declared already pass the loop
      unchanged. */
  lemma {:induction false} LoopSkipsDeclared(c: Node, ms: seq<Node>)
    requires c.ContractDefinition?
    requires forall k :: 0 <= k < |ms| && OwnerVariable(ms[k]) ==> Declares(V08, c.nodes, PrivateShadowDecl(ms[k].at.name))
    ensures Loop(c, ms) == c
    decreases |ms|
  {
    if |ms| > 0 {
      assert Step(c, ms[0]) == c;
      assert forall k :: 0 <= k < |ms| - 1 ==> ms[1..][k] == ms[k + 1];
      LoopSkipsDeclared(c, ms[1..]);
    }
  }

  /** After instrumenting, every owner variable among the original members
      has a shadow variable. */
  lemma InstrumentedOwnersDeclared(c: Node)
    requires c.ContractDefinition?
    ensures forall k :: 0 <= k < |c.nodes| && OwnerVariable(c.nodes[k]) ==>
              Declares(V08, InstrumentCode(c).nodes, PrivateShadowDecl(c.nodes[k].at.name))
  {
    forall k | 0 <= k < |c.nodes| && OwnerVariable(c.nodes[k])
      ensures Declares(V08, InstrumentCode(c).nodes, PrivateShadowDecl(c.nodes[k].at.name))
    {
      LoopDeclares(c, c.nodes, k);
    }
  }

  /** Instrumenting twice is instrumenting once: the second run finds every
      shadow variable already declared and changes nothing. */
  lemma InstrumentIdempotent(c: Node)
    requires c.ContractDefinition?
    ensures InstrumentCode(InstrumentCode(c)) == InstrumentCode(c)
  {
    var r := InstrumentCode(c);
    InstrumentedOwnersDeclared(c);
    forall k | 0 <= k < |r.nodes| && OwnerVariable(r.nodes[k])
      ensures Declares(V08, r.nodes, PrivateShadowDecl(r.nodes[k].at.name))
    {
      OwnerAtIndex(c, r, k);
    }
    LoopSkipsDeclared(r, r.nodes);
  }

  /** An owner variable of the instrumented contract is one of the
      original members: everything appended is named `xxx_track_…`. */
  lemma OwnerAtIndex(c: Node, r: Node, k: nat)
    requires c.ContractDefinition? && r == InstrumentCode(c)
    requires k < |r.nodes| && OwnerVariable(r.nodes[k])
    requires forall j :: 0 <= j < |c.nodes| && OwnerVariable(c.nodes[j]) ==>
               Declares(V08, r.nodes, PrivateShadowDecl(c.nodes[j].at.name))
    ensures Declares(V08, r.nodes, PrivateShadowDecl(r.nodes[k].at.name))
  {
    AppendedNotOwners(c, c.nodes, k);
    assert KeptMember(c.nodes[k], r.nodes[k]);
  }

  /** Everything the loop appends is a shadow declaration or an untouched
      copy of an old member, so no owner variable lies past the old members. */
  lemma {:induction false} AppendedNotOwners(c: Node, ms: seq<Node>, k: nat)
    requires c.ContractDefinition?
    requires k < |Loop(c, ms).nodes| && OwnerVariable(Loop(c, ms).nodes[k])
    ensures k < |c.nodes|
    decreases |ms|
  {
    if |ms| > 0 {
      var s := Step(c, ms[0]);
      assert Loop(c, ms) == Loop(s, ms[1..]);
      AppendedNotOwners(s, ms[1..], k);
      if k < |s.nodes| {
        KeptOwner(s.nodes[k], Loop(s, ms[1..]).nodes[k]);
        if s != c {
          ProtectAppendsNoOwner(c, ms[0].at.name, k);
        }
      }
    }
  }

  /** A kept member is an owner variable exactly when the original is. */
  lemma KeptOwner(a: Node, b: Node)
    requires KeptMember(a, b)
    ensures OwnerVariable(a) <==> OwnerVariable(b)
  {
    if a.FunctionDefinition? {
      assert b.FunctionDefinition?;
    } else {
      assert b == a;
    }
  }

  /** The pair `Protect` appends holds no owner variable. */
  lemma ProtectAppendsNoOwner(c: Node, v: string, k: nat)
    requires c.ContractDefinition? && k < |Protect(c, v).nodes|
    ensures OwnerVariable(Protect(c, v).nodes[k]) ==> k < |c.nodes|
  {
    PairNoOwner(c.nodes, Protect(c, v).nodes, v, NodeID(c), k);
  }

  lemma PairNoOwner(before: seq<Node>, ms: seq<Node>, v: string, scope: int, k: nat)
    requires |ms| == |before| + 2 && k < |ms|
    requires ms[|before|] == PrivateShadowVar(v, scope) && ms[|before| + 1] == PrivateShadowMapping(v)
    ensures OwnerVariable(ms[k]) ==> k < |before|
  {
    ShadowPairNames(v, scope);
    ShadowNamesNotOwners(v);
  }

  lemma ShadowPairNames(v: string, scope: int)
    ensures PrivateShadowVar(v, scope).at.name == TrackName(v)
    ensures PrivateShadowMapping(v).at.name == TrackMappingName(v)
  {
  }

  /** The shadow names are never "owner" or "_owner". */
  lemma ShadowNamesNotOwners(v: string)
    ensures TrackName(v) != "owner" && TrackName(v) != "_owner"
    ensures TrackMappingName(v) != "owner" && TrackMappingName(v) != "_owner"
  {
    assert TrackName(v)[0] == 'x' && TrackMappingName(v)[0] == 'x';
  }
}

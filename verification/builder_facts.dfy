/** Laws of the builders: what a built node holds, the `default` label of a
    Yul case, the callee reference of a call, and how a child's error
    reaches the top. */
module BuilderFacts {
  import opened Wrappers
  import opened Ast
  import opened Registry
  import opened Builder

  // ---------------------------------------------------------------------------
  // Single-entry slots

  /** What a one-entry slot holds after building: the node built from the
      entry if it is accepted, and nothing otherwise. */
  lemma {:induction false} SingleSlot(s: SlotSpec, children: seq<Raw>, ns: seq<Node>)
    requires !s.many && !s.padded
    requires Kinds(ns, Expected(s, Items(s, children)))
    ensures var items := Items(s, children);
            (|ns| == 1 <==> |items| == 1 && Accepted(s, items[0])) &&
            (|ns| == 1 ==> Is(ns[0], KindOf(items[0].nodeType).value)) &&
            |ns| <= 1
  {
    var items := Items(s, children);
    if |items| == 1 {
      assert items[1..] == [];
    }
  }

  /** The slot stored under `key` in a filled map. */
  lemma SlotUnder(specs: seq<SlotSpec>, children: seq<Raw>, v: map<string, seq<Node>>, i: int)
    requires Filled(specs, children, v)
    requires 0 <= i < |specs| && forall j :: 0 <= j < |specs| && j != i ==> specs[j].key != specs[i].key
    ensures specs[i].key in v && Kinds(v[specs[i].key], Expected(specs[i], Items(specs[i], children)))
  {
    assert specs[i] in specs;
    var j :| 0 <= j < |specs| && specs[j].key == specs[i].key &&
             Kinds(v[specs[i].key], Expected(specs[j], Items(specs[j], children)));
  }

  // ---------------------------------------------------------------------------
  // Special fields

  /** The Yul case builder reads its body, then its value. */
  lemma CaseSpec(d: Dialect)
    ensures Slots(d, KYulCase) == [One("body", [KYulBlock]), One("value", [KYulLiteral])]
  {
  }

  lemma AssembleCase(at: Attrs, v: map<string, seq<Node>>)
    ensures Assemble(KYulCase, at, v) == YulCase(at, Child(v, "value"), Child(v, "body"))
  {
  }

  /** The value slot of a Yul case holds a Yul literal exactly when the
      value entry is one, and nothing when there is no value. */
  lemma {:induction false} CaseValue(raw: Raw, v: map<string, seq<Node>>)
    requires raw.Object?
    requires Filled([One("body", [KYulBlock]), One("value", [KYulLiteral])], raw.children, v)
    ensures var all := Keyed(raw.children, "value");
            var c := Child(v, "value");
            (Absent(raw, "value") ==> c.Nil?) &&
            (!Absent(raw, "value") ==> (c.YulLiteral? <==> KindOf(all[0].nodeType) == Some(KYulLiteral)))
  {
    SlotUnder([One("body", [KYulBlock]), One("value", [KYulLiteral])], raw.children, v, 1);
    LiteralSlot(raw, v["value"]);
  }

  lemma {:induction false} LiteralSlot(raw: Raw, ns: seq<Node>)
    requires raw.Object?
    requires Kinds(ns, Expected(One("value", [KYulLiteral]), Items(One("value", [KYulLiteral]), raw.children)))
    ensures var all := Keyed(raw.children, "value");
            var c := if |ns| > 0 then ns[0] else Nil;
            (Absent(raw, "value") ==> c.Nil?) &&
            (!Absent(raw, "value") ==> (c.YulLiteral? <==> KindOf(all[0].nodeType) == Some(KYulLiteral)))
  {
    var s := One("value", [KYulLiteral]);
    var entry := Items(s, raw.children);
    SingleSlot(s, raw.children, ns);
    if |entry| == 1 {
      assert entry[0] in entry;
    }
  }

  /** A Yul case built without a value but with a body is the `default`
      case; one with a value entry holds a Yul literal exactly when that
      entry is one, and one with neither has no value. */
  lemma {:induction false} YulCaseDefault(d: Dialect, raw: Raw, gn: GlobalNodes)
    requires raw.Object? && BuildAs(d, KYulCase, raw, gn).result.Ok?
    ensures var n := BuildAs(d, KYulCase, raw, gn).result.value;
            var all := Keyed(raw.children, "value");
            n.YulCase? && n.at == Decoded(raw.at) &&
            (Absent(raw, "value") && !n.body.Nil? ==> n.value == DefaultLabel) &&
            (Absent(raw, "value") && n.body.Nil? ==> n.value.Nil?) &&
            (!Absent(raw, "value") ==> (n.value.YulLiteral? <==> KindOf(all[0].nodeType) == Some(KYulLiteral)))
  {
    var n := BuildAs(d, KYulCase, raw, gn).result.value;
    BuildShape(d, KYulCase, raw, gn);
    var v :| Filled(Slots(d, KYulCase), raw.children, v) &&
             n == Assemble(KYulCase, Decoded(raw.at), DefaultValue(raw, v));
    CaseSpec(d);
    AssembleCase(Decoded(raw.at), DefaultValue(raw, v));
    CaseValue(raw, v);
  }

  // ---------------------------------------------------------------------------
  // Calls and tuples

  lemma CallSpec(d: Dialect)
    ensures Slots(d, KFunctionCall)[0] ==
            One("expression", [KIdentifier, KMemberAccess, KElementaryTypeNameExpression, KNewExpression, KFunctionCallOptions])
  {
  }

  lemma AssembleCall(at: Attrs, v: map<string, seq<Node>>)
    ensures var callee := Child(v, "expression");
            Assemble(KFunctionCall, at, v) == FunctionCall(at, callee, Children(v, "arguments"), RefOf(callee))
  {
  }

  /** A built call refers to the declaration its callee names when the
      callee is an identifier or a member access, and to -1 otherwise. */
  lemma {:induction false} CallReference(d: Dialect, raw: Raw, gn: GlobalNodes)
    requires raw.Object? && BuildAs(d, KFunctionCall, raw, gn).result.Ok?
    ensures var n := BuildAs(d, KFunctionCall, raw, gn).result.value;
            n.FunctionCall? && n.at == Decoded(raw.at) &&
            (n.expression.Identifier? || n.expression.MemberAccess? ==> n.ref == n.expression.at.referencedDeclaration) &&
            (!(n.expression.Identifier? || n.expression.MemberAccess?) ==> n.ref == -1)
  {
    var n := BuildAs(d, KFunctionCall, raw, gn).result.value;
    BuildShape(d, KFunctionCall, raw, gn);
    var v :| Filled(Slots(d, KFunctionCall), raw.children, v) &&
             n == Assemble(KFunctionCall, Decoded(raw.at), v);
    AssembleCall(Decoded(raw.at), v);
  }

  /** A padded list loses no entry that is empty or of an accepted kind. */
  lemma {:induction false} PaddedKeepsAll(s: SlotSpec, items: seq<Raw>)
    requires s.padded
    requires forall x :: x in items ==> x.Empty? || Accepted(s, x)
    ensures |Expected(s, items)| == |items|
    ensures forall i :: 0 <= i < |items| && items[i].Empty? ==> Expected(s, items)[i] == KLiteral
    decreases |items|
  {
    if |items| > 0 {
      assert forall x :: x in items[1..] ==> x in items;
      PaddedKeepsAll(s, items[1..]);
      assert items[0] in items;
      var head := if Accepted(s, items[0]) then [KindOf(items[0].nodeType).value] else [KLiteral];
      assert Expected(s, items) == head + Expected(s, items[1..]);
      forall i | 1 <= i < |items| && items[i].Empty?
        ensures Expected(s, items)[i] == KLiteral
      {
        assert items[1..][i - 1] == items[i];
      }
    }
  }

  lemma TupleSpec(d: Dialect)
    ensures Slots(d, KTupleExpression) == [Components]
  {
  }

  lemma AssembleTuple(at: Attrs, v: map<string, seq<Node>>)
    ensures Assemble(KTupleExpression, at, v) == TupleExpression(at, Children(v, "components"))
  {
  }

  /** A tuple whose components are all empty or of a known kind keeps one
      component per entry, with a number literal in each empty position. */
  lemma {:induction false} TupleComponents(d: Dialect, raw: Raw, gn: GlobalNodes)
    requires raw.Object? && BuildAs(d, KTupleExpression, raw, gn).result.Ok?
    requires forall x :: x in Keyed(raw.children, "components") ==> x.Empty? || Accepted(Components, x)
    ensures var n := BuildAs(d, KTupleExpression, raw, gn).result.value;
            var all := Keyed(raw.children, "components");
            n.TupleExpression? && |n.components| == |all| &&
            forall i :: 0 <= i < |all| && all[i].Empty? ==> n.components[i].Literal?
  {
    var n := BuildAs(d, KTupleExpression, raw, gn).result.value;
    BuildShape(d, KTupleExpression, raw, gn);
    var v :| Filled(Slots(d, KTupleExpression), raw.children, v) &&
             n == Assemble(KTupleExpression, Decoded(raw.at), v);
    TupleSpec(d);
    AssembleTuple(Decoded(raw.at), v);
    ComponentSlot(Components, raw, v);
  }

  lemma {:induction false} ComponentSlot(s: SlotSpec, raw: Raw, v: map<string, seq<Node>>)
    requires raw.Object? && s.many && s.padded && s.key == "components"
    requires Filled([s], raw.children, v)
    requires forall x :: x in Keyed(raw.children, "components") ==> x.Empty? || Accepted(s, x)
    ensures var all := Keyed(raw.children, "components");
            var c := Children(v, "components");
            |c| == |all| && forall i :: 0 <= i < |all| && all[i].Empty? ==> c[i].Literal?
  {
    SlotUnder([s], raw.children, v, 0);
    var all := Items(s, raw.children);
    PaddedKeepsAll(s, all);
    var c := v["components"];
    forall i | 0 <= i < |all| && all[i].Empty?
      ensures c[i].Literal?
    {
      assert Is(c[i], Expected(s, all)[i]);
    }
  }

  // ---------------------------------------------------------------------------
  // The registry and errors

  /** What a builder returns does not depend on the registry it starts
      from: the registry is only written. */
  lemma {:induction false} AsIgnoresRegistry(d: Dialect, k: Kind, raw: Raw, g1: GlobalNodes, g2: GlobalNodes)
    requires raw.Object?
    ensures BuildAs(d, k, raw, g1).result == BuildAs(d, k, raw, g2).result
    decreases raw, 2
  {
    if raw.decodes {
      var specs := Slots(d, k);
      SlotsIgnoreRegistry(d, raw, specs, g1, g2);
      SameSlotsSameNode(d, k, raw, g1, g2);
    }
  }

  /** A node's result is made from its slots' result alone. */
  lemma SameSlotsSameNode(d: Dialect, k: Kind, raw: Raw, g1: GlobalNodes, g2: GlobalNodes)
    requires raw.Object? && raw.decodes
    requires BuildSlots(d, raw, Slots(d, k), g1).result == BuildSlots(d, raw, Slots(d, k), g2).result
    ensures BuildAs(d, k, raw, g1).result == BuildAs(d, k, raw, g2).result
  {
  }

  lemma {:induction false} SlotsIgnoreRegistry(d: Dialect, parent: Raw, specs: seq<SlotSpec>, g1: GlobalNodes, g2: GlobalNodes)
    requires parent.Object?
    ensures BuildSlots(d, parent, specs, g1).result == BuildSlots(d, parent, specs, g2).result
    decreases parent, 1, |specs|
  {
    if |specs| > 0 {
      var items := Items(specs[0], parent.children);
      ItemsIgnoreRegistry(d, parent, specs[0], items, g1, g2);
      var f1 := BuildItems(d, parent, specs[0], items, g1);
      var f2 := BuildItems(d, parent, specs[0], items, g2);
      if f1.result.Ok? {
        SlotsIgnoreRegistry(d, parent, specs[1..], f1.gn, f2.gn);
      }
    }
  }

  lemma {:induction false} ItemsIgnoreRegistry(d: Dialect, parent: Raw, s: SlotSpec, items: seq<Raw>, g1: GlobalNodes, g2: GlobalNodes)
    requires parent.Object? && forall x :: x in items ==> x in parent.children
    ensures BuildItems(d, parent, s, items, g1).result == BuildItems(d, parent, s, items, g2).result
    decreases parent, 0, |items|, 1
  {
    if |items| > 0 {
      if Accepted(s, items[0]) {
        AcceptedIgnoresRegistry(d, parent, s, items, g1, g2);
      } else {
        assert forall y :: y in items[1..] ==> y in items;
        ItemsIgnoreRegistry(d, parent, s, items[1..], g1, g2);
      }
    }
  }

  lemma {:induction false} AcceptedIgnoresRegistry(d: Dialect, parent: Raw, s: SlotSpec, items: seq<Raw>, g1: GlobalNodes, g2: GlobalNodes)
    requires parent.Object? && forall x :: x in items ==> x in parent.children
    requires |items| > 0 && Accepted(s, items[0])
    ensures BuildAccepted(d, parent, s, items, g1).result == BuildAccepted(d, parent, s, items, g2).result
    decreases parent, 0, |items|, 0
  {
    var x := items[0];
    assert x in items && forall y :: y in items[1..] ==> y in items;
    var k := KindOf(x.nodeType).value;
    AsIgnoresRegistry(d, k, x, g1, g2);
    var o1 := BuildAs(d, k, x, g1);
    var o2 := BuildAs(d, k, x, g2);
    if o1.result.Ok? {
      ItemsIgnoreRegistry(d, parent, s, items[1..], o1.gn, o2.gn);
    }
  }

  /** Building `raw` as `k` fails whatever the registry. */
  ghost predicate AsFails(d: Dialect, k: Kind, raw: Raw)
    requires raw.Object?
  {
    forall g :: BuildAs(d, k, raw, g).result.Err?
  }

  /** Building `items` fails whatever the registry. */
  ghost predicate ItemsFail(d: Dialect, parent: Raw, s: SlotSpec, items: seq<Raw>)
    requires parent.Object? && forall x :: x in items ==> x in parent.children
  {
    forall g :: BuildItems(d, parent, s, items, g).result.Err?
  }

  /** An accepted entry whose build fails makes its whole slot fail,
      whatever the registry. */
  lemma {:induction false} EntryErrorAborts(d: Dialect, parent: Raw, s: SlotSpec, items: seq<Raw>, i: int, ki: Kind)
    requires parent.Object? && forall x :: x in items ==> x in parent.children
    requires 0 <= i < |items| && Accepted(s, items[i]) && KindOf(items[i].nodeType) == Some(ki)
    requires AsFails(d, ki, items[i])
    ensures ItemsFail(d, parent, s, items)
  {
    FailingEntryAborts(d, parent, s, items, i, items[i], ki);
  }

  /** Failure spreads from the failing entry back to the front of the
      slot, one entry at a time. */
  lemma FailingEntryAborts(d: Dialect, parent: Raw, s: SlotSpec, items: seq<Raw>, i: int, x: Raw, ki: Kind)
    requires parent.Object? && forall y :: y in items ==> y in parent.children
    requires 0 <= i < |items| && items[i] == x && Accepted(s, x) && KindOf(x.nodeType) == Some(ki)
    requires x.Object? && AsFails(d, ki, x)
    ensures ItemsFail(d, parent, s, items)
  {
    SliceChildren(parent, items, i);
    assert items[i..][0] == x;
    FirstFails(d, parent, s, items[i..], ki);
    var j := i;
    while j > 0
      invariant 0 <= j <= i
      invariant forall y :: y in items[j..] ==> y in parent.children
      invariant ItemsFail(d, parent, s, items[j..])
    {
      j := j - 1;
      SliceChildren(parent, items, j);
      assert items[j..][1..] == items[j + 1..];
      RestFails(d, parent, s, items[j..]);
    }
    assert items[0..] == items;
  }

  lemma SliceChildren(parent: Raw, items: seq<Raw>, j: nat)
    requires parent.Object? && j <= |items| && forall y :: y in items ==> y in parent.children
    ensures forall y :: y in items[j..] ==> y in parent.children
  {
    assert forall y :: y in items[j..] ==> y in items;
  }

  /** An accepted first entry that fails fails the slot. */
  lemma FirstFails(d: Dialect, parent: Raw, s: SlotSpec, items: seq<Raw>, ki: Kind)
    requires parent.Object? && forall x :: x in items ==> x in parent.children
    requires |items| > 0 && Accepted(s, items[0]) && KindOf(items[0].nodeType) == Some(ki)
    requires items[0].Object? && AsFails(d, ki, items[0])
    ensures ItemsFail(d, parent, s, items)
  {
    forall g
      ensures BuildItems(d, parent, s, items, g).result.Err?
    {
      FirstFailsAt(d, parent, s, items, g, ki);
    }
  }

  lemma FirstFailsAt(d: Dialect, parent: Raw, s: SlotSpec, items: seq<Raw>, gn: GlobalNodes, ki: Kind)
    requires parent.Object? && forall x :: x in items ==> x in parent.children
    requires |items| > 0 && Accepted(s, items[0]) && KindOf(items[0].nodeType) == Some(ki)
    requires BuildAs(d, ki, items[0], gn).result.Err?
    ensures BuildItems(d, parent, s, items, gn).result.Err?
  {
    assert BuildItems(d, parent, s, items, gn) == BuildAccepted(d, parent, s, items, gn);
  }

  /** A rest that fails on every registry fails the slot. */
  lemma RestFails(d: Dialect, parent: Raw, s: SlotSpec, items: seq<Raw>)
    requires parent.Object? && forall x :: x in items ==> x in parent.children
    requires |items| > 0 && (forall y :: y in items[1..] ==> y in parent.children) && ItemsFail(d, parent, s, items[1..])
    ensures ItemsFail(d, parent, s, items)
  {
    forall g
      ensures BuildItems(d, parent, s, items, g).result.Err?
    {
      if Accepted(s, items[0]) {
        AcceptedRestFails(d, parent, s, items, g);
        assert BuildItems(d, parent, s, items, g) == BuildAccepted(d, parent, s, items, g);
      } else {
        assert BuildItems(d, parent, s, items[1..], g).result.Err?;
      }
    }
  }

  lemma AcceptedRestFails(d: Dialect, parent: Raw, s: SlotSpec, items: seq<Raw>, gn: GlobalNodes)
    requires parent.Object? && forall x :: x in items ==> x in parent.children
    requires |items| > 0 && Accepted(s, items[0])
    requires forall g :: BuildItems(d, parent, s, items[1..], g).result.Err?
    ensures BuildAccepted(d, parent, s, items, gn).result.Err?
  {
    var one := BuildAs(d, KindOf(items[0].nodeType).value, items[0], gn);
    if one.result.Ok? {
      assert BuildItems(d, parent, s, items[1..], one.gn).result.Err?;
    }
  }

  /** A slot that fails makes the whole list of slots fail. */
  lemma {:induction false} SlotErrorAborts(d: Dialect, parent: Raw, specs: seq<SlotSpec>, gn: GlobalNodes, j: int)
    requires parent.Object? && 0 <= j < |specs|
    requires BuildItems(d, parent, specs[j], Items(specs[j], parent.children), gn).result.Err?
    ensures BuildSlots(d, parent, specs, gn).result.Err?
    decreases j
  {
    var first := BuildItems(d, parent, specs[0], Items(specs[0], parent.children), gn);
    if j > 0 && first.result.Ok? {
      ItemsIgnoreRegistry(d, parent, specs[j], Items(specs[j], parent.children), gn, first.gn);
      SlotErrorAborts(d, parent, specs[1..], first.gn, j - 1);
    }
  }

  /** The first error anywhere below a node is the node's error: an
      accepted child whose build fails makes the parent's build fail. */
  lemma {:induction false} ChildErrorAborts(d: Dialect, k: Kind, raw: Raw, gn: GlobalNodes, j: int, i: int)
    requires raw.Object? && 0 <= j < |Slots(d, k)|
    requires var s := Slots(d, k)[j];
             var items := Items(s, raw.children);
             0 <= i < |items| && Accepted(s, items[i]) &&
             BuildAs(d, KindOf(items[i].nodeType).value, items[i], gn).result.Err?
    ensures BuildAs(d, k, raw, gn).result.Err?
  {
    var specs := Slots(d, k);
    if raw.decodes {
      var s := specs[j];
      var items := Items(s, raw.children);
      var ki := KindOf(items[i].nodeType).value;
      forall g
        ensures BuildAs(d, ki, items[i], g).result.Err?
      {
        AsIgnoresRegistry(d, ki, items[i], gn, g);
      }
      assert AsFails(d, ki, items[i]);
      EntryErrorAborts(d, raw, s, items, i, ki);
      assert BuildItems(d, raw, s, items, gn).result.Err?;
      SlotErrorAborts(d, raw, specs, gn, j);
      SlotsErrorNodeError(d, k, raw, gn);
    }
  }

  lemma SlotsErrorNodeError(d: Dialect, k: Kind, raw: Raw, gn: GlobalNodes)
    requires raw.Object? && raw.decodes && BuildSlots(d, raw, Slots(d, k), gn).result.Err?
    ensures BuildAs(d, k, raw, gn).result.Err?
  {
  }

  // ---------------------------------------------------------------------------
  // Contracts

  /** A legacy contract registers itself after its children: once built, it
      is indexed by id and by name, and its member list holds, in order, a
      node for every member entry of a kind the builder knows. */
  lemma LegacyContractRegistered(raw: Raw, gn: GlobalNodes)
    requires raw.Object?
    ensures var r := BuildAs(Legacy, KContractDefinition, raw, gn);
            r.result.Ok? ==>
              var c := r.result.value;
              c.ContractDefinition? &&
              c.at.id in r.gn.contractsByID && r.gn.contractsByID[c.at.id] == c &&
              c.at.name in r.gn.contractsByName && r.gn.contractsByName[c.at.name] == c &&
              Kinds(c.nodes, Expected(Many("nodes", ContractMembers), Items(Many("nodes", ContractMembers), raw.children)))
  {
    ContractRegistersLast(raw, gn);
    ContractMembersBuilt(raw, gn);
  }

  lemma ContractRegistersLast(raw: Raw, gn: GlobalNodes)
    requires raw.Object?
    ensures var r := BuildAs(Legacy, KContractDefinition, raw, gn);
            r.result.Ok? ==>
              r.gn == AddASTNode(BuildSlots(Legacy, raw, Slots(Legacy, KContractDefinition), gn).gn, r.result.value)
  {
  }

  lemma ContractMembersBuilt(raw: Raw, gn: GlobalNodes)
    requires raw.Object?
    ensures var r := BuildAs(Legacy, KContractDefinition, raw, gn);
            r.result.Ok? ==>
              r.result.value.ContractDefinition? &&
              Kinds(r.result.value.nodes, Expected(Many("nodes", ContractMembers), Items(Many("nodes", ContractMembers), raw.children)))
  {
    var r := BuildAs(Legacy, KContractDefinition, raw, gn);
    if r.result.Ok? {
      var n := r.result.value;
      BuildShape(Legacy, KContractDefinition, raw, gn);
      var v :| Filled(Slots(Legacy, KContractDefinition), raw.children, v) &&
               n == Assemble(KContractDefinition, Decoded(raw.at), v);
      ContractSpec();
      AssembleContract(Decoded(raw.at), v);
      MemberSlot(raw, v);
    }
  }

  lemma MemberSlot(raw: Raw, v: map<string, seq<Node>>)
    requires raw.Object?
    requires Filled([Many("baseContracts", [KInheritanceSpecifier]), Many("nodes", ContractMembers)], raw.children, v)
    ensures Kinds(Children(v, "nodes"), Expected(Many("nodes", ContractMembers), Items(Many("nodes", ContractMembers), raw.children)))
  {
    SlotUnder([Many("baseContracts", [KInheritanceSpecifier]), Many("nodes", ContractMembers)], raw.children, v, 1);
  }

  /** The legacy contract builder reads its bases, then its members. */
  lemma ContractSpec()
    ensures Slots(Legacy, KContractDefinition) ==
            [Many("baseContracts", [KInheritanceSpecifier]), Many("nodes", ContractMembers)]
  {
  }

  lemma AssembleContract(at: Attrs, v: map<string, seq<Node>>)
    ensures Assemble(KContractDefinition, at, v) ==
            ContractDefinition(at, Children(v, "baseContracts"), Children(v, "nodes"))
  {
  }

  /** A member-less function entry builds to a bare function definition,
      which enters the function index. */
  lemma BareFunctionBuilds(tag: string, at: Attrs, gn: GlobalNodes)
    ensures var r := BuildAs(Legacy, KFunctionDefinition, Object("nodes", tag, true, at, []), gn);
            r == Built(Ok(BareFunction(at)), AddASTNode(gn, BareFunction(at)))
  {
    var raw := Object("nodes", tag, true, at, []);
    var specs := Slots(Legacy, KFunctionDefinition);
    NothingToBuild(raw, specs, gn);
    var vals := BuildSlots(Legacy, raw, specs, gn).result.value;
    RegisteringBuild(Legacy, KFunctionDefinition, raw, gn);
    MakeAssembles(KFunctionDefinition, raw, specs, vals);
    var v := SlotMap(specs, vals);
    SlotMapFilled(specs, raw.children, vals);
    EmptySlots(specs, v);
    AssembleFunction(Decoded(raw.at), v);
  }

  /** The function a bare function entry builds to. */
  function BareFunction(at: Attrs): Node
  {
    FunctionDefinition(Decoded(at), Nil, Nil, [], Nil, Nil)
  }

  lemma AssembleFunction(at: Attrs, v: map<string, seq<Node>>)
    requires forall key :: key in v ==> v[key] == []
    ensures Assemble(KFunctionDefinition, at, v) == FunctionDefinition(at, Nil, Nil, [], Nil, Nil)
  {
    assert Child(v, "parameters") == Nil && Child(v, "returnParameters") == Nil;
    assert Children(v, "modifiers") == [] && Child(v, "overrides") == Nil && Child(v, "body") == Nil;
  }

  /** With no children there is nothing to build and nothing registered. */
  lemma NothingToBuild(raw: Raw, specs: seq<SlotSpec>, gn: GlobalNodes)
    requires raw.Object? && raw.children == []
    ensures BuildSlots(Legacy, raw, specs, gn).result.Ok? && BuildSlots(Legacy, raw, specs, gn).gn == gn
  {
    assert NoneAccepted(specs, raw.children);
  }

  /** Slots filled from no children are all empty. */
  lemma EmptySlots(specs: seq<SlotSpec>, v: map<string, seq<Node>>)
    requires Filled(specs, [], v)
    ensures forall key :: key in v ==> v[key] == []
  {
    forall key | key in v
      ensures v[key] == []
    {
      var i :| 0 <= i < |specs| && specs[i].key == key && Kinds(v[key], Expected(specs[i], Items(specs[i], [])));
      assert Items(specs[i], []) == [];
    }
  }

  /** A slot with one accepted entry holds what that entry builds to. */
  lemma OneAcceptedItem(d: Dialect, parent: Raw, s: SlotSpec, x: Raw, gn: GlobalNodes)
    requires parent.Object? && x in parent.children && Accepted(s, x)
    ensures var one := BuildAs(d, KindOf(x.nodeType).value, x, gn);
            BuildItems(d, parent, s, [x], gn) ==
              if one.result.Err? then Built(Err(one.result.msg), one.gn) else Built(Ok([one.result.value]), one.gn)
  {
    var items := [x];
    assert items[0] == x && items[1..] == [];
    assert BuildItems(d, parent, s, items, gn) == BuildAccepted(d, parent, s, items, gn);
    var one := BuildAs(d, KindOf(x.nodeType).value, x, gn);
    if one.result.Ok? {
      assert BuildItems(d, parent, s, items[1..], one.gn) == Built(Ok([]), one.gn);
      assert [one.result.value] + [] == [one.result.value];
      assert BuildAccepted(d, parent, s, items, gn) == Built(Ok([one.result.value]), one.gn);
    } else {
      assert BuildAccepted(d, parent, s, items, gn) == Built(Err(one.result.msg), one.gn);
    }
  }

  /** Two slots that both build hold what each built, the second from
      the registry the first left. */
  lemma TwoSlots(d: Dialect, parent: Raw, a: SlotSpec, b: SlotSpec, gn: GlobalNodes)
    requires parent.Object?
    ensures var first := BuildItems(d, parent, a, Items(a, parent.children), gn);
            var second := BuildItems(d, parent, b, Items(b, parent.children), first.gn);
            first.result.Ok? && second.result.Ok? ==>
              BuildSlots(d, parent, [a, b], gn) == Built(Ok([first.result.value, second.result.value]), second.gn)
  {
    var specs := [a, b];
    var first := BuildItems(d, parent, a, Items(a, parent.children), gn);
    var second := BuildItems(d, parent, b, Items(b, parent.children), first.gn);
    if first.result.Ok? && second.result.Ok? {
      assert specs[0] == a && specs[1..] == [b] && specs[1..][0] == b && specs[1..][1..] == [];
      assert BuildSlots(d, parent, specs[1..][1..], second.gn) == Built(Ok([]), second.gn);
      assert [second.result.value] + [] == [second.result.value];
      assert BuildSlots(d, parent, specs[1..], first.gn) == Built(Ok([second.result.value]), second.gn);
      assert [first.result.value] + [second.result.value] == [first.result.value, second.result.value];
    }
  }

  /** A registering kind whose slots build is the node made from them,
      added to the registry the slots left. */
  lemma RegisteringBuild(d: Dialect, k: Kind, raw: Raw, gn: GlobalNodes)
    requires raw.Object? && raw.decodes && Registers(d, k)
    ensures var built := BuildSlots(d, raw, Slots(d, k), gn);
            built.result.Ok? ==>
              var n := Make(k, raw, Slots(d, k), built.result.value);
              BuildAs(d, k, raw, gn) == Built(Ok(n), AddASTNode(built.gn, n))
  {
  }

  /** Outside a Yul `case`, the node made is the one assembled from the
      slot map. */
  lemma MakeAssembles(k: Kind, raw: Raw, specs: seq<SlotSpec>, vals: seq<seq<Node>>)
    requires raw.Object? && |vals| == |specs| && k != KYulCase
    requires forall i :: 0 <= i < |vals| ==> Kinds(vals[i], Expected(specs[i], Items(specs[i], raw.children)))
    ensures Make(k, raw, specs, vals) == Assemble(k, Decoded(raw.at), SlotMap(specs, vals))
  {
  }

  /** A contract's `nodes` slot holding one bare function entry builds
      to that function, registered. */
  lemma FunctionMemberBuilds(ftag: string, fat: Attrs, craw: Raw, gn: GlobalNodes)
    requires ftag == Name(KFunctionDefinition)
    requires craw.Object? && Object("nodes", ftag, true, fat, []) in craw.children
    ensures var f := BareFunction(fat);
            BuildItems(Legacy, craw, Many("nodes", ContractMembers), [Object("nodes", ftag, true, fat, [])], gn)
              == Built(Ok([f]), AddASTNode(gn, f))
  {
    var fraw := Object("nodes", ftag, true, fat, []);
    var f := BareFunction(fat);
    var members := Many("nodes", ContractMembers);
    TagKinds(ftag, KFunctionDefinition);
    assert KFunctionDefinition in ContractMembers;
    OneAcceptedItem(Legacy, craw, members, fraw, gn);
    BareFunctionBuilds(ftag, fat, gn);
  }

  /** The two slots of a contract whose only child is a bare function
      entry: no bases, and the function as the one member. */
  lemma ContractSlotsBuild(ftag: string, fat: Attrs, cat: Attrs, gn: GlobalNodes)
    requires ftag == Name(KFunctionDefinition)
    ensures var fraw := Object("nodes", ftag, true, fat, []);
            var craw := Object("nodes", Name(KContractDefinition), true, cat, [fraw]);
            var f := BareFunction(fat);
            BuildSlots(Legacy, craw, Slots(Legacy, KContractDefinition), gn) == Built(Ok([[], [f]]), AddASTNode(gn, f))
  {
    var fraw := Object("nodes", ftag, true, fat, []);
    var craw := Object("nodes", Name(KContractDefinition), true, cat, [fraw]);
    var members := Many("nodes", ContractMembers);
    var bases := Many("baseContracts", [KInheritanceSpecifier]);
    ContractSpec();
    assert Items(bases, craw.children) == [];
    assert Items(members, craw.children) == [fraw];
    assert BuildItems(Legacy, craw, bases, [], gn) == Built(Ok([]), gn);
    FunctionMemberBuilds(ftag, fat, craw, gn);
    TwoSlots(Legacy, craw, bases, members, gn);
  }

  /** A contract entry whose one member is a bare function entry builds to
      the contract holding that function; the function is registered
      first, then the contract. */
  lemma ContractWithFunction(ftag: string, fat: Attrs, cat: Attrs, gn: GlobalNodes)
    requires ftag == Name(KFunctionDefinition)
    ensures var fraw := Object("nodes", ftag, true, fat, []);
            var craw := Object("nodes", Name(KContractDefinition), true, cat, [fraw]);
            var f := BareFunction(fat);
            var c := ContractDefinition(Decoded(cat), [], [f]);
            BuildAs(Legacy, KContractDefinition, craw, gn) == Built(Ok(c), AddASTNode(AddASTNode(gn, f), c))
  {
    var fraw := Object("nodes", ftag, true, fat, []);
    var craw := Object("nodes", Name(KContractDefinition), true, cat, [fraw]);
    var f := BareFunction(fat);
    var specs := Slots(Legacy, KContractDefinition);
    ContractSpec();
    ContractSlotsBuild(ftag, fat, cat, gn);
    RegisteringBuild(Legacy, KContractDefinition, craw, gn);
    var vals := BuildSlots(Legacy, craw, specs, gn).result.value;
    MakeAssembles(KContractDefinition, craw, specs, vals);
    var v := SlotMap(specs, vals);
    ContractSlotMap(specs, vals, f);
    AssembleContract(Decoded(cat), v);
  }

  /** The slot map of a contract with no bases and one member. */
  lemma ContractSlotMap(specs: seq<SlotSpec>, vals: seq<seq<Node>>, f: Node)
    requires specs == [Many("baseContracts", [KInheritanceSpecifier]), Many("nodes", ContractMembers)]
    requires vals == [[], [f]]
    ensures Children(SlotMap(specs, vals), "nodes") == [f] && Children(SlotMap(specs, vals), "baseContracts") == []
  {
    assert SlotMap(specs[1..], vals[1..]) == map["nodes" := [f]];
  }

  /** One slot that builds holds what it built. */
  lemma OneSlot(d: Dialect, parent: Raw, a: SlotSpec, gn: GlobalNodes)
    requires parent.Object?
    ensures var first := BuildItems(d, parent, a, Items(a, parent.children), gn);
            first.result.Ok? ==> BuildSlots(d, parent, [a], gn) == Built(Ok([first.result.value]), first.gn)
  {
    var specs := [a];
    var first := BuildItems(d, parent, a, Items(a, parent.children), gn);
    if first.result.Ok? {
      assert specs[0] == a && specs[1..] == [];
      assert BuildSlots(d, parent, specs[1..], first.gn) == Built(Ok([]), first.gn);
      assert [first.result.value] + [] == [first.result.value];
    }
  }

  /** The kinds a legacy source unit builds, in its `nodes` list. */
  lemma UnitSpec()
    ensures Slots(Legacy, KSourceUnit) == [Many("nodes", [KPragmaDirective, KContractDefinition, KVariableDeclaration])]
  {
  }

  lemma AssembleUnit(at: Attrs, v: map<string, seq<Node>>)
    ensures Assemble(KSourceUnit, at, v) == SourceUnit(at, Children(v, "nodes"))
  {
  }

  /** A legacy source unit whose one entry is a contract entry whose one
      member is a bare function entry: the function, the contract and the
      unit are registered in that order. */
  lemma UnitWithContract(ftag: string, fat: Attrs, cat: Attrs, uat: Attrs, gn: GlobalNodes)
    requires ftag == Name(KFunctionDefinition)
    ensures var fraw := Object("nodes", ftag, true, fat, []);
            var craw := Object("nodes", Name(KContractDefinition), true, cat, [fraw]);
            var f := BareFunction(fat);
            var c := ContractDefinition(Decoded(cat), [], [f]);
            var su := SourceUnit(Decoded(uat), [c]);
            BuildAs(Legacy, KSourceUnit, Object("", Name(KSourceUnit), true, uat, [craw]), gn) ==
              Built(Ok(su), AddASTNode(AddASTNode(AddASTNode(gn, f), c), su))
  {
    var fraw := Object("nodes", ftag, true, fat, []);
    var craw := Object("nodes", Name(KContractDefinition), true, cat, [fraw]);
    var uraw := Object("", Name(KSourceUnit), true, uat, [craw]);
    var f := BareFunction(fat);
    var c := ContractDefinition(Decoded(cat), [], [f]);
    var g2 := AddASTNode(AddASTNode(gn, f), c);
    var entries := Many("nodes", [KPragmaDirective, KContractDefinition, KVariableDeclaration]);
    UnitSpec();
    TagKinds(Name(KContractDefinition), KContractDefinition);
    assert Accepted(entries, craw);
    assert Items(entries, uraw.children) == [craw];
    OneAcceptedItem(Legacy, uraw, entries, craw, gn);
    ContractWithFunction(ftag, fat, cat, gn);
    OneSlot(Legacy, uraw, entries, gn);
    RegisteringBuild(Legacy, KSourceUnit, uraw, gn);
    MakeAssembles(KSourceUnit, uraw, [entries], [[c]]);
    AssembleUnit(Decoded(uat), SlotMap([entries], [[c]]));
  }
}

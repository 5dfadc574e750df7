/**
 The macro connects of the DYD file: which of them have their macro connector in
 the file, and that both their ends are declared.
 */
module ConnectorLaws {
  import opened Wrappers
  import opened Reachability
  import opened Generators
  import opened MacroConnections
  import opened DynModels
  import opened Dyd
  import opened WriterLaws

  ghost predicate HasConnector(connectors: seq<MacroConnector>, id: Id) {
    exists c :: c in connectors && c.id == id
  }

  predicate IsConstantConnector(id: Id) {
    id in {MACRO_CONNECTOR_GEN, MACRO_CONNECTOR_GEN_SIGNALN, MACRO_CONNECTOR_LOAD, MACRO_CONNECTOR_SVARC}
  }

  lemma {:induction false} FirstMacroFinds(macros: seq<MacroConnector>, id: Id)
    ensures match FirstMacro(macros, id)
            case Some(m) => m in macros && m.id == id
            case None => !HasConnector(macros, id)
    decreases |macros|
  {
    if macros != [] {
      FirstMacroFinds(macros[..|macros| - 1], id);
    }
  }

  /** A used macro connection has its connector exactly if the document defines it. */
  lemma {:induction false} UsedConnectorsExactly(macros: seq<MacroConnector>, used: seq<Id>, id: Id)
    ensures HasConnector(UsedConnectors(macros, used), id) <==> id in used && HasConnector(macros, id)
    decreases |used|
  {
    if used != [] {
      var n := |used| - 1;
      UsedConnectorsExactly(macros, used[..n], id);
      FirstMacroFinds(macros, used[n]);
      assert used == used[..n] + [used[n]];
      var before, after := UsedConnectors(macros, used[..n]), UsedConnectors(macros, used);
      assert forall c <- before :: c in after;
      match FirstMacro(macros, used[n])
      case Some(m) => assert after == before + [m] && m in after;
      case None => assert after == before;
    }
  }

  lemma ConstantConnectors(id: Id)
    ensures HasConnector(ConstantMacroConnectors(), id) <==> IsConstantConnector(id)
  {
    var cs := ConstantMacroConnectors();
    assert cs[0] in cs && cs[1] in cs && cs[2] in cs && cs[3] in cs;
  }

  /** The macro connectors of the file. */
  lemma FileConnectors(d: Definition, id: Id)
    ensures HasConnector(FileMacroConnectors(d), id)
       <==> IsConstantConnector(id) || (id in d.usedMacroConnections && HasConnector(d.doc.macroConnections, id))
  {
    ConstantConnectors(id);
    UsedConnectorsExactly(d.doc.macroConnections, d.usedMacroConnections, id);
    var cs := FileMacroConnectors(d);
    assert forall c <- ConstantMacroConnectors() :: c in cs;
    assert forall c <- UsedConnectors(d.doc.macroConnections, d.usedMacroConnections) :: c in cs;
  }

  // ---------------------------------------------------------------------------
  // Where the macro connects of the file come from

  lemma {:induction false} InFlatMapExactly<S, T>(f: S -> seq<T>, s: seq<S>, y: T)
    ensures y in FlatMap(f, s) <==> exists x :: x in s && y in f(x)
    decreases |s|
  {
    if s != [] {
      var n := |s| - 1;
      InFlatMapExactly(f, s[..n], y);
      assert s == s[..n] + [s[n]];
    }
  }

  lemma {:induction false} GenMacroConnectsMembers(gens: seq<GeneratorDefinition>, c: MacroConnectOut)
    ensures c in GenMacroConnects(gens) <==> exists k: nat :: k < |gens| && c in WriteGenMacroConnect(gens[k], k)
    decreases |gens|
  {
    if gens != [] {
      var n := |gens| - 1;
      GenMacroConnectsMembers(gens[..n], c);
      if c in GenMacroConnects(gens[..n]) {
        var k: nat :| k < n && c in WriteGenMacroConnect(gens[..n][k], k);
        assert gens[k] == gens[..n][k];
      }
      if k: nat :| k < |gens| && c in WriteGenMacroConnect(gens[k], k) {
        assert k < n ==> gens[..n][k] == gens[k];
      }
    }
  }

  ghost predicate OfModel(d: Definition, c: MacroConnectOut) {
    exists m :: m in d.dynamicModels && c in MacroConnectsOf(m)
  }

  ghost predicate OfElement(d: Definition, c: MacroConnectOut) {
    || (exists l :: l in d.loads && c == WriteLoadConnect(l))
    || (exists s :: s in d.svarcs && c == WriteSVarCMacroConnect(s))
    || (exists k: nat :: k < |d.generators| && c in WriteGenMacroConnect(d.generators[k], k))
  }

  lemma FileMacroConnectsMembers(d: Definition, c: MacroConnectOut)
    ensures c in FileMacroConnects(d) <==> OfModel(d, c) || OfElement(d, c)
  {
    InMapSeq(WriteLoadConnect, d.loads, c);
    InFlatMapExactly(MacroConnectsOf, d.dynamicModels, c);
    InMapSeq(WriteSVarCMacroConnect, d.svarcs, c);
    GenMacroConnectsMembers(d.generators, c);
  }

  // ---------------------------------------------------------------------------
  // Closure

  /** Every connection of a model goes through a macro connection tagged as used. */
  ghost predicate UsesTagged(d: Definition) {
    forall m, c :: m in d.dynamicModels && c in m.nodeConnections ==> c.id in d.usedMacroConnections
  }

  /** The document defines the macro connections of the models. */
  ghost predicate Documented(d: Definition) {
    forall m, c :: m in d.dynamicModels && c in m.nodeConnections ==>
      IsConstantConnector(c.id) || HasConnector(d.doc.macroConnections, c.id)
  }

  lemma ElementHasConnector(d: Definition, c: MacroConnectOut)
    requires OfElement(d, c)
    ensures HasConnector(FileMacroConnectors(d), c.connector)
  {
    FileConnectors(d, c.connector);
  }

  lemma ModelHasConnector(d: Definition, m: DynamicModelDefinition, k: nat)
    requires UsesTagged(d) && m in d.dynamicModels && k < |m.nodeConnections|
    ensures var id := m.nodeConnections[k].id;
            HasConnector(FileMacroConnectors(d), MacroConnectAt(m, k).connector)
            <==> IsConstantConnector(id) || HasConnector(d.doc.macroConnections, id)
  {
    assert m.nodeConnections[k] in m.nodeConnections;
    FileConnectors(d, m.nodeConnections[k].id);
  }

  lemma ModelConnectInFile(d: Definition, m: DynamicModelDefinition, k: nat)
    requires m in d.dynamicModels && k < |m.nodeConnections|
    ensures MacroConnectAt(m, k) in FileMacroConnects(d)
  {
    assert MacroConnectsOf(m)[k] == MacroConnectAt(m, k);
    FileMacroConnectsMembers(d, MacroConnectAt(m, k));
  }

  /** Every macro connect of the file has its connector in the file exactly if the
      document defines the macro connections of the models. */
  lemma ConnectorsClosed(d: Definition)
    requires UsesTagged(d)
    ensures (forall c <- FileMacroConnects(d) :: HasConnector(FileMacroConnectors(d), c.connector)) <==> Documented(d)
  {
    if Documented(d) {
      forall c <- FileMacroConnects(d) ensures HasConnector(FileMacroConnectors(d), c.connector) {
        FileMacroConnectsMembers(d, c);
        if OfElement(d, c) {
          ElementHasConnector(d, c);
        } else {
          var m :| m in d.dynamicModels && c in MacroConnectsOf(m);
          var k: nat :| k < |m.nodeConnections| && MacroConnectAt(m, k) == c;
          assert m.nodeConnections[k] in m.nodeConnections;
          ModelHasConnector(d, m, k);
        }
      }
    }
    if forall c <- FileMacroConnects(d) :: HasConnector(FileMacroConnectors(d), c.connector) {
      forall m, c | m in d.dynamicModels && c in m.nodeConnections
        ensures IsConstantConnector(c.id) || HasConnector(d.doc.macroConnections, c.id)
      {
        var k: nat :| k < |m.nodeConnections| && m.nodeConnections[k] == c;
        ModelConnectInFile(d, m, k);
        ModelHasConnector(d, m, k);
      }
    }
  }

  /** If the document defines nothing, the connector of a model's macro is missing. */
  lemma UndefinedMacro(m: DynamicModelDefinition, c: MacroConnection) returns (d: Definition, x: MacroConnectOut)
    requires c in m.nodeConnections && !IsConstantConnector(c.id)
    ensures d.dynamicModels == [m] && UsesTagged(d)
    ensures x in FileMacroConnects(d) && x.connector == c.id && !HasConnector(FileMacroConnectors(d), x.connector)
  {
    var used := seq(|m.nodeConnections|, i requires 0 <= i < |m.nodeConnections| => m.nodeConnections[i].id);
    d := Definition(_ => [], _ => false, [], [], [], [], [], [], [m], used, AssemblingDocument([], [], [], []), map[], [], []);
    forall y <- m.nodeConnections ensures y.id in used {
      var i :| 0 <= i < |m.nodeConnections| && m.nodeConnections[i] == y;
      assert used[i] == y.id;
    }
    var k: nat :| k < |m.nodeConnections| && m.nodeConnections[k] == c;
    x := MacroConnectAt(m, k);
    ModelConnectInFile(d, m, k);
    ModelHasConnector(d, m, k);
  }

  /** The file declares a model, or it is the network. */
  ghost predicate Declared(d: Definition, id: Id) {
    id == NETWORK || exists m :: m in FileModels(d) && m.id == id
  }

  lemma InModels(d: Definition, m: Model)
    requires || m in MapSeq(WriteLoad, d.loads) || m in WriteConstantsModel() || m in MapSeq(GeneratorWriter(d), d.generators)
             || m in MapSeq(WriteDynamicModel, d.dynamicModels) || m in MapSeq(WriteSVarC, d.svarcs)
    ensures Declared(d, m.id)
  {
    assert m in FileModels(d);
  }

  /** Both ends of every macro connect are declared. */
  lemma EndsAreDeclared(d: Definition, c: MacroConnectOut)
    requires c in FileMacroConnects(d)
    ensures Declared(d, c.model1) && Declared(d, c.model2)
  {
    FileMacroConnectsMembers(d, c);
    assert WriteConstantsModel()[0] in WriteConstantsModel();
    InModels(d, WriteConstantsModel()[0]);
    if OfModel(d, c) {
      var m :| m in d.dynamicModels && c in MacroConnectsOf(m);
      InMapSeq(WriteDynamicModel, d.dynamicModels, WriteDynamicModel(m));
      InModels(d, WriteDynamicModel(m));
    } else {
      ElementEndsDeclared(d, c);
    }
  }

  lemma ElementEndsDeclared(d: Definition, c: MacroConnectOut)
    requires OfElement(d, c)
    ensures Declared(d, c.model1)
  {
    if l :| l in d.loads && c == WriteLoadConnect(l) {
      InMapSeq(WriteLoad, d.loads, WriteLoad(l));
      InModels(d, WriteLoad(l));
    } else if s :| s in d.svarcs && c == WriteSVarCMacroConnect(s) {
      InMapSeq(WriteSVarC, d.svarcs, WriteSVarC(s));
      InModels(d, WriteSVarC(s));
    } else {
      var k: nat :| k < |d.generators| && c in WriteGenMacroConnect(d.generators[k], k);
      var g := d.generators[k];
      assert g in d.generators && GeneratorWriter(d)(g) == WriteGenerator(d, g);
      InMapSeq(GeneratorWriter(d), d.generators, WriteGenerator(d, g));
      InModels(d, WriteGenerator(d, g));
    }
  }

  /** The generators take the indexes of the signal N model from 0 on, in order and
      each its own. */
  lemma SignalIndexes(gens: seq<GeneratorDefinition>, g: Id, i: nat)
    ensures MacroConnectOut(MACRO_CONNECTOR_GEN_SIGNALN, g, SIGNALN_MODEL, None, None, Some(i)) in GenMacroConnects(gens)
       <==> i < |gens| && gens[i].id == g
  {
    var c := MacroConnectOut(MACRO_CONNECTOR_GEN_SIGNALN, g, SIGNALN_MODEL, None, None, Some(i));
    GenMacroConnectsMembers(gens, c);
    if i < |gens| && gens[i].id == g {
      assert WriteGenMacroConnect(gens[i], i)[1] == c;
    }
  }

  // ---------------------------------------------------------------------------
  // What the macro connectors and the macro connects are

  function MacroIds(macros: seq<MacroConnector>): seq<Id> {
    seq(|macros|, i requires 0 <= i < |macros| => macros[i].id)
  }

  /** The first macro connection of the document with the id of x is x itself. */
  ghost predicate FirstDefined(macros: seq<MacroConnector>, x: MacroConnector) {
    exists i: nat :: FirstWith(MacroIds(macros), i, x.id) && macros[i] == x
  }

  lemma {:induction false} FirstMacroIsFound(macros: seq<MacroConnector>, id: Id)
    ensures match FirstMacro(macros, id)
            case Some(m) => exists i: nat :: FirstWith(MacroIds(macros), i, id) && macros[i] == m
            case None => id !in MacroIds(macros)
    decreases |macros|
  {
    if macros != [] {
      var n, ids := |macros| - 1, MacroIds(macros);
      assert ids == MacroIds(macros[..n]) + [macros[n].id];
      FirstMacroIsFound(macros[..n], id);
      if FirstMacro(macros[..n], id).Some? {
        var i: nat :| FirstWith(MacroIds(macros[..n]), i, id) && macros[..n][i] == FirstMacro(macros[..n], id).value;
        assert FirstWith(ids, i, id);
      } else if macros[n].id == id {
        assert FirstWith(ids, n, id);
      }
    }
  }

  lemma FirstIsOne(ids: seq<Id>, id: Id, i: nat, j: nat)
    requires FirstWith(ids, i, id) && FirstWith(ids, j, id)
    ensures i == j
  {
  }

  lemma FirstMacroIsFirst(macros: seq<MacroConnector>, x: MacroConnector)
    ensures FirstMacro(macros, x.id) == Some(x) <==> FirstDefined(macros, x)
  {
    FirstMacroIsFound(macros, x.id);
    if FirstDefined(macros, x) {
      var i: nat :| FirstWith(MacroIds(macros), i, x.id) && macros[i] == x;
      assert MacroIds(macros)[i] in MacroIds(macros);
      var j: nat :| FirstWith(MacroIds(macros), j, x.id) && macros[j] == FirstMacro(macros, x.id).value;
      FirstIsOne(MacroIds(macros), x.id, i, j);
    }
  }

  /** The connectors written for the macro connections used are their first
      definitions in the document, as they are. */
  lemma {:induction false} ConnectorsAreFirst(macros: seq<MacroConnector>, used: seq<Id>, x: MacroConnector)
    ensures x in UsedConnectors(macros, used) <==> x.id in used && FirstDefined(macros, x)
    decreases |used|
  {
    if used != [] {
      var n := |used| - 1;
      ConnectorsAreFirst(macros, used[..n], x);
      assert used == used[..n] + [used[n]];
      FirstMacroIsFirst(macros, x);
      FirstMacroFinds(macros, used[n]);
    }
  }

  /** The connector of the generators, of the signal N model, of the loads or of the
      compensators: their terminals are on the bus of the element. */
  predicate IsConstant(x: MacroConnector) {
    || (&& x.id == "GEN_NETWORK_CONNECTOR"
        && x.connects == [("generator_terminal", OnBus("_ACPIN")), ("generator_switchOffSignal1", OnBus("_switchOff"))])
    || (x.id == "GEN_SIGNALN_CONNECTOR" && x.connects == [("generator_N", "signalN_N")])
    || (&& x.id == "LOAD_NETWORK_CONNECTOR"
        && x.connects == [("Ur_value", OnBus("_ACPIN_V_re")), ("Ui_value", OnBus("_ACPIN_V_im")),
                          ("Ir_value", OnBus("_ACPIN_i_re")), ("Ii_value", OnBus("_ACPIN_i_im")),
                          ("switchOff1_value", OnBus("_switchOff_value"))])
    || (x.id == "StaticVarCompensatorMacroConnector" && x.connects == [("SVarC_terminal", OnBus("_ACPIN"))])
  }

  function OnBus(variable: string): string {
    "@STATIC_ID@@NODE@" + variable
  }

  lemma ConstantsAre(x: MacroConnector)
    ensures x in ConstantMacroConnectors() <==> IsConstant(x)
  {
    assert OnBus("_ACPIN") == "@STATIC_ID@@NODE@_ACPIN";
    assert OnBus("_switchOff") == "@STATIC_ID@@NODE@_switchOff";
    assert OnBus("_switchOff_value") == "@STATIC_ID@@NODE@_switchOff_value";
    LoadVariables();
  }

  lemma LoadVariables()
    ensures OnBus("_ACPIN_V_re") == "@STATIC_ID@@NODE@_ACPIN_V_re"
    ensures OnBus("_ACPIN_V_im") == "@STATIC_ID@@NODE@_ACPIN_V_im"
    ensures OnBus("_ACPIN_i_re") == "@STATIC_ID@@NODE@_ACPIN_i_re"
    ensures OnBus("_ACPIN_i_im") == "@STATIC_ID@@NODE@_ACPIN_i_im"
  {
  }

  /** The macro connectors of the file: the constant ones, and the first definition of
      each macro connection used. */
  lemma ConnectorsOfFile(d: Definition, x: MacroConnector)
    ensures x in FileMacroConnectors(d)
       <==> IsConstant(x) || (x.id in d.usedMacroConnections && FirstDefined(d.doc.macroConnections, x))
  {
    ConnectorsAreFirst(d.doc.macroConnections, d.usedMacroConnections, x);
    ConstantsAre(x);
  }

  /** The earlier connections through the macro connection of the k-th. */
  function Earlier(conns: seq<MacroConnection>, k: nat, macro: Id): set<nat>
    requires k <= |conns|
  {
    set j: nat | j < k && conns[j].id == macro
  }

  lemma {:induction false} CountIsEarlier(conns: seq<MacroConnection>, k: nat, macro: Id)
    requires k <= |conns|
    ensures CountOf(conns[..k], macro) == |Earlier(conns, k, macro)|
  {
    if k == 0 {
      assert Earlier(conns, 0, macro) == {};
    } else {
      CountIsEarlier(conns, k - 1, macro);
      assert conns[..k][..k - 1] == conns[..k - 1];
      assert Earlier(conns, k, macro)
          == Earlier(conns, k - 1, macro) + (if conns[k - 1].id == macro then {k - 1} else {});
    }
  }

  /** The macro connect of a connection of a model, with the number of connections
      before it through the same macro connection. */
  ghost predicate ModelConnects(d: Definition, c: MacroConnectOut) {
    exists m, k: nat ::
      && m in d.dynamicModels && k < |m.nodeConnections|
      && c == MacroConnectOut(m.nodeConnections[k].id, m.id, "NETWORK", Some(m.nodeConnections[k].connectedElementId),
                              Some(|Earlier(m.nodeConnections, k, m.nodeConnections[k].id)|), None)
  }

  ghost predicate GeneratorMacroConnects(d: Definition, c: MacroConnectOut) {
    exists k: nat ::
      && k < |d.generators|
      && (|| c == MacroConnectOut("GEN_NETWORK_CONNECTOR", d.generators[k].id, "NETWORK", None, None, None)
          || c == MacroConnectOut("GEN_SIGNALN_CONNECTOR", d.generators[k].id, "Model_Signal_N", None, None, Some(k)))
  }

  ghost predicate CollectedConnects(d: Definition, c: MacroConnectOut) {
    || (c.model1 in d.loads && c == MacroConnectOut("LOAD_NETWORK_CONNECTOR", c.model1, "NETWORK", None, None, None))
    || (&& c.model1 in d.svarcs
        && c == MacroConnectOut("StaticVarCompensatorMacroConnector", c.model1, "NETWORK", None, None, None))
  }

  lemma OfModelIsExplicit(d: Definition, c: MacroConnectOut)
    ensures OfModel(d, c) <==> ModelConnects(d, c)
  {
    if OfModel(d, c) {
      var m :| m in d.dynamicModels && c in MacroConnectsOf(m);
      var k: nat :| k < |m.nodeConnections| && MacroConnectAt(m, k) == c;
      CountIsEarlier(m.nodeConnections, k, m.nodeConnections[k].id);
    }
    if ModelConnects(d, c) {
      var m, k: nat :| m in d.dynamicModels && k < |m.nodeConnections|
        && c == MacroConnectOut(m.nodeConnections[k].id, m.id, "NETWORK", Some(m.nodeConnections[k].connectedElementId),
                                Some(|Earlier(m.nodeConnections, k, m.nodeConnections[k].id)|), None);
      CountIsEarlier(m.nodeConnections, k, m.nodeConnections[k].id);
      assert MacroConnectsOf(m)[k] == c;
    }
  }

  /** The macro connects of the file, spelled out. */
  lemma MacroConnectsAre(d: Definition, c: MacroConnectOut)
    ensures c in FileMacroConnects(d) <==> ModelConnects(d, c) || GeneratorMacroConnects(d, c) || CollectedConnects(d, c)
  {
    FileMacroConnectsMembers(d, c);
    OfModelIsExplicit(d, c);
    assert OfElement(d, c) <==> GeneratorMacroConnects(d, c) || CollectedConnects(d, c);
  }
}

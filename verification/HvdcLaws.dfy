/**
 The HVDC definitions after the walk depend only on which buses are in the main
 component, not on the order in which the converters were met, although a line
 first gets a provisional position and its buses are recorded under it.
 */
module HvdcLaws {
  import opened Reachability
  import opened Network
  import opened Hvdc

  const NOTHING := Definitions(map[], map[])

  function PositionOf(first: bool, second: bool): Position {
    if first && second then BOTH_IN_MAIN_COMPONENT
    else if first then FIRST_IN_MAIN_COMPONENT
    else SECOND_IN_MAIN_COMPONENT
  }

  predicate Met1(stations: seq<Station>, l: HvdcLine) {
    Station(l, l.converter1) in stations
  }

  predicate Met2(stations: seq<Station>, l: HvdcLine) {
    Station(l, l.converter2) in stations
  }

  function PositionIn(stations: seq<Station>, l: HvdcLine): Position {
    PositionOf(Met1(stations, l), Met2(stations, l))
  }

  /** The definition a line must have at a position. */
  function Placed(cfg: Config, l: HvdcLine, position: Position): HVDCDefinition {
    DefinitionOf(l, position, ComputeModel(cfg, l, position).model)
  }

  /** Line ids identify lines, among some stations and for one more line. */
  ghost predicate IdsIdentify(stations: seq<Station>, l: HvdcLine) {
    forall s <- stations :: s.line.id == l.id ==> s.line == l
  }

  ghost predicate LineIsPlaced(cfg: Config, stations: seq<Station>, l: HvdcLine, d: Definitions) {
    && (l.id in d.hvdcLines <==> Met1(stations, l) || Met2(stations, l))
    && (l.id in d.hvdcLines ==> d.hvdcLines[l.id] == Placed(cfg, l, PositionIn(stations, l)))
  }

  /** What the last station of a walk changes for a line. */
  lemma LastStation(stations: seq<Station>, l: HvdcLine)
    requires stations != [] && NoDuplicates(stations)
    ensures var prefix, s := stations[..|stations| - 1], stations[|stations| - 1];
            && s !in prefix && NoDuplicates(prefix)
            && (Met1(stations, l) <==> Met1(prefix, l) || s == Station(l, l.converter1))
            && (Met2(stations, l) <==> Met2(prefix, l) || s == Station(l, l.converter2))
  {
    assert stations == stations[..|stations| - 1] + [stations[|stations| - 1]];
  }

  /** Every line met is recorded with the position its met converters give it. */
  lemma {:induction false} WalkPlacesLine(cfg: Config, stations: seq<Station>, l: HvdcLine)
    requires StationsValid(stations) && NoDuplicates(stations) && IdsIdentify(stations, l) && l.Valid()
    ensures LineIsPlaced(cfg, stations, l, VisitStations(cfg, NOTHING, stations))
    decreases |stations|
  {
    if stations != [] {
      var n := |stations| - 1;
      LastStation(stations, l);
      assert stations[n] in stations;
      WalkPlacesLine(cfg, stations[..n], l);
    }
  }

  // ---------------------------------------------------------------------------
  // The VSC bus map

  function BusesOfPairs(pairs: seq<VSCBusPair>): set<Id> {
    set p | p in pairs :: p.bus
  }

  /** The buses a line regulates with others, at a position. */
  function SharedBuses(cfg: Config, l: HvdcLine, position: Position): set<Id> {
    BusesOfPairs(ComputeModel(cfg, l, position).vscBusIdsMultipleRegulated)
  }

  /** Some line met has bus b among its shared buses, at its position so far. */
  ghost predicate SharedIn(cfg: Config, stations: seq<Station>, b: Id) {
    exists s :: s in stations && b in SharedBuses(cfg, s.line, PositionIn(stations, s.line))
  }

  lemma {:induction false} InsertedKeys(m: map<Id, VSCDefinition>, pairs: seq<VSCBusPair>, c: Converter, pMax: real)
    requires pairs != [] ==> c.VSCConverter?
    ensures InsertPairs(m, pairs, c, pMax).Keys == m.Keys + BusesOfPairs(pairs)
    decreases |pairs|
  {
    if pairs != [] {
      var vsc := MakeVSC(pairs[0].vsc, c.qMax, c.qMin, pMax, c.points);
      InsertedKeys(if pairs[0].bus in m then m else m[pairs[0].bus := vsc], pairs[1..], c, pMax);
      assert BusesOfPairs(pairs) == {pairs[0].bus} + BusesOfPairs(pairs[1..]);
    }
  }

  /** A provisional position never shares a bus that the final one does not. */
  lemma SharedBusesGrow(cfg: Config, l: HvdcLine, position: Position)
    ensures SharedBuses(cfg, l, position) <= SharedBuses(cfg, l, BOTH_IN_MAIN_COMPONENT)
  {
    var one, both := ComputeModel(cfg, l, position), ComputeModel(cfg, l, BOTH_IN_MAIN_COMPONENT);
    forall p <- one.vscBusIdsMultipleRegulated ensures p in both.vscBusIdsMultipleRegulated {
    }
  }

  lemma SharedAfterLast(cfg: Config, stations: seq<Station>, b: Id)
    requires stations != [] && StationsValid(stations) && NoDuplicates(stations)
    ensures var prefix, s := stations[..|stations| - 1], stations[|stations| - 1];
            SharedIn(cfg, stations, b)
            <==> SharedIn(cfg, prefix, b) || b in SharedBuses(cfg, s.line, PositionIn(stations, s.line))
  {
    var prefix, s := stations[..|stations| - 1], stations[|stations| - 1];
    if SharedIn(cfg, prefix, b) {
      var t :| t in prefix && b in SharedBuses(cfg, t.line, PositionIn(prefix, t.line));
      LastStation(stations, t.line);
      SharedBusesGrow(cfg, t.line, PositionIn(prefix, t.line));
      assert t in stations;
    }
    if SharedIn(cfg, stations, b) {
      var t :| t in stations && b in SharedBuses(cfg, t.line, PositionIn(stations, t.line));
      LastStation(stations, t.line);
      if t.line != s.line {
        assert t in prefix;
      }
    }
  }

  /** The keys of the VSC bus map are the shared buses of the lines met, at the
      positions they have in the end. */
  lemma {:induction false} WalkSharesBuses(cfg: Config, stations: seq<Station>, b: Id)
    requires StationsValid(stations) && NoDuplicates(stations)
    requires forall s <- stations :: IdsIdentify(stations, s.line)
    ensures b in VisitStations(cfg, NOTHING, stations).vscBuses <==> SharedIn(cfg, stations, b)
    decreases |stations|
  {
    if stations != [] {
      var n := |stations| - 1;
      var prefix, s := stations[..n], stations[n];
      var before := VisitStations(cfg, NOTHING, prefix);
      LastStation(stations, s.line);
      assert s in stations && forall t <- prefix :: t in stations;
      WalkSharesBuses(cfg, prefix, b);
      WalkPlacesLine(cfg, prefix, s.line);
      SharedAfterLast(cfg, stations, b);
      var computed := ComputeModel(cfg, s.line, PositionIn(stations, s.line));
      InsertedKeys(before.vscBuses, computed.vscBusIdsMultipleRegulated, s.converter, s.line.pMax);
    }
  }

  /** An entry of the VSC bus map comes from a visit: its id is that of a converter
      on its key, of the line visited; its limits are those of the converter
      visited, which may be the other one. */
  ghost predicate NamesConverter(stations: seq<Station>, b: Id, vsc: VSCDefinition) {
    exists s :: s in stations && EntryOf(s, b, vsc)
  }

  predicate EntryOf(s: Station, b: Id, vsc: VSCDefinition) {
    && (PairOf(s.line.converter1) == VSCBusPair(b, vsc.id) || PairOf(s.line.converter2) == VSCBusPair(b, vsc.id))
    && s.converter.VSCConverter?
    && vsc == MakeVSC(vsc.id, s.converter.qMax, s.converter.qMin, s.line.pMax, s.converter.points)
  }

  lemma {:induction false} InsertedValues(m: map<Id, VSCDefinition>, pairs: seq<VSCBusPair>, c: Converter, pMax: real, b: Id)
    requires pairs != [] ==> c.VSCConverter?
    requires b in InsertPairs(m, pairs, c, pMax)
    ensures var v := InsertPairs(m, pairs, c, pMax)[b];
            if b in m then v == m[b]
            else VSCBusPair(b, v.id) in pairs && v == MakeVSC(v.id, c.qMax, c.qMin, pMax, c.points)
    decreases |pairs|
  {
    if pairs != [] {
      var vsc := MakeVSC(pairs[0].vsc, c.qMax, c.qMin, pMax, c.points);
      InsertedValues(if pairs[0].bus in m then m else m[pairs[0].bus := vsc], pairs[1..], c, pMax, b);
    }
  }

  lemma PairsAreOfLine(cfg: Config, l: HvdcLine, position: Position)
    ensures forall p <- ComputeModel(cfg, l, position).vscBusIdsMultipleRegulated ::
              p == PairOf(l.converter1) || p == PairOf(l.converter2)
  {
  }

  lemma {:induction false} WalkNamesConverters(cfg: Config, stations: seq<Station>, b: Id)
    requires StationsValid(stations) && b in VisitStations(cfg, NOTHING, stations).vscBuses
    ensures NamesConverter(stations, b, VisitStations(cfg, NOTHING, stations).vscBuses[b])
    decreases |stations|
  {
    var n := |stations| - 1;
    var before, s := VisitStations(cfg, NOTHING, stations[..n]), stations[n];
    var position := if s.line.id in before.hvdcLines then BOTH_IN_MAIN_COMPONENT
                    else if s.converter.id == s.line.converter1.id then FIRST_IN_MAIN_COMPONENT
                    else SECOND_IN_MAIN_COMPONENT;
    var pairs := ComputeModel(cfg, s.line, position).vscBusIdsMultipleRegulated;
    assert s in stations && s.line.Valid();
    assert VisitStations(cfg, NOTHING, stations).vscBuses == InsertPairs(before.vscBuses, pairs, s.converter, s.line.pMax);
    InsertedValues(before.vscBuses, pairs, s.converter, s.line.pMax, b);
    PairsAreOfLine(cfg, s.line, position);
    if b in before.vscBuses {
      WalkNamesConverters(cfg, stations[..n], b);
      var t :| t in stations[..n] && EntryOf(t, b, before.vscBuses[b]);
      assert t in stations;
    } else {
      assert EntryOf(s, b, VisitStations(cfg, NOTHING, stations).vscBuses[b]);
    }
  }

  // ---------------------------------------------------------------------------
  // The walk over the main component

  function StationsOn(nodes: seq<NodeRecord>): seq<Station> {
    if nodes == [] then [] else StationsOn(nodes[..|nodes| - 1]) + nodes[|nodes| - 1].converters
  }

  function IdsOf(nodes: seq<NodeRecord>): seq<Id> {
    seq(|nodes|, i requires 0 <= i < |nodes| => nodes[i].id)
  }

  ghost predicate UniqueLines(lines: seq<HvdcLine>) {
    && (forall l <- lines :: l.Valid())
    && (forall i, j :: 0 <= i < j < |lines| ==> lines[i].id != lines[j].id)
  }

  /** Every converter of the lines is on the node of its bus, as built. */
  ghost predicate OnTheirBuses(nodes: seq<NodeRecord>, lines: seq<HvdcLine>) {
    forall n <- nodes :: n.converters == StationsAt(StationsOf(lines), n.id)
  }

  lemma {:induction false} StationsOfMembers(lines: seq<HvdcLine>, s: Station)
    ensures s in StationsOf(lines)
       <==> s.line in lines && (s.converter == s.line.converter1 || s.converter == s.line.converter2)
    decreases |lines|
  {
    if lines != [] {
      StationsOfMembers(lines[..|lines| - 1], s);
      assert lines == lines[..|lines| - 1] + [lines[|lines| - 1]];
    }
  }

  lemma {:induction false} StationsOfAreDistinct(lines: seq<HvdcLine>)
    requires UniqueLines(lines)
    ensures NoDuplicates(StationsOf(lines))
    decreases |lines|
  {
    if lines != [] {
      var n := |lines| - 1;
      var l := lines[n];
      StationsOfAreDistinct(lines[..n]);
      assert l in lines && l.Valid();
      forall s | s in [Station(l, l.converter1), Station(l, l.converter2)] ensures s !in StationsOf(lines[..n]) {
        StationsOfMembers(lines[..n], s);
      }
      NoDuplicatesJoin(StationsOf(lines[..n]), [Station(l, l.converter1), Station(l, l.converter2)]);
    }
  }

  lemma {:induction false} StationsAtFilters(stations: seq<Station>, n: Id)
    ensures forall s :: s in StationsAt(stations, n) <==> s in stations && s.converter.busId == n
    ensures NoDuplicates(stations) ==> NoDuplicates(StationsAt(stations, n))
    decreases |stations|
  {
    if stations != [] {
      var k := |stations| - 1;
      StationsAtFilters(stations[..k], n);
      assert stations == stations[..k] + [stations[k]];
      if NoDuplicates(stations) {
        assert stations[k] !in stations[..k];
        NoDuplicatesJoin(StationsAt(stations[..k], n), Only(stations[k].converter.busId == n, [stations[k]]));
      }
    }
  }

  /** A duplicate-free walk meets each converter on a visited bus once, and no
      other converter. */
  lemma {:induction false} WalkMeets(nodes: seq<NodeRecord>, lines: seq<HvdcLine>)
    requires NoDuplicates(IdsOf(nodes)) && UniqueLines(lines) && OnTheirBuses(nodes, lines)
    ensures NoDuplicates(StationsOn(nodes))
    ensures forall s :: s in StationsOn(nodes) <==> s in StationsOf(lines) && s.converter.busId in IdsOf(nodes)
    decreases |nodes|
  {
    if nodes != [] {
      var k := |nodes| - 1;
      var all, node := StationsOf(lines), nodes[k];
      assert IdsOf(nodes) == IdsOf(nodes[..k]) + [node.id] && IdsOf(nodes[..k]) == IdsOf(nodes)[..k];
      assert node in nodes;
      WalkMeets(nodes[..k], lines);
      StationsOfAreDistinct(lines);
      StationsAtFilters(all, node.id);
      forall s <- node.converters ensures s !in StationsOn(nodes[..k]) {
        assert IdsOf(nodes)[k] == node.id && node.id !in IdsOf(nodes[..k]);
      }
      NoDuplicatesJoin(StationsOn(nodes[..k]), node.converters);
    }
  }

  /** The definitions after visiting nodes in order. */
  ghost function Walked(cfg: Config, nodes: seq<NodeRecord>): Definitions
    requires StationsValid(StationsOn(nodes))
  {
    VisitStations(cfg, NOTHING, StationsOn(nodes))
  }

  lemma MetStations(nodes: seq<NodeRecord>, lines: seq<HvdcLine>)
    requires NoDuplicates(IdsOf(nodes)) && UniqueLines(lines) && OnTheirBuses(nodes, lines)
    ensures StationsValid(StationsOn(nodes)) && NoDuplicates(StationsOn(nodes))
    ensures forall l <- lines :: IdsIdentify(StationsOn(nodes), l)
    ensures forall l <- lines :: Met1(StationsOn(nodes), l) <==> l.converter1.busId in IdsOf(nodes)
    ensures forall l <- lines :: Met2(StationsOn(nodes), l) <==> l.converter2.busId in IdsOf(nodes)
    ensures forall s <- StationsOn(nodes) :: s.line in lines
  {
    WalkMeets(nodes, lines);
    forall s <- StationsOn(nodes)
      ensures s.line in lines && (s.converter == s.line.converter1 || s.converter == s.line.converter2)
    {
      StationsOfMembers(lines, s);
    }
    forall l <- lines
      ensures Met1(StationsOn(nodes), l) <==> l.converter1.busId in IdsOf(nodes)
      ensures Met2(StationsOn(nodes), l) <==> l.converter2.busId in IdsOf(nodes)
    {
      StationsOfMembers(lines, Station(l, l.converter1));
      StationsOfMembers(lines, Station(l, l.converter2));
    }
  }

  /** The position a line must have given the buses of the main component. */
  function PositionAmong(buses: seq<Id>, l: HvdcLine): Position {
    PositionOf(l.converter1.busId in buses, l.converter2.busId in buses)
  }

  /** Main result. After walking the main component in any order without
      duplicates, a line is recorded exactly if one of its converters is on a bus
      of the component, at the position and with the model that follow from
      which of them are. */
  lemma LinesArePlaced(cfg: Config, nodes: seq<NodeRecord>, lines: seq<HvdcLine>, l: HvdcLine)
    requires NoDuplicates(IdsOf(nodes)) && UniqueLines(lines) && OnTheirBuses(nodes, lines) && l in lines
    ensures StationsValid(StationsOn(nodes))
    ensures l.id in Walked(cfg, nodes).hvdcLines
       <==> l.converter1.busId in IdsOf(nodes) || l.converter2.busId in IdsOf(nodes)
    ensures l.id in Walked(cfg, nodes).hvdcLines ==>
              Walked(cfg, nodes).hvdcLines[l.id] == Placed(cfg, l, PositionAmong(IdsOf(nodes), l))
  {
    MetStations(nodes, lines);
    WalkPlacesLine(cfg, StationsOn(nodes), l);
  }

  /** And no other line is recorded. */
  lemma {:induction false} OnlyLinesMet(cfg: Config, stations: seq<Station>, id: Id)
    requires StationsValid(stations) && id in VisitStations(cfg, NOTHING, stations).hvdcLines
    ensures exists s :: s in stations && s.line.id == id
    decreases |stations|
  {
    var n := |stations| - 1;
    if stations[n].line.id == id {
      assert stations[n] in stations;
    } else {
      OnlyLinesMet(cfg, stations[..n], id);
    }
  }

  ghost predicate LinesKeyed(d: Definitions) {
    forall id <- d.hvdcLines :: d.hvdcLines[id].id == id
  }

  lemma VisitKeepsKeys(cfg: Config, d: Definitions, s: Station)
    requires OfItsKind(s) && LinesKeyed(d)
    ensures LinesKeyed(VisitStation(cfg, d, s))
  {
    var after := VisitStation(cfg, d, s);
    assert after.hvdcLines[s.line.id].id == s.line.id;
    assert forall id <- after.hvdcLines :: id != s.line.id ==> id in d.hvdcLines && after.hvdcLines[id] == d.hvdcLines[id];
  }

  /** Definitions are kept under the ids of their lines. */
  lemma {:induction false} WalkKeepsKeys(cfg: Config, stations: seq<Station>)
    requires StationsValid(stations)
    ensures LinesKeyed(VisitStations(cfg, NOTHING, stations))
    decreases |stations|
  {
    if stations != [] {
      var n := |stations| - 1;
      WalkKeepsKeys(cfg, stations[..n]);
      assert OfItsKind(stations[n]);
      VisitKeepsKeys(cfg, VisitStations(cfg, NOTHING, stations[..n]), stations[n]);
    }
  }
}

/** The counts of the settings: parameters of the PAR file that hold how many shunts
    the voltage level of an association has. */
module CountSettings {
  import opened Wrappers
  import opened Reachability
  import opened Network
  import opened DynModels

  /** A count element of a set of the settings: the name of the parameter, and
      the association whose shunts are counted. */
  datatype Count = Count(name: string, id: Id)

  /** A set of the settings. */
  datatype Setting = Setting(id: Id, counts: seq<Count>)

  datatype Parameter = Parameter(name: string, value: nat)

  /** The first association with an id: here earlier ones are kept, whereas the
      extraction of the dynamic models keeps later ones. */
  function FirstMultiple(multiples: seq<MultipleAssociation>, id: Id): Option<MultipleAssociation> {
    if multiples == [] then None
    else
      match FirstMultiple(multiples[..|multiples| - 1], id)
      case Some(a) => Some(a)
      case None => if multiples[|multiples| - 1].id == id then Some(multiples[|multiples| - 1]) else None
  }

  /** The parameter a count gives, if its association and its level are known. */
  function ParameterOf(multiples: seq<MultipleAssociation>, nbShunts: map<Id, nat>, c: Count): seq<Parameter> {
    match FirstMultiple(multiples, c.id)
    case None => []
    case Some(a) => Only(a.shuntLevel in nbShunts, [Parameter(c.name, NbShunts(nbShunts, a.shuntLevel))])
  }

  function NbShunts(nbShunts: map<Id, nat>, level: Id): nat {
    if level in nbShunts then nbShunts[level] else 0
  }

  function ParametersOf(multiples: seq<MultipleAssociation>, nbShunts: map<Id, nat>, counts: seq<Count>): seq<Parameter> {
    if counts == [] then []
    else
      ParametersOf(multiples, nbShunts, counts[..|counts| - 1]) + ParameterOf(multiples, nbShunts, counts[|counts| - 1])
  }

  method AssociationsById(multiples: seq<MultipleAssociation>) returns (associationsById: map<Id, MultipleAssociation>)
    ensures forall id: Id :: id in associationsById <==> FirstMultiple(multiples, id).Some?
    ensures forall id <- associationsById :: FirstMultiple(multiples, id) == Some(associationsById[id])
  {
    associationsById := map[];
    for k := 0 to |multiples|
      invariant forall id: Id :: id in associationsById <==> FirstMultiple(multiples[..k], id).Some?
      invariant forall id <- associationsById :: FirstMultiple(multiples[..k], id) == Some(associationsById[id])
    {
      assert multiples[..k + 1][..k] == multiples[..k];
      if multiples[k].id !in associationsById {
        associationsById := associationsById[multiples[k].id := multiples[k]];
      }
    }
    assert multiples[..|multiples|] == multiples;
  }

  /** The count part of Par::writeDynamicModelParameterSet. */
  method WriteCounts(multiples: seq<MultipleAssociation>, nbShunts: map<Id, nat>, counts: seq<Count>)
    returns (parameters: seq<Parameter>)
    ensures parameters == ParametersOf(multiples, nbShunts, counts)
  {
    var associationsById := AssociationsById(multiples);
    parameters := [];
    for k := 0 to |counts|
      invariant parameters == ParametersOf(multiples, nbShunts, counts[..k])
    {
      var count := counts[k];
      assert counts[..k + 1][..k] == counts[..k];
      if count.id in associationsById {
        var level := associationsById[count.id].shuntLevel;
        if level in nbShunts {
          parameters := parameters + [Parameter(count.name, nbShunts[level])];
        }
      }
    }
    assert counts[..|counts|] == counts;
  }
}

/** The active season of the line of an association, as the PAR file holds it, and the
    line that the association connects a dynamic model to. */
module Seasons {
  import opened Wrappers
  import opened Reachability
  import opened DynModels

  /** The first single association with an id. */
  function FirstSingle(singles: seq<SingleAssociation>, id: Id): Option<SingleAssociation> {
    if singles == [] then None
    else if singles[0].id == id then Some(singles[0])
    else FirstSingle(singles[1..], id)
  }

  function SeasonOf(linesById: map<Id, string>, line: Option<Id>): Option<string> {
    match line
    case None => None
    case Some(name) => if name in linesById then Some(linesById[name]) else None
  }

  /** The line the writer looks up. */
  function WrittenLine(singles: seq<SingleAssociation>, id: Id): Option<Id> {
    match FirstSingle(singles, id)
    case None => None
    case Some(a) => a.line
  }

  /** Par::getActiveSeason. */
  method GetActiveSeason(singles: seq<SingleAssociation>, linesById: map<Id, string>, id: Id)
    returns (season: Option<string>)
    ensures season == SeasonOf(linesById, WrittenLine(singles, id))
  {
    var k := 0;
    while k < |singles| && singles[k].id != id
      invariant 0 <= k <= |singles| && FirstSingle(singles, id) == FirstSingle(singles[k..], id)
    {
      assert singles[k..][1..] == singles[k + 1..];
      k := k + 1;
    }
    if k == |singles| || singles[k].line == None {
      return None;
    }
    var lineId := singles[k].line.value;
    if lineId !in linesById {
      return None;
    }
    return Some(linesById[lineId]);
  }

  /** The line an association connects models to; a bus comes before it. */
  function LineOf(a: SingleAssociation): Option<Id> {
    if a.bus.Some? then None else a.line
  }

  /** The line the extraction connects models to. */
  function ConnectedLine(singles: seq<SingleAssociation>, id: Id): Option<Id> {
    match FindSingle(singles, id)
    case None => None
    case Some(a) => LineOf(a)
  }

  lemma {:induction false} FirstSingleIsFound(singles: seq<SingleAssociation>, id: Id)
    ensures match FirstSingle(singles, id)
            case Some(a) => exists i: nat :: FirstWith(SingleIds(singles), i, id) && singles[i] == a
            case None => id !in SingleIds(singles)
    decreases |singles|
  {
    if singles != [] {
      var ids := SingleIds(singles);
      assert ids == [singles[0].id] + SingleIds(singles[1..]);
      if singles[0].id == id {
        assert FirstWith(ids, 0, id);
      } else {
        FirstSingleIsFound(singles[1..], id);
        if FirstSingle(singles[1..], id).Some? {
          var i: nat :| FirstWith(SingleIds(singles[1..]), i, id) && singles[1..][i] == FirstSingle(singles, id).value;
          assert FirstWith(ids, i + 1, id);
        }
      }
    }
  }

  lemma {:induction false} LastSingleIsFound(singles: seq<SingleAssociation>, id: Id)
    ensures match FindSingle(singles, id)
            case Some(a) => exists j: nat :: LastWith(SingleIds(singles), j, id) && singles[j] == a
            case None => id !in SingleIds(singles)
    decreases |singles|
  {
    if singles != [] {
      var n, ids := |singles| - 1, SingleIds(singles);
      assert ids == SingleIds(singles[..n]) + [singles[n].id];
      if singles[n].id == id {
        assert LastWith(ids, n, id);
      } else {
        LastSingleIsFound(singles[..n], id);
        if FindSingle(singles[..n], id).Some? {
          var j: nat :| LastWith(SingleIds(singles[..n]), j, id) && singles[..n][j] == FindSingle(singles, id).value;
          assert LastWith(ids, j, id);
        }
      }
    }
  }

  /** The i-th association is the first with the id, and names a line of this season. */
  ghost predicate FirstHasSeason(singles: seq<SingleAssociation>, linesById: map<Id, string>, i: nat, id: Id, season: string) {
    && FirstWith(SingleIds(singles), i, id) && singles[i].line.Some?
    && singles[i].line.value in linesById && linesById[singles[i].line.value] == season
  }

  /** The season written is that of the line of the first association with the id. */
  lemma SeasonOfFirst(singles: seq<SingleAssociation>, linesById: map<Id, string>, id: Id, season: string)
    ensures SeasonOf(linesById, WrittenLine(singles, id)) == Some(season)
       <==> exists i: nat :: FirstHasSeason(singles, linesById, i, id, season)
  {
    FirstSingleIsFound(singles, id);
    if FirstSingle(singles, id).Some? {
      var i: nat :| FirstWith(SingleIds(singles), i, id) && singles[i] == FirstSingle(singles, id).value;
      assert forall k: nat :: FirstWith(SingleIds(singles), k, id) ==> k == i;
      assert SeasonOf(linesById, WrittenLine(singles, id)) == Some(season) ==>
               FirstHasSeason(singles, linesById, i, id, season);
    } else {
      forall i: nat ensures !FirstWith(SingleIds(singles), i, id) {
        assert i < |singles| ==> SingleIds(singles)[i] in SingleIds(singles);
      }
    }
  }

  /** The line of the first association with the id is that the last one connects to. */
  ghost predicate EndsNameOneLine(singles: seq<SingleAssociation>, id: Id) {
    forall i: nat, j: nat :: FirstWith(SingleIds(singles), i, id) && LastWith(SingleIds(singles), j, id) ==>
      singles[i].line == LineOf(singles[j])
  }

  lemma SameLine(singles: seq<SingleAssociation>, id: Id)
    ensures WrittenLine(singles, id) == ConnectedLine(singles, id) <==> EndsNameOneLine(singles, id)
  {
    FirstSingleIsFound(singles, id);
    LastSingleIsFound(singles, id);
    var ids := SingleIds(singles);
    if i, j :| 0 <= i < |ids| && 0 <= j < |ids| && FirstWith(ids, i, id) && LastWith(ids, j, id) {
      assert ids[i] in ids;
      assert forall k: nat :: FirstWith(ids, k, id) ==> k == i;
      assert forall k: nat :: LastWith(ids, k, id) ==> k == j;
    }
  }

  /** Whatever the seasons of the lines, the season written is that of the line a model
      is connected to, exactly if the first and the last association with the id
      name one line. */
  lemma SeasonsFollowConnections(singles: seq<SingleAssociation>, id: Id)
    ensures (forall linesById ::
               SeasonOf(linesById, WrittenLine(singles, id)) == SeasonOf(linesById, ConnectedLine(singles, id)))
       <==> EndsNameOneLine(singles, id)
  {
    SameLine(singles, id);
    var written, connected := WrittenLine(singles, id), ConnectedLine(singles, id);
    if written != connected {
      var linesById := if written.Some? then map[written.value := "s"] else map[connected.value := "s"];
      assert SeasonOf(linesById, written) != SeasonOf(linesById, connected);
    }
  }

  /** Two associations with one id, for two lines: the season of the one is written
      for a model connected to the other. */
  lemma RepeatedSingleIds(id: Id, earlier: Id, later: Id)
    requires earlier != later
    ensures var singles := [SingleAssociation(id, None, Some(earlier), None), SingleAssociation(id, None, Some(later), None)];
            && WrittenLine(singles, id) == Some(earlier) && ConnectedLine(singles, id) == Some(later)
            && !EndsNameOneLine(singles, id)
  {
    var singles := [SingleAssociation(id, None, Some(earlier), None), SingleAssociation(id, None, Some(later), None)];
    assert FindSingle(singles, id) == Some(singles[1]);
    SameLine(singles, id);
  }
}

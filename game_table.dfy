/**
 * What the three mutations do to the games table, as functions from the
 * table before to the table after, and the properties they keep.
 */
module GameTable {
  import opened Wrappers
  import opened Scan
  import opened Entities
  import opened Resolvers

  /** No row of the table has this id. */
  predicate FreshId(games: seq<Game>, id: Id)
  {
    forall g :: g in games ==> g.id != id
  }

  /** deleteGame: `games.filter(game => game.id !== id)`. */
  function RemoveGame(games: seq<Game>, id: Id): (r: seq<Game>)
    ensures IsFilterOf(r, games, KeyIsNot(GameId, id))
    ensures forall g :: g in r <==> g in games && g.id != id
    ensures FreshId(games, id) ==> r == games
  {
    var r := Filter(games, KeyIsNot(GameId, id));
    forall g ensures g in r <==> g in games && g.id != id {
      FilterMembers(games, KeyIsNot(GameId, id), g);
    }
    assert FreshId(games, id) ==> r == games by {
      if FreshId(games, id) { FilterKeepsAll(games, KeyIsNot(GameId, id)); }
    }
    r
  }

  /** addGame's row: `{ ...input, id }`, the generated id written last. */
  function NewGame(input: GameInput, newId: Id): (g: Game)
    ensures g.id == newId && g.title == input.title && g.platform == input.platform
  {
    Game(newId, input.title, input.platform)
  }

  /** The shallow merge `{ ...game, ...edits }`: a key given in edits wins, a key left out keeps the row's value. */
  function Merge(g: Game, edits: GameEdits): (r: Game)
    ensures r.id == g.id
    ensures r.title == (if edits.title.Some? then edits.title.value else g.title)
    ensures r.platform == (if edits.platform.Some? then edits.platform else g.platform)
    ensures edits == GameEdits(None, None) ==> r == g
  {
    g.(title := if edits.title.Some? then edits.title.value else g.title,
       platform := if edits.platform.Some? then edits.platform else g.platform)
  }

  /** updateGame's table: `games.map(game => game.id === id ? { ...game, ...edits } : game)`. */
  function UpdateRows(games: seq<Game>, id: Id, edits: GameEdits): (r: seq<Game>)
    ensures |r| == |games|
    ensures forall i :: 0 <= i < |r| ==> r[i].id == games[i].id
    ensures forall i :: 0 <= i < |r| && games[i].id != id ==> r[i] == games[i]
    ensures forall i :: 0 <= i < |r| && games[i].id == id ==> r[i] == Merge(games[i], edits)
    ensures FreshId(games, id) ==> r == games
  {
    seq(|games|, i requires 0 <= i < |games| =>
      if games[i].id == id then Merge(games[i], edits) else games[i])
  }

  /** Deleting keeps game ids unique. */
  lemma RemoveKeepsUniqueIds(games: seq<Game>, id: Id)
    requires UniqueKeys(games, GameId)
    ensures UniqueKeys(RemoveGame(games, id), GameId)
  {
    SubsequenceKeepsUniqueKeys(RemoveGame(games, id), games, GameId);
  }

  /** With unique ids, deleting an id that is present removes exactly one row. */
  lemma {:induction false} RemovePresentDropsOne(games: seq<Game>, id: Id)
    requires UniqueKeys(games, GameId) && !FreshId(games, id)
    ensures |RemoveGame(games, id)| == |games| - 1
  {
    var p := KeyIsNot(GameId, id);
    var g, t := games[0], games[1..];
    assert games == [g] + t;
    assert UniqueKeys(t, GameId);
    if g.id == id {
      forall i | 0 <= i < |t| ensures p(t[i]) {
        assert games[i + 1] == t[i];
      }
      FilterKeepsAll(t, p);
    } else {
      RemovePresentDropsOne(t, id);
    }
  }

  /** Appending a row with a fresh id keeps game ids unique. */
  lemma AddKeepsUniqueIds(games: seq<Game>, input: GameInput, newId: Id)
    requires UniqueKeys(games, GameId) && FreshId(games, newId)
    ensures UniqueKeys(games + [NewGame(input, newId)], GameId)
  {
    var r := games + [NewGame(input, newId)];
    forall i, j | 0 <= i < j < |r| ensures GameId(r[i]) != GameId(r[j]) {
      if j == |games| {
        assert r[i] in games;
      }
    }
  }

  /** Updating never changes an id, so it keeps game ids unique. */
  lemma UpdateKeepsUniqueIds(games: seq<Game>, id: Id, edits: GameEdits)
    requires UniqueKeys(games, GameId)
    ensures UniqueKeys(UpdateRows(games, id, edits), GameId)
  {
  }

  /** addGame, then deleteGame of the id it generated, gives back the table as it was. */
  lemma {:induction false} AddThenRemoveRestores(games: seq<Game>, input: GameInput, newId: Id)
    requires FreshId(games, newId)
    ensures RemoveGame(games + [NewGame(input, newId)], newId) == games
  {
    var p := KeyIsNot(GameId, newId);
    FilterAppend(games, [NewGame(input, newId)], p);
    FilterKeepsAll(games, p);
    assert Filter([NewGame(input, newId)], p) == [];
  }

  /** updateGame's result: the first row with the id after the update is the merge of the first one before it. */
  lemma UpdateThenFind(games: seq<Game>, id: Id, edits: GameEdits)
    ensures FindGame(UpdateRows(games, id, edits), id) ==
      match FindGame(games, id)
      case None => None
      case Some(g) => Some(Merge(g, edits))
  {
    var after := UpdateRows(games, id, edits);
    var p := KeyIs(GameId, id);
    match FindGame(games, id)
    case None =>
      assert after == games;
    case Some(g) =>
      var i :| 0 <= i < |games| && games[i] == g && p(g) && forall j :: 0 <= j < i ==> !p(games[j]);
      assert after[i] == Merge(g, edits);
      assert forall j :: 0 <= j < i ==> !p(after[j]);
      assert IsFirstMatch(after, p, Some(Merge(g, edits)));
      FirstMatchUnique(after, p, Some(Merge(g, edits)));
  }
}

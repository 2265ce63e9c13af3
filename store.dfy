/**
 * The process-wide store: the games table is reassigned or appended to
 * by the mutations, the authors and reviews tables are never written.
 */
module GameStore {
  import opened Wrappers
  import opened Scan
  import opened Entities
  import opened Resolvers
  import opened Seed
  import opened GameTable

  class Store {
    var games: seq<Game>
    const authors: seq<Author>
    const reviews: seq<Review>

    /** Ids are unique within each table. */
    ghost predicate Valid()
      reads this
    {
      UniqueKeys(games, GameId) && UniqueKeys(authors, AuthorId) && UniqueKeys(reviews, ReviewId)
    }

    /** Process start: the three seed tables. */
    constructor ()
      ensures games == SeedGames && authors == SeedAuthors && reviews == SeedReviews
      ensures Valid()
    {
      games := SeedGames;
      authors := SeedAuthors;
      reviews := SeedReviews;
      SeedIdsUnique();
    }

    /** Mutation.deleteGame: keep the rows with another id, and return the new table. */
    method DeleteGame(id: Id) returns (remaining: seq<Game>)
      modifies this
      ensures games == RemoveGame(old(games), id)
      ensures remaining == games
      ensures FreshId(old(games), id) ==> games == old(games)
      ensures old(Valid()) && !FreshId(old(games), id) ==> |games| == |old(games)| - 1
      ensures old(Valid()) ==> Valid()
    {
      games := RemoveGame(games, id);
      remaining := games;
      if old(Valid()) {
        RemoveKeepsUniqueIds(old(games), id);
        if !FreshId(old(games), id) {
          RemovePresentDropsOne(old(games), id);
        }
      }
    }

    /** Mutation.addGame: append `{ ...input, id: newId }` and return it; newId stands for the uuid. */
    method AddGame(input: GameInput, newId: Id) returns (game: Game)
      modifies this
      ensures game.id == newId && game.title == input.title && game.platform == input.platform
      ensures games == old(games) + [game]
      ensures old(Valid()) && FreshId(old(games), newId) ==> Valid()
      ensures FreshId(old(games), newId) ==> RemoveGame(games, newId) == old(games)
    {
      game := NewGame(input, newId);
      games := games + [game];
      if FreshId(old(games), newId) {
        AddThenRemoveRestores(old(games), input, newId);
        if old(Valid()) {
          AddKeepsUniqueIds(old(games), input, newId);
        }
      }
    }

    /** Mutation.updateGame: merge edits into every row with the id, then return the first such row. */
    method UpdateGame(id: Id, edits: GameEdits) returns (updated: Option<Game>)
      modifies this
      ensures games == UpdateRows(old(games), id, edits)
      ensures updated == FindGame(games, id)
      ensures updated == match FindGame(old(games), id)
                         case None => None
                         case Some(g) => Some(Merge(g, edits))
      ensures updated.None? ==> games == old(games)
      ensures old(Valid()) ==> Valid()
    {
      games := UpdateRows(games, id, edits);
      updated := FindGame(games, id);
      UpdateThenFind(old(games), id, edits);
    }
  }
}

/**
 * The three record types of the store and the key functions the
 * resolvers scan by. Ids are GraphQL `ID` values, which reach the
 * resolvers as strings.
 */
module Entities {
  import opened Wrappers

  type Id = string

  /**
   * A game row. `platform` is None when the key is missing from the row:
   * `addGame` copies its input, whose platform is optional.
   */
  datatype Game = Game(id: Id, title: string, platform: Option<seq<string>>)

  datatype Author = Author(id: Id, name: string, verified: bool)

  datatype Review = Review(id: Id, rating: int, content: string, authorId: Id, gameId: Id)

  /** The `game` argument of `addGame` (AddGameInput). */
  datatype GameInput = GameInput(title: string, platform: Option<seq<string>>)

  /** The `edits` argument of `updateGame` (EditGameInput); None is a key left out. */
  datatype GameEdits = GameEdits(title: Option<string>, platform: Option<seq<string>>)

  function GameId(g: Game): Id { g.id }

  function AuthorId(a: Author): Id { a.id }

  function ReviewId(r: Review): Id { r.id }

  function ReviewAuthorId(r: Review): Id { r.authorId }

  function ReviewGameId(r: Review): Id { r.gameId }
}

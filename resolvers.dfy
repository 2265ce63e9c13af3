/**
 * The read-side resolvers: the `Query` entry points and the nested
 * `Game.reviews`, `Author.reviews`, `Review.author` and `Review.game`
 * fields. Each returns a whole table, or is one find or filter over one;
 * the table is passed in, as it stands at the moment the field is resolved.
 */
module Resolvers {
  import opened Wrappers
  import opened Scan
  import opened Entities

  /** Query.games: the whole table, in insertion order. */
  function Games(games: seq<Game>): (r: seq<Game>)
    ensures r == games
  {
    games
  }

  /** Query.reviews: the whole table, in insertion order. */
  function Reviews(reviews: seq<Review>): (r: seq<Review>)
    ensures r == reviews
  {
    reviews
  }

  /** Query.authors: the whole table, in insertion order. */
  function Authors(authors: seq<Author>): (r: seq<Author>)
    ensures r == authors
  {
    authors
  }

  /** Query.game(id): the first game with that id; absent, never an error, on a miss. */
  function FindGame(games: seq<Game>, id: Id): (r: Option<Game>)
    ensures IsFirstMatch(games, KeyIs(GameId, id), r)
    ensures r.Some? ==> r.value in games && r.value.id == id
    ensures r.None? <==> forall g :: g in games ==> g.id != id
  {
    FindFirst(games, KeyIs(GameId, id))
  }

  /** Query.review(id): the first review with that id, or absent. */
  function FindReview(reviews: seq<Review>, id: Id): (r: Option<Review>)
    ensures IsFirstMatch(reviews, KeyIs(ReviewId, id), r)
    ensures r.Some? ==> r.value in reviews && r.value.id == id
    ensures r.None? <==> forall v :: v in reviews ==> v.id != id
  {
    FindFirst(reviews, KeyIs(ReviewId, id))
  }

  /** Query.author(id): the first author with that id, or absent. */
  function FindAuthor(authors: seq<Author>, id: Id): (r: Option<Author>)
    ensures IsFirstMatch(authors, KeyIs(AuthorId, id), r)
    ensures r.Some? ==> r.value in authors && r.value.id == id
    ensures r.None? <==> forall a :: a in authors ==> a.id != id
  {
    FindFirst(authors, KeyIs(AuthorId, id))
  }

  /** Game.reviews: every review of the parent game, in table order. */
  function GameReviews(reviews: seq<Review>, game: Game): (r: seq<Review>)
    ensures IsFilterOf(r, reviews, KeyIs(ReviewGameId, game.id))
    ensures forall v :: v in r <==> v in reviews && v.gameId == game.id
    ensures (forall v :: v in reviews ==> v.gameId != game.id) ==> r == []
  {
    var r := Filter(reviews, KeyIs(ReviewGameId, game.id));
    forall v ensures v in r <==> v in reviews && v.gameId == game.id {
      FilterMembers(reviews, KeyIs(ReviewGameId, game.id), v);
    }
    r
  }

  /** Author.reviews: every review the parent author wrote, in table order. */
  function AuthorReviews(reviews: seq<Review>, author: Author): (r: seq<Review>)
    ensures IsFilterOf(r, reviews, KeyIs(ReviewAuthorId, author.id))
    ensures forall v :: v in r <==> v in reviews && v.authorId == author.id
    ensures (forall v :: v in reviews ==> v.authorId != author.id) ==> r == []
  {
    var r := Filter(reviews, KeyIs(ReviewAuthorId, author.id));
    forall v ensures v in r <==> v in reviews && v.authorId == author.id {
      FilterMembers(reviews, KeyIs(ReviewAuthorId, author.id), v);
    }
    r
  }

  /** Review.author: the first author whose id is the review's author id; absent if it dangles. */
  function ReviewAuthor(authors: seq<Author>, review: Review): (r: Option<Author>)
    ensures IsFirstMatch(authors, KeyIs(AuthorId, review.authorId), r)
    ensures r.Some? ==> r.value in authors && r.value.id == review.authorId
    ensures r.None? <==> forall a :: a in authors ==> a.id != review.authorId
  {
    FindFirst(authors, KeyIs(AuthorId, review.authorId))
  }

  /** Review.game: the first game whose id is the review's game id; absent if it dangles. */
  function ReviewGame(games: seq<Game>, review: Review): (r: Option<Game>)
    ensures IsFirstMatch(games, KeyIs(GameId, review.gameId), r)
    ensures r.Some? ==> r.value in games && r.value.id == review.gameId
    ensures r.None? <==> forall g :: g in games ==> g.id != review.gameId
  {
    FindFirst(games, KeyIs(GameId, review.gameId))
  }

  /** With unique game ids, `game(id)` of a row's own id is that row. */
  lemma FindGameUnique(games: seq<Game>, g: Game)
    requires UniqueKeys(games, GameId) && g in games
    ensures FindGame(games, g.id) == Some(g)
  {
    FindByUniqueKey(games, GameId, g);
  }

  /** With unique review ids, `review(id)` of a row's own id is that row. */
  lemma FindReviewUnique(reviews: seq<Review>, v: Review)
    requires UniqueKeys(reviews, ReviewId) && v in reviews
    ensures FindReview(reviews, v.id) == Some(v)
  {
    FindByUniqueKey(reviews, ReviewId, v);
  }

  /** With unique author ids, `author(id)` of a row's own id is that row. */
  lemma FindAuthorUnique(authors: seq<Author>, a: Author)
    requires UniqueKeys(authors, AuthorId) && a in authors
    ensures FindAuthor(authors, a.id) == Some(a)
  {
    FindByUniqueKey(authors, AuthorId, a);
  }
}

/** The rows every table holds when the process starts, and what they resolve to. */
module Seed {
  import opened Wrappers
  import opened Scan
  import opened Entities
  import opened Resolvers

  const SeedGames: seq<Game> := [
    Game("1", "Zelda, Tears of the Kingdom", Some(["Switch"])),
    Game("2", "Final Fantasy 7 Remake", Some(["PS5", "Xbox"])),
    Game("3", "Elden Ring", Some(["PS5", "Xbox", "PC"])),
    Game("4", "Mario Kart", Some(["Switch"])),
    Game("5", "Pokemon Scarlet", Some(["PS5", "Xbox", "PC"]))
  ]

  const SeedAuthors: seq<Author> := [
    Author("1", "mario", true),
    Author("2", "yoshi", false),
    Author("3", "peach", true)
  ]

  const SeedReviews: seq<Review> := [
    Review("1", 9, "lorem ipsum", "1", "2"),
    Review("2", 10, "lorem ipsum", "2", "1"),
    Review("3", 7, "lorem ipsum", "3", "3"),
    Review("4", 5, "lorem ipsum", "2", "4"),
    Review("5", 8, "lorem ipsum", "2", "5"),
    Review("6", 7, "lorem ipsum", "1", "2"),
    Review("7", 10, "lorem ipsum", "3", "1")
  ]

  /** Ids are pairwise distinct in each seed table. */
  lemma SeedIdsUnique()
    ensures UniqueKeys(SeedGames, GameId)
    ensures UniqueKeys(SeedAuthors, AuthorId)
    ensures UniqueKeys(SeedReviews, ReviewId)
  {
  }

  /** Review "1" was written by author "1" (mario) about game "2" (Final Fantasy 7 Remake). */
  lemma SeedReviewOneLinks()
    ensures FindReview(SeedReviews, "1") == Some(SeedReviews[0])
    ensures ReviewAuthor(SeedAuthors, SeedReviews[0]) == Some(Author("1", "mario", true))
    ensures ReviewGame(SeedGames, SeedReviews[0]) ==
      Some(Game("2", "Final Fantasy 7 Remake", Some(["PS5", "Xbox"])))
  {
    SeedIdsUnique();
    FindReviewUnique(SeedReviews, SeedReviews[0]);
    FindAuthorUnique(SeedAuthors, SeedAuthors[0]);
    FindGameUnique(SeedGames, SeedGames[1]);
  }

  /** Every id lookup on the seed tables has at most one matching row, and finds it. */
  lemma SeedLookupsFindTheRow(g: Game, a: Author, v: Review)
    requires g in SeedGames && a in SeedAuthors && v in SeedReviews
    ensures FindGame(SeedGames, g.id) == Some(g)
    ensures FindAuthor(SeedAuthors, a.id) == Some(a)
    ensures FindReview(SeedReviews, v.id) == Some(v)
  {
    SeedIdsUnique();
    FindGameUnique(SeedGames, g);
    FindAuthorUnique(SeedAuthors, a);
    FindReviewUnique(SeedReviews, v);
  }
}

# Games / authors / reviews GraphQL store — Dafny model

The repository is a small GraphQL API over three in-memory tables: games,
authors and reviews. Reviews point at an author and a game by id. Each read resolver either
returns a whole table or is one `find` or `filter` over a table:

- `Query.games`, `Query.reviews` and `Query.authors` list a whole table.
- `Query.game(id)`, `Query.review(id)` and `Query.author(id)` return the first row with the id, or null.
- `Game.reviews` and `Author.reviews` filter the reviews by foreign key.
- `Review.author` and `Review.game` find the row the foreign key names.

The compiled `dist/index.js` also has three mutations on the games table.
`deleteGame` reassigns the table to a filtered copy. `addGame` pushes a
new row with a generated id. `updateGame` reassigns the table to a mapped
copy that shallow-merges the edits into matching rows.

`src/index.ts` and `dist/index.js` share one set of definitions. The
TypeScript resolvers (src/index.ts:92-147) are the same expressions as the
JavaScript ones (dist/index.js:83-137). The TypeScript file has no mutations.

Modules:

- `Wrappers` — `Option`, the "absent" result (rendered as null).
- `Scan` — `Array.prototype.find` (`FindFirst`) and `Array.prototype.filter`
  (`Filter`). Each scan has its own relational specification:
  `IsFirstMatch` says the first matching element or none, and `IsFilterOf`
  says an order-preserving subsequence holding every matching element with
  its multiplicity. Two lemmas prove that each specification fixes the
  result uniquely.
- `Entities` — the `Game`, `Author` and `Review` records, the two mutation
  inputs, and the key functions the scans compare on.
- `Resolvers` — the query and relationship resolvers as pure functions of
  the table as it stands when the field is resolved.
- `Seed` — the rows present at process start, and facts about them.
- `GameTable` — each mutation as a function from the games table before to
  the table after, with the properties those functions keep.
- `GameStore` — class `Store`, the process-wide state. `games` is a
  `seq<Game>` field that the mutation methods reassign. `authors` and
  `reviews` are `const`, since no code writes them. `Valid()` says that ids
  are unique within each table.

The generated uuid is a parameter `newId` of `AddGame`. The source does not
check that it is fresh, so the model does not require it. Instead,
`AddGame` keeps `Valid()` and completes the add/delete round trip on the
condition that `newId` is not already a game id.

## Model

| member | source | states |
|---|---|---|
| `Scan.KeyIs` | dist/index.js:92 | the arrow predicate `row => key(row) === k` that find and filter are given holds of a row exactly when its key equals `k` (the same shape serves dist/index.js:100, 108, 118, 124, 131 and 135) |
| `Scan.KeyIsNot` | dist/index.js:141 | the arrow predicate `game => game.id !== id` holds of a row exactly when its key differs from the given id |
| `Scan.FindFirst` | dist/index.js:92 | `find` returns the first element satisfying the predicate, and None exactly when no element does |
| `Scan.FirstMatchUnique` | dist/index.js:92 | only one result can meet the first-match specification, so the specification determines `find` completely |
| `Scan.Filter` | dist/index.js:118 | `filter` returns an order-preserving subsequence of the input made only of matching elements, and drops no matching element (multiplicities equal) |
| `Scan.FilterMembers` | dist/index.js:124 | an element is in the filter's result if and only if it is in the input and matches |
| `Scan.FilterSpecUnique` | dist/index.js:118 | any sequence meeting the filter specification equals the filter's result, so the specification determines `filter` completely |
| `Scan.FilterKeepsAll` | dist/index.js:141 | filtering with a predicate that every element satisfies returns the input unchanged |
| `Scan.FilterAppend` | dist/index.js:141 | filtering `s + t` gives the filter of `s` followed by the filter of `t` |
| `Scan.SubsequenceKeepsUniqueKeys` | dist/index.js:141 | a subsequence of a table whose keys are unique also has unique keys |
| `Scan.FindByUniqueKey` | src/index.ts:29-51 | when keys are unique, looking up an element's own key finds that element |
| `Resolvers.Games` | src/index.ts:96-98 | `Query.games` gives every game row, in insertion order, with nothing added or dropped |
| `Resolvers.Reviews` | src/index.ts:104-106 | `Query.reviews` gives every review row, in insertion order |
| `Resolvers.Authors` | src/index.ts:112-114 | `Query.authors` gives every author row, in insertion order |
| `Resolvers.FindGame` | dist/index.js:91-93 | `game(id)` is the first game row with that id; it is absent exactly when no row has the id, and is never an error |
| `Resolvers.FindReview` | dist/index.js:99-101 | `review(id)` is the first review row with that id, and absent exactly when none has it |
| `Resolvers.FindAuthor` | dist/index.js:107-109 | `author(id)` is the first author row with that id, and absent exactly when none has it |
| `Resolvers.GameReviews` | dist/index.js:116-119 | `Game.reviews` is exactly the reviews whose game id is the parent's id, in table order; it is empty when none match |
| `Resolvers.AuthorReviews` | dist/index.js:122-125 | `Author.reviews` is exactly the reviews whose author id is the parent's id, in table order; it is empty when none match |
| `Resolvers.ReviewAuthor` | dist/index.js:129-132 | `Review.author` is the first author whose id is the review's author id; a dangling reference gives absent |
| `Resolvers.ReviewGame` | dist/index.js:133-136 | `Review.game` is the first game whose id is the review's game id; a dangling reference gives absent |
| `Resolvers.FindGameUnique` | src/index.ts:100-102 | with unique game ids, `game(id)` of a row's own id returns that row |
| `Resolvers.FindReviewUnique` | src/index.ts:108-110 | with unique review ids, `review(id)` of a row's own id returns that row |
| `Resolvers.FindAuthorUnique` | src/index.ts:116-118 | with unique author ids, `author(id)` of a row's own id returns that row |
| `Seed.SeedIdsUnique` | src/index.ts:29-51 | ids are pairwise distinct in each of the three seed tables |
| `Seed.SeedReviewOneLinks` | src/index.ts:138-145 | on the seed data, review "1" resolves to author "1" (mario) and to game "2" (Final Fantasy 7 Remake) |
| `Seed.SeedLookupsFindTheRow` | dist/index.js:7-27 | every id lookup on a seed row's own id returns exactly that row |
| `GameTable.RemoveGame` | dist/index.js:141 | the table after `deleteGame` holds exactly the rows with a different id, in their original order; an id not present leaves the table unchanged |
| `GameTable.NewGame` | dist/index.js:145-148 | the new row has the generated id together with the input's title and platform |
| `GameTable.Merge` | dist/index.js:155 | shallow merge: the id never changes, a field given in edits replaces the row's value, a field left out of edits keeps it, and empty edits change nothing |
| `GameTable.UpdateRows` | dist/index.js:153-158 | `updateGame` keeps the table length, every id and every row with a different id; each row with the id becomes its merge with the edits; an id not present leaves the table unchanged |
| `GameTable.RemoveKeepsUniqueIds` | dist/index.js:140-143 | `deleteGame` keeps game ids unique |
| `GameTable.RemovePresentDropsOne` | dist/index.js:140-143 | with unique ids, `deleteGame` of an id that is present removes exactly one row |
| `GameTable.AddKeepsUniqueIds` | dist/index.js:144-151 | `addGame` keeps game ids unique when the generated id is fresh |
| `GameTable.UpdateKeepsUniqueIds` | dist/index.js:152-158 | `updateGame` keeps game ids unique |
| `GameTable.AddThenRemoveRestores` | dist/index.js:140-151 | `addGame` followed by `deleteGame` of the generated id restores the table that existed before the add, when that id was fresh |
| `GameTable.UpdateThenFind` | dist/index.js:152-160 | `updateGame`'s result is the merge of the first row that had the id before the update, or absent when no row had it |
| `GameStore.Store.constructor` | dist/index.js:7-27 | the store starts with the three seed tables, and their ids are unique |
| `GameStore.Store.DeleteGame` | dist/index.js:140-143 | the games table becomes the rows with a different id and is also returned; an absent id changes nothing; unique ids are kept, and with unique ids deleting a present id removes exactly one row |
| `GameStore.Store.AddGame` | dist/index.js:144-151 | the new row (generated id, the input's title and platform) is appended last and returned; earlier rows are unchanged; unique ids are kept and deleting the row again restores the table when the id is fresh |
| `GameStore.Store.UpdateGame` | dist/index.js:152-160 | the table becomes the merged table; the result is the first row with the id after the update, which is the merge of the first such row before it; absent leaves the table unchanged; unique ids are kept |

## Left out

- The Apollo server, `startStandaloneServer`, the listen on port 4000 and the `console.log` (dist/index.js:167-180, src/index.ts:154-169). They are transport and I/O.
- The `typeDefs` schema strings. Parsing them, validating queries against them and dispatching fields on demand is the GraphQL engine's job. The engine also rejects a null in a non-null output field, such as a game added without a platform, and the model does not capture that. The "at least 1 platform" comment is not enforced by any code, so the model does not state it.
- `uuidv4()` is a foreign call. `AddGame` takes the generated id as the parameter `newId`, and freshness appears only as the condition of the properties that need it. Ids are meant to be unique within each table, but no code checks this. Uniqueness holds only as long as the generator never repeats an id, so the model proves it under that condition rather than as an unconditional invariant.
- An explicit `null` for a field of `edits` is not modelled. In the source, `{...game, ...edits}` would then write null into the row. In the model, an edit field is either left out (None) or given a value.
- Module-level mutable bindings and JavaScript reference aliasing are modelled as values. For example, an array returned by `Query.games` shares storage with the table, so it later sees rows that `addGame` pushes. Every table is a `seq` value, and the resolvers read the table that is current when they run.
- GraphQL ids arrive as strings, and the model compares them as strings. Input coercion of numeric ids is the engine's job.

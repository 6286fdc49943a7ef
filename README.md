# Quote service: id sampling and favourites bookkeeping

A Dafny model of the core of a small HTTP quote service (an Express server over
two PostgreSQL tables, `mot_quotes` and `favourite_quotes`).

- `sampling.dfy`, module `Sampling`: the random ids of the `/quotes/1` and
  `/quotes/5` handlers. The single-quote handler turns one draw
  `floor(random() * N)` into the id `r + 1`. The five-quote handler builds the
  array `[1, ..., N]`, shuffles it in place with Durstenfeld's Fisher–Yates
  loop (position `i` runs from `N - 1` down to `1` and is swapped with a drawn
  position `j` in `0..i`) and keeps the first five entries. `RandomIdList` is
  that loop over a Dafny array; it is proved against the specification
  function `Shuffled` (the swap steps applied to a sequence). Each random draw
  is a parameter: an integer in its range, not a float. The proofs hold for
  every draw in that range.
- `favourites.dfy`, module `Favourites`: the favourites table as a map from
  `quote_id` to `Favourite(quote, author, votes)`. The add, remove, vote and
  reset-votes handlers each issue one SQL statement. The effect of each
  statement is a function (`AddFavourite`, `RemoveFavourite`, `Vote`,
  `ResetVotes`). The class `QuoteStore` holds both tables, and its methods
  (one per handler) apply those effects in place.

Edge cases of the handlers that the model states:

- The add handler has no existence check of its own: when no quote has the
  id, `find.rows[0]` is undefined and reading its fields throws before any
  insert (`QuoteNotFound`).
- The single-quote handler has no guard for an empty table: the draw is `0`
  and the id is `1`, which names no row. `RandomId` states this case.
- A second favourite for the same quote is refused only by a uniqueness
  constraint on `favourite_quotes.quote_id`, which lives in the database schema.
  `AddFavourite` assumes that constraint (`AlreadyFavourited`). A new
  favourite's vote count starts at the column default, taken to be 0.

## Model

| member | source | states |
|---|---|---|
| `Sampling.RandomId` | src/server.ts:25-26 | for a table of N >= 1 rows the id drawn lies in 1..N; for an empty table it is 1 |
| `Sampling.RandomIdIsOnto` | src/server.ts:25-26 | every id in 1..N comes from exactly one draw in 0..N-1 (draws and ids are in one-to-one correspondence) |
| `Sampling.Swap` | src/server.ts:47 | the destructuring swap puts each of the two entries in the other's place and leaves every other position alone |
| `Sampling.SwapIsPermutation` | src/server.ts:47 | a swap keeps the multiset of entries |
| `Sampling.ShuffleTo` | src/server.ts:45-48 | the array after the steps at positions N-1 down to i+1 has its original length, so every index a step uses (its position and its draw) is in bounds |
| `Sampling.ShuffleToIsPermutation` | src/server.ts:44-48 | after any number of loop steps the array is a permutation of its starting contents |
| `Sampling.Shuffled` | src/server.ts:45-48 | the whole shuffle keeps the length; with at most one entry the loop body never runs and the array is unchanged |
| `Sampling.ShuffledIsPermutation` | src/server.ts:44-48 | the finished shuffle has the same multiset of entries as its input |
| `Sampling.PositionsAboveAreFinal` | src/server.ts:45-47 | once the loop has passed position i, the entries above i hold their final values: later steps never touch them |
| `Sampling.ShuffledRangeHoldsIds` | src/server.ts:44-48 | a shuffle of 1..N has the same multiset as 1..N, has no repeated id, and holds exactly the ids 1..N |
| `Sampling.PrefixOfShuffledRange` | src/server.ts:44-50 | any prefix of the shuffled ids has no repeats and stays within 1..N; the full-length prefix holds each id once |
| `Sampling.NewIdArray` | src/server.ts:44 | `Array.from` yields a new array holding exactly 1..N in order |
| `Sampling.SwapEntries` | src/server.ts:47 | the in-place swap on the array has the effect of `Swap` on its contents |
| `Sampling.RandomIdList` | src/server.ts:43-51 | the in-place loop keeps the array equal to the specification of the steps done so far, so the slice is the first min(5, N) entries of `Shuffled([1..N])`; it has length min(5, N), no repeated id, every id in 1..N, and for N <= 5 each id of 1..N exactly once |
| `Favourites.AddFavourite` | src/server.ts:78-95 | a missing quote fails before any insert and a quote already favourited fails on the insert; both leave the table unchanged. Otherwise exactly one row is added, keyed by the id, copying the quote's text and author, with 0 votes, and every other row is kept |
| `Favourites.RemoveFavourite` | src/server.ts:103-106 | the row with that quote_id is gone and every other row is kept; an absent id leaves the table unchanged |
| `Favourites.Vote` | src/server.ts:136-140 | the matching row gains exactly one vote and keeps its text and author; other rows and the set of ids are unchanged; no match leaves the table unchanged |
| `Favourites.ResetVotes` | src/server.ts:154-158 | the matching row's votes become 0 and it keeps its text and author; other rows and the set of ids are unchanged; no match leaves the table unchanged |
| `Favourites.HandlersKeepConsistent` | src/server.ts:78-157 | add, remove, vote and reset keep every favourite pointing at an existing quote and every vote count non-negative |
| `Favourites.RemoveIsIdempotent` | src/server.ts:103-106 | removing a favourite twice gives the same table as removing it once |
| `Favourites.AddTwiceFails` | src/server.ts:82-96 | favouriting the same quote twice: the second attempt fails with the duplicate error and the table keeps the single row from the first |
| `Favourites.VoteTimesCounts` | src/server.ts:136-139 | n votes for a quote raise its count by exactly n and change no other row |
| `Favourites.ResetUndoesVotes` | src/server.ts:154-157 | a reset after any number of votes gives the same table as a reset with no votes before it |
| `Favourites.RemovedIgnoresVotes` | src/server.ts:136-157 | after a favourite is removed, votes and resets for it leave the table unchanged |
| `Favourites.QuoteStore.PostFavourite` | src/server.ts:76-98 | the handler's lookup and insert have exactly the effect and status of `AddFavourite`, and they keep the tables consistent |
| `Favourites.QuoteStore.DeleteFavourite` | src/server.ts:101-111 | the table becomes `RemoveFavourite` of the old one, and the handler always reports success |
| `Favourites.QuoteStore.PatchVote` | src/server.ts:131-146 | the table becomes `Vote` of the old one, and the handler always reports success |
| `Favourites.QuoteStore.PatchResetVotes` | src/server.ts:149-164 | the table becomes `ResetVotes` of the old one, and the handler always reports success |

## Left out

- Express setup, JSON body parsing, CORS, HTTP status codes and response texts, and `console.error` logging: framework plumbing and I/O. A handler's outcome is modelled as `Succeeded` or `Failed(...)`.
- Reading `DATABASE_URL` with dotenv, the fail-fast check on it, and `getEnvVarOrFail` for the port. `src/support/envVarUtils.ts` is not part of this model.
- Connecting the `pg` client, listening, and the `/health-check` round trip: network and database I/O. Any store error turns into a 500 reply; the model does not represent store errors other than the two add-favourite failures.
- The SQL queries themselves: the `COUNT(*)` read (the count is a parameter), the left join that yields `'true'`/`'false'` for `in_favourites`, and the `IN ($1, ..., $5)` lookup. When fewer than five ids are passed, what that lookup does depends on the pg driver.
- `GET /quotes/favourites` and its `order by votes desc`: the database does the ordering.
- Which rows exist: `RandomId` and `RandomIdList` give id values in 1..N. Those name existing rows only when the ids in `mot_quotes` are exactly 1..N, and a serial id column skips values after a failed insert. The model gives the id values; it does not say which rows exist.
- `POST /quotes` (adding a quote): the store assigns the id, so the only thing to say is that a row is appended.
- `Math.random` as a floating-point number, and any claim that the draws or the shuffle are uniform: probabilistic. The model takes every draw as an integer in its range.
- `parseInt` on counts and ids: ids and counts are integers in the model, and a `NaN` id is not represented.
- The uniqueness constraint on `favourite_quotes.quote_id` and the default of 0 votes: both belong to a database schema that is not part of this model. `AddFavourite` assumes them.
- The vote column's integer width: votes are unbounded integers, so an overflow error from the store is not modelled.
- Concurrency: handlers interleave between the count read and the lookup. Each operation is modelled as one atomic step.

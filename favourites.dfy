/**
 The favourites bookkeeping of the quote service. The favourite_quotes table
 is a map from quote_id to its row; each of the add, remove, vote and
 reset-votes handlers issues one SQL statement, whose effect on the table is
 given here as a function, and the class QuoteStore applies those effects to
 the tables the handlers share.
 */
module Favourites {

  /** A row of mot_quotes, keyed by its id. */
  datatype Quote = Quote(quote: string, author: string)

  /** A row of favourite_quotes, keyed by its quote_id: a copy of the quote's
      text and author taken when it was favourited, and its vote count. */
  datatype Favourite = Favourite(quote: string, author: string, votes: int)

  type Table = map<int, Favourite>

  /** Why adding a favourite fails: the lookup found no quote with that id, so
      reading the first returned row throws before the insert; or the store
      refuses a second row for the same quote_id. */
  datatype Failure = QuoteNotFound | AlreadyFavourited

  datatype Status = Succeeded | Failed(failure: Failure)

  /** What a handler reports, and the favourites table after it. */
  datatype Reply = Reply(status: Status, favourites: Table)

  /** Every favourite refers to an existing quote and has a vote count of at
      least zero. */
  predicate Consistent(quotes: map<int, Quote>, favourites: Table)
  {
    favourites.Keys <= quotes.Keys &&
    forall id :: id in favourites ==> favourites[id].votes >= 0
  }

  /* ---------------------------------------------------------------------
     The effect of each handler's statement on the favourites table
     --------------------------------------------------------------------- */

  /** Looks the quote up and inserts its copy with no votes. */
  function AddFavourite(quotes: map<int, Quote>, favourites: Table, id: int): (r: Reply)
    ensures r.status == Failed(QuoteNotFound) <==> id !in quotes
    ensures r.status == Failed(AlreadyFavourited) <==> id in quotes && id in favourites
    ensures r.status.Failed? ==> r.favourites == favourites
    ensures r.status == Succeeded ==>
      && r.favourites.Keys == favourites.Keys + {id}
      && r.favourites[id].quote == quotes[id].quote
      && r.favourites[id].author == quotes[id].author
      && r.favourites[id].votes == 0
      && forall k :: k in favourites ==> r.favourites[k] == favourites[k]
  {
    if id !in quotes then Reply(Failed(QuoteNotFound), favourites)
    else
      var found := quotes[id];
      if id in favourites then Reply(Failed(AlreadyFavourited), favourites)
      else Reply(Succeeded, favourites[id := Favourite(found.quote, found.author, 0)])
  }

  /** delete from favourite_quotes where quote_id = id. */
  function RemoveFavourite(favourites: Table, id: int): (r: Table)
    ensures r.Keys == favourites.Keys - {id}
    ensures forall k :: k in r ==> r[k] == favourites[k]
    ensures id !in favourites ==> r == favourites
  {
    favourites - {id}
  }

  /** update favourite_quotes set votes = votes + 1 where quote_id = id. */
  function Vote(favourites: Table, id: int): (r: Table)
    ensures r.Keys == favourites.Keys
    ensures forall k :: k in favourites && k != id ==> r[k] == favourites[k]
    ensures id in favourites ==>
      r[id].votes == favourites[id].votes + 1 &&
      r[id].quote == favourites[id].quote && r[id].author == favourites[id].author
    ensures id !in favourites ==> r == favourites
  {
    if id in favourites then favourites[id := favourites[id].(votes := favourites[id].votes + 1)]
    else favourites
  }

  /** update favourite_quotes set votes = 0 where quote_id = id. */
  function ResetVotes(favourites: Table, id: int): (r: Table)
    ensures r.Keys == favourites.Keys
    ensures forall k :: k in favourites && k != id ==> r[k] == favourites[k]
    ensures id in favourites ==>
      r[id].votes == 0 &&
      r[id].quote == favourites[id].quote && r[id].author == favourites[id].author
    ensures id !in favourites ==> r == favourites
  {
    if id in favourites then favourites[id := favourites[id].(votes := 0)]
    else favourites
  }

  /** n votes for the same quote in a row. */
  function VoteTimes(favourites: Table, id: int, n: nat): Table
  {
    if n == 0 then favourites else Vote(VoteTimes(favourites, id, n - 1), id)
  }

  /* ---------------------------------------------------------------------
     Properties of the handlers
     --------------------------------------------------------------------- */

  /** Each handler keeps the tables consistent. */
  lemma HandlersKeepConsistent(quotes: map<int, Quote>, favourites: Table, id: int)
    requires Consistent(quotes, favourites)
    ensures Consistent(quotes, AddFavourite(quotes, favourites, id).favourites)
    ensures Consistent(quotes, RemoveFavourite(favourites, id))
    ensures Consistent(quotes, Vote(favourites, id))
    ensures Consistent(quotes, ResetVotes(favourites, id))
  {
  }

  /** Removing a favourite twice is the same as removing it once. */
  lemma RemoveIsIdempotent(favourites: Table, id: int)
    ensures RemoveFavourite(RemoveFavourite(favourites, id), id) == RemoveFavourite(favourites, id)
  {
  }

  /** Favouriting the same quote twice: the second attempt fails, and the table
      keeps the one row the first attempt added. */
  lemma AddTwiceFails(quotes: map<int, Quote>, favourites: Table, id: int)
    requires id in quotes && id !in favourites
    ensures
      var first := AddFavourite(quotes, favourites, id);
      var second := AddFavourite(quotes, first.favourites, id);
      && second.status == Failed(AlreadyFavourited)
      && second.favourites == first.favourites
      && second.favourites[id] == Favourite(quotes[id].quote, quotes[id].author, 0)
  {
  }

  /** n votes raise the count of the voted quote by exactly n and change
      nothing else. */
  lemma {:induction false} VoteTimesCounts(favourites: Table, id: int, n: nat)
    ensures VoteTimes(favourites, id, n).Keys == favourites.Keys
    ensures forall k :: k in favourites && k != id ==> VoteTimes(favourites, id, n)[k] == favourites[k]
    ensures id in favourites ==>
      VoteTimes(favourites, id, n)[id] == favourites[id].(votes := favourites[id].votes + n)
  {
    if n > 0 {
      VoteTimesCounts(favourites, id, n - 1);
    }
  }

  /** Resetting after any number of votes is the same as resetting at once:
      the count is zero and the rest of the table is as before the votes. */
  lemma {:induction false} ResetUndoesVotes(favourites: Table, id: int, n: nat)
    ensures ResetVotes(VoteTimes(favourites, id, n), id) == ResetVotes(favourites, id)
  {
    if n > 0 {
      var before := VoteTimes(favourites, id, n - 1);
      ResetUndoesVotes(favourites, id, n - 1);
      assert ResetVotes(Vote(before, id), id) == ResetVotes(before, id);
    }
  }

  /** Votes and resets for a quote that is not a favourite change nothing, and
      removing a favourite makes later votes and resets for it no-ops. */
  lemma RemovedIgnoresVotes(favourites: Table, id: int)
    ensures Vote(RemoveFavourite(favourites, id), id) == RemoveFavourite(favourites, id)
    ensures ResetVotes(RemoveFavourite(favourites, id), id) == RemoveFavourite(favourites, id)
  {
  }

  /* ---------------------------------------------------------------------
     The handlers, applied to the shared tables
     --------------------------------------------------------------------- */

  /** The two tables the handlers share: mot_quotes and favourite_quotes. */
  class QuoteStore {
    var quotes: map<int, Quote>
    var favourites: Table

    ghost predicate Valid()
      reads this
    {
      Consistent(quotes, favourites)
    }

    /** A store with the given quotes and no favourites. */
    constructor (quotes: map<int, Quote>)
      ensures Valid()
      ensures this.quotes == quotes && favourites == map[]
    {
      this.quotes := quotes;
      favourites := map[];
    }

    /** POST /quotes/favourites: looks the quote up, then inserts its copy. */
    method PostFavourite(id: int) returns (status: Status)
      requires Valid()
      modifies this
      ensures Valid()
      ensures quotes == old(quotes)
      ensures Reply(status, favourites) == AddFavourite(old(quotes), old(favourites), id)
    {
      if id !in quotes {
        // the lookup returned no row; reading its fields throws
        return Failed(QuoteNotFound);
      }
      var found := quotes[id];
      if id in favourites {
        // the insert violates the uniqueness of quote_id
        return Failed(AlreadyFavourited);
      }
      favourites := favourites[id := Favourite(found.quote, found.author, 0)];
      status := Succeeded;
    }

    /** DELETE /quotes/favourites/:id: succeeds whether or not the row exists. */
    method DeleteFavourite(id: int) returns (status: Status)
      requires Valid()
      modifies this
      ensures Valid()
      ensures quotes == old(quotes)
      ensures favourites == RemoveFavourite(old(favourites), id)
      ensures status == Succeeded
    {
      favourites := favourites - {id};
      status := Succeeded;
    }

    /** PATCH /quotes/favourites/vote/:quote_id: succeeds whether or not the row exists. */
    method PatchVote(id: int) returns (status: Status)
      requires Valid()
      modifies this
      ensures Valid()
      ensures quotes == old(quotes)
      ensures favourites == Vote(old(favourites), id)
      ensures status == Succeeded
    {
      if id in favourites {
        var row := favourites[id];
        favourites := favourites[id := row.(votes := row.votes + 1)];
      }
      status := Succeeded;
    }

    /** PATCH /quotes/favourites/resetvotes/:quote_id: succeeds whether or not the row exists. */
    method PatchResetVotes(id: int) returns (status: Status)
      requires Valid()
      modifies this
      ensures Valid()
      ensures quotes == old(quotes)
      ensures favourites == ResetVotes(old(favourites), id)
      ensures status == Succeeded
    {
      if id in favourites {
        favourites := favourites[id := favourites[id].(votes := 0)];
      }
      status := Succeeded;
    }
  }
}

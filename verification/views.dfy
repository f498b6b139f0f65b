/**
 * The request handlers that change or read the auction store: placing a
 * bid, closing an auction, showing a listing, publishing a listing, adding
 * to or removing from a watchlist, and the cascade when a listing is
 * deleted. Each request is one atomic step on the store. A failed save (an
 * integrity error raised by the database) is the `saveFails` argument and
 * leaves the store as it was. `actor` is the session's user: None for an
 * anonymous visitor, otherwise a user the store knows.
 */
module Views {
  import opened Decimals
  import opened Models
  import opened Forms
  import opened Seqs
  import opened Bidding

  datatype BidOutcome =
    | BidListingMissing   // the listing lookup raises
    | BidFormInvalid      // the form does not validate: nothing is done
    | BidNotValid         // "Bid is not valid."
    | BidByAnonymous      // building a bid for an anonymous user raises
    | BidNotPlaced        // "Bid could not be placed."
    | BidPlaced           // "Bid placed successfully."

  datatype CloseOutcome =
    | CloseListingMissing          // the listing lookup raises
    | CloseNoBids                  // "Auction could not be closed": no bid to take the winner from
    | CloseNotSaved                // "Auction could not be closed": the save failed
    | Closed(winner: UserId)       // "Auction closed successfully"

  datatype NewOutcome =
    | NewFormInvalid       // the form does not validate; the handler then fails on an unbound name
    | NewByAnonymous       // building a listing for an anonymous user raises
    | NewNotSaved          // "Listing could not be saved."
    | Published(id: ListingId)

  datatype WatchOutcome =
    | WatchUserMissing      // the user lookup raises
    | WatchListingMissing   // the listing lookup raises
    | WatchNotAdded
    | WatchAdded
    | WatchNotRemoved
    | WatchRemoved

  /** What the listing page is rendered from. */
  datatype ListingPage = ListingPage(
    bidCount: nat,
    lastBid: int,
    listing: Listing,
    watching: seq<WatchlistEntry>)

  /** The watchlist rows of one (user, listing) pair. */
  function Watches(user: UserId, listing: ListingId): WatchlistEntry -> bool
  {
    (e: WatchlistEntry) => e.user == user && e.listing == listing
  }

  /** The bids of one listing. */
  function OnListing(listing: ListingId): Bid -> bool
  {
    (b: Bid) => b.listing == listing
  }

  /** The bids of every listing but one. */
  function OffListing(listing: ListingId): Bid -> bool
  {
    (b: Bid) => b.listing != listing
  }

  /** A bid on `listing` by `user` exists. */
  ghost predicate HasBidBy(bids: seq<Bid>, listing: ListingId, user: UserId)
  {
    exists b :: b in bids && b.listing == listing && b.user == user
  }

  /**
   * Listings: ids below the next id, a price that the form let through, an
   * owner the store knows, closed exactly when a winner is set, and a
   * winner who has bid on the listing.
   */
  ghost predicate ListingsOk(users: set<UserId>, listings: map<ListingId, Listing>, nextId: nat, bids: seq<Bid>)
  {
    forall id :: id in listings ==>
      && id < nextId
      && 0 <= listings[id].price && FitsField(listings[id].price)
      && listings[id].owner in users
      && (listings[id].isActive <==> listings[id].winner == None)
      && (listings[id].winner.Some? ==> HasBidBy(bids, id, listings[id].winner.value))
  }

  /**
   * Bids: references resolve, values fit the field and are not negative,
   * timestamps are below the clock and increase along the table, values
   * rise on each listing and are at least the listing's starting price.
   */
  ghost predicate BidsOk(users: set<UserId>, listings: map<ListingId, Listing>, bids: seq<Bid>, clock: nat)
  {
    && (forall b :: b in bids ==>
          b.listing in listings && b.user in users && 0 <= b.value && FitsField(b.value) && b.datetime < clock)
    && Chronological(bids)
    && Rising(bids)
    && AboveStart(bids, listings)
  }

  ghost predicate WatchlistOk(users: set<UserId>, listings: map<ListingId, Listing>, watchlist: seq<WatchlistEntry>, clock: nat)
  {
    forall e :: e in watchlist ==> e.user in users && e.listing in listings && e.createdAt < clock
  }

  /** Saving an accepted bid, stamped with the clock, keeps the invariants on listings and bids. */
  lemma PlacedBidKeepsInvariant(users: set<UserId>, listings: map<ListingId, Listing>, nextId: nat,
                                bids: seq<Bid>, clock: nat, b: Bid)
    requires ListingsOk(users, listings, nextId, bids) && BidsOk(users, listings, bids, clock)
    requires b.datetime == clock && b.listing in listings && b.user in users
    requires 0 <= b.value && FitsField(b.value)
    requires Accepts(LatestValue(bids, b.listing), b.value, listings[b.listing].price)
    ensures ListingsOk(users, listings, nextId, bids + [b]) && BidsOk(users, listings, bids + [b], clock + 1)
  {
    AcceptedBidKeepsOrder(bids, listings, b);
    forall id | id in listings && listings[id].winner.Some?
      ensures HasBidBy(bids + [b], id, listings[id].winner.value)
    {
      var w :| w in bids && w.listing == id && w.user == listings[id].winner.value;
      assert w in bids + [b];
    }
  }

  /** Closing on the latest bid keeps the invariant on listings. */
  lemma {:induction false} ClosedKeepsInvariant(users: set<UserId>, listings: map<ListingId, Listing>, nextId: nat,
                             bids: seq<Bid>, clock: nat, id: ListingId, latest: Bid)
    requires ListingsOk(users, listings, nextId, bids) && BidsOk(users, listings, bids, clock)
    requires id in listings && latest in bids && latest.listing == id
    ensures ListingsOk(users, listings[id := listings[id].(winner := Some(latest.user), isActive := false)], nextId, bids)
  {
  }

  /** Removing a listing with its bids and watchlist rows keeps every invariant. */
  lemma DeletedKeepsInvariant(users: set<UserId>, listings: map<ListingId, Listing>, nextId: nat,
                              bids: seq<Bid>, watchlist: seq<WatchlistEntry>, clock: nat, id: ListingId)
    requires ListingsOk(users, listings, nextId, bids) && BidsOk(users, listings, bids, clock)
    requires WatchlistOk(users, listings, watchlist, clock)
    ensures ListingsOk(users, listings - {id}, nextId, Filter(bids, OffListing(id)))
    ensures BidsOk(users, listings - {id}, Filter(bids, OffListing(id)), clock)
    ensures WatchlistOk(users, listings - {id}, Filter(watchlist, (e: WatchlistEntry) => e.listing != id), clock)
  {
    var keep := OffListing(id);
    FilterPairwise(bids, keep, Earlier);
    FilterPairwise(bids, keep, Rises);
    forall l | l in listings && l != id && listings[l].winner.Some?
      ensures HasBidBy(Filter(bids, keep), l, listings[l].winner.value)
    {
      var w :| w in bids && w.listing == l && w.user == listings[l].winner.value;
      assert keep(w);
    }
  }

  /** Dropping only bids of other listings does not change a listing's latest bid. */
  lemma {:induction false} LatestOfOtherListing(bids: seq<Bid>, keep: Bid -> bool, listing: ListingId)
    requires forall b: Bid :: b.listing == listing ==> keep(b)
    ensures LatestBid(Filter(bids, keep), listing) == LatestBid(bids, listing)
  {
    if bids != [] {
      var init, last := bids[..|bids| - 1], bids[|bids| - 1];
      var rest := Filter(init, keep);
      LatestOfOtherListing(init, keep, listing);
      if keep(last) {
        assert Filter(bids, keep) == rest + [last];
        assert (rest + [last])[..|rest|] == rest;
        assert LatestBid(rest + [last], listing) == LatestBid(bids, listing);
      } else {
        assert Filter(bids, keep) == rest;
        assert last.listing != listing;
      }
    }
  }

  class AuctionStore {
    var users: set<UserId>
    var listings: map<ListingId, Listing>
    var nextListingId: nat
    var bids: seq<Bid>
    var watchlist: seq<WatchlistEntry>
    /** The next timestamp the store hands out. */
    var clock: nat

    /**
     * The store invariant: references resolve, amounts fit their fields,
     * bids are stored in timestamp order and rise on each listing, a
     * listing is closed exactly when it has a winner, and a winner has bid.
     */
    ghost predicate Valid()
      reads this
    {
      && ListingsOk(users, listings, nextListingId, bids)
      && BidsOk(users, listings, bids, clock)
      && WatchlistOk(users, listings, watchlist, clock)
    }

    constructor (users: set<UserId>)
      ensures Valid()
      ensures this.users == users && listings == map[] && bids == [] && watchlist == []
      ensures nextListingId == 0 && clock == 0
    {
      this.users := users;
      listings := map[];
      nextListingId := 0;
      bids := [];
      watchlist := [];
      clock := 0;
    }

    /**
     * Place a bid of the submitted amount on a listing. The amount is
     * compared with the latest bid by timestamp; neither the listing's
     * status nor its owner is looked at.
     */
    method PlaceBid(listingId: ListingId, actor: Option<UserId>, amount: Option<RawDecimal>, saveFails: bool)
      returns (outcome: BidOutcome)
      requires Valid()
      requires actor.Some? ==> actor.value in users
      modifies this
      ensures Valid()
      ensures users == old(users) && listings == old(listings) && nextListingId == old(nextListingId)
      ensures watchlist == old(watchlist)
      ensures outcome == BidListingMissing <==> listingId !in listings
      ensures outcome == BidFormInvalid <==> listingId in listings && CleanAmount(amount).None?
      ensures outcome == BidNotValid <==>
        && listingId in listings && CleanAmount(amount).Some?
        && !Accepts(LatestValue(old(bids), listingId), CleanAmount(amount).value, listings[listingId].price)
      ensures outcome == BidByAnonymous <==>
        && listingId in listings && CleanAmount(amount).Some?
        && Accepts(LatestValue(old(bids), listingId), CleanAmount(amount).value, listings[listingId].price)
        && actor.None?
      ensures outcome == BidNotPlaced <==>
        && listingId in listings && CleanAmount(amount).Some?
        && Accepts(LatestValue(old(bids), listingId), CleanAmount(amount).value, listings[listingId].price)
        && actor.Some? && saveFails
      ensures outcome == BidPlaced <==>
        && listingId in listings && CleanAmount(amount).Some?
        && Accepts(LatestValue(old(bids), listingId), CleanAmount(amount).value, listings[listingId].price)
        && actor.Some? && !saveFails
      ensures outcome == BidPlaced ==>
        && bids == old(bids) + [Bid(CleanAmount(amount).value, old(clock), actor.value, listingId)]
        && clock == old(clock) + 1
        && LatestBid(bids, listingId) == Some(bids[|bids| - 1])
        && CurrentPrice(bids, listingId, listings[listingId].price) == CleanAmount(amount).value
        && (forall l :: l != listingId ==> LatestBid(bids, l) == LatestBid(old(bids), l))
      ensures outcome != BidPlaced ==> bids == old(bids) && clock == old(clock)
    {
      if listingId !in listings {
        return BidListingMissing;
      }
      var cleaned := CleanAmount(amount);
      if cleaned.None? {
        return BidFormInvalid;
      }
      var listing := listings[listingId];
      if !Accepts(LatestValue(bids, listingId), cleaned.value, listing.price) {
        return BidNotValid;
      }
      if actor.None? {
        return BidByAnonymous;
      }
      if saveFails {
        return BidNotPlaced;
      }
      var bid := Bid(cleaned.value, clock, actor.value, listingId);
      PlacedBidKeepsInvariant(users, listings, nextListingId, bids, clock, bid);
      LatestOfAppended(bids, bid);
      bids := bids + [bid];
      clock := clock + 1;
      outcome := BidPlaced;
    }

    /**
     * Close an auction: the bidder of the latest bid by timestamp becomes
     * the winner and the listing becomes inactive. Without a bid the lookup
     * fails before anything is assigned. Nobody checks that the listing is
     * still active or that the caller owns it.
     */
    method Close(listingId: ListingId, saveFails: bool) returns (outcome: CloseOutcome)
      requires Valid()
      modifies this
      ensures Valid()
      ensures users == old(users) && bids == old(bids) && watchlist == old(watchlist)
      ensures nextListingId == old(nextListingId) && clock == old(clock)
      ensures outcome == CloseListingMissing <==> listingId !in old(listings)
      ensures outcome == CloseNoBids <==> listingId in old(listings) && NoBidsOn(bids, listingId)
      ensures outcome == CloseNotSaved <==> listingId in old(listings) && !NoBidsOn(bids, listingId) && saveFails
      ensures !outcome.Closed? ==> listings == old(listings)
      ensures outcome.Closed? <==> listingId in old(listings) && !NoBidsOn(bids, listingId) && !saveFails
      ensures outcome.Closed? ==>
        && LatestBid(bids, listingId).Some?
        && outcome.winner == LatestBid(bids, listingId).value.user
        && listings == old(listings)[listingId := old(listings)[listingId].(winner := Some(outcome.winner), isActive := false)]
      ensures outcome.Closed? ==>
        forall b :: b in bids && b.listing == listingId ==> b.value <= LatestBid(bids, listingId).value.value
    {
      if listingId !in listings {
        return CloseListingMissing;
      }
      var latest := LatestBid(bids, listingId);
      if latest.None? {
        return CloseNoBids;
      }
      if saveFails {
        return CloseNotSaved;
      }
      var winner := latest.value.user;
      LatestIsHighest(bids, listingId);
      ClosedKeepsInvariant(users, listings, nextListingId, bids, clock, listingId, latest.value);
      listings := listings[listingId := listings[listingId].(winner := Some(winner), isActive := false)];
      outcome := Closed(winner);
    }

    /**
     * The listing page: the number of bids, the price to show (the latest
     * bid's value, or the starting price without bids), the listing, and the
     * viewer's watchlist rows for it.
     */
    function ListingPageOf(id: ListingId, viewer: Option<UserId>): (r: Option<ListingPage>)
      reads this
      requires Valid()
      ensures r.None? <==> id !in listings
      ensures r.Some? ==> r.value.listing == listings[id]
      ensures r.Some? ==> r.value.bidCount == Count(bids, OnListing(id))
      ensures r.Some? ==> (r.value.bidCount == 0 <==> NoBidsOn(bids, id))
      ensures r.Some? && r.value.bidCount == 0 ==> r.value.lastBid == listings[id].price
      ensures r.Some? && r.value.bidCount > 0 ==> r.value.lastBid == LatestBid(bids, id).value.value
      ensures r.Some? ==> r.value.lastBid >= listings[id].price
      ensures r.Some? ==> forall b :: b in bids && b.listing == id ==> b.value <= r.value.lastBid
      ensures r.Some? ==> forall e :: e in r.value.watching <==> e in watchlist && viewer == Some(e.user) && e.listing == id
      ensures r.Some? && viewer.None? ==> r.value.watching == []
      ensures r.Some? && viewer.Some? ==> |r.value.watching| == Count(watchlist, Watches(viewer.value, id))
    {
      if id !in listings then None
      else
        var onListing := Filter(bids, OnListing(id));
        assert onListing != [] ==> onListing[0] in onListing;
        FilterLength(bids, OnListing(id));
        var price := listings[id].price;
        LatestIsHighest(bids, id);
        var watching := match viewer
          case None => []
          case Some(u) => (FilterLength(watchlist, Watches(u, id)); Filter(watchlist, Watches(u, id)));
        Some(ListingPage(|onListing|, CurrentPrice(bids, id, price), listings[id], watching))
    }

    /**
     * Publish a listing from the new-listing form. The listing starts active
     * and without a winner. `fieldsValid` is whether the other form fields
     * (title, description, image, category) validate; `category` is the
     * category the handler found or created for the submitted name.
     */
    method New(actor: Option<UserId>, title: string, description: string, startingBid: Option<RawDecimal>,
               category: CategoryId, fieldsValid: bool, saveFails: bool)
      returns (outcome: NewOutcome)
      requires Valid()
      requires actor.Some? ==> actor.value in users
      modifies this
      ensures Valid()
      ensures users == old(users) && bids == old(bids) && watchlist == old(watchlist) && clock == old(clock)
      ensures outcome == NewFormInvalid <==> !fieldsValid || CleanAmount(startingBid).None?
      ensures outcome == NewByAnonymous <==> fieldsValid && CleanAmount(startingBid).Some? && actor.None?
      ensures outcome == NewNotSaved <==> fieldsValid && CleanAmount(startingBid).Some? && actor.Some? && saveFails
      ensures outcome.Published? <==> fieldsValid && CleanAmount(startingBid).Some? && actor.Some? && !saveFails
      ensures !outcome.Published? ==> listings == old(listings) && nextListingId == old(nextListingId)
      ensures outcome.Published? ==>
        && outcome.id == old(nextListingId) && outcome.id !in old(listings)
        && listings == old(listings)[outcome.id := NewListing(title, description, CleanAmount(startingBid).value, category, actor.value)]
        && listings[outcome.id].isActive && listings[outcome.id].winner == None
        && nextListingId == old(nextListingId) + 1
    {
      var cleaned := CleanAmount(startingBid);
      if !fieldsValid || cleaned.None? {
        return NewFormInvalid;
      }
      if actor.None? {
        return NewByAnonymous;
      }
      if saveFails {
        return NewNotSaved;
      }
      var id := nextListingId;
      listings := listings[id := NewListing(title, description, cleaned.value, category, actor.value)];
      nextListingId := nextListingId + 1;
      outcome := Published(id);
    }

    /**
     * Add a listing to a user's watchlist when `action` is "add"; for any
     * other action, delete every watchlist row of that user and listing.
     * Adding twice stores two rows.
     */
    method Watchlist(userId: UserId, listingId: ListingId, action: string, saveFails: bool)
      returns (outcome: WatchOutcome)
      requires Valid()
      modifies this
      ensures Valid()
      ensures users == old(users) && listings == old(listings) && bids == old(bids)
      ensures nextListingId == old(nextListingId)
      ensures outcome == WatchUserMissing <==> userId !in users
      ensures outcome == WatchListingMissing <==> userId in users && listingId !in listings
      ensures outcome == WatchNotAdded <==> userId in users && listingId in listings && action == "add" && saveFails
      ensures outcome == WatchAdded <==> userId in users && listingId in listings && action == "add" && !saveFails
      ensures outcome == WatchNotRemoved <==> userId in users && listingId in listings && action != "add" && saveFails
      ensures outcome == WatchRemoved <==> userId in users && listingId in listings && action != "add" && !saveFails
      ensures outcome == WatchAdded ==>
        && watchlist == old(watchlist) + [WatchlistEntry(userId, listingId, old(clock))]
        && clock == old(clock) + 1
        && Count(watchlist, Watches(userId, listingId)) == Count(old(watchlist), Watches(userId, listingId)) + 1
      ensures outcome == WatchRemoved ==>
        && watchlist == Filter(old(watchlist), (e: WatchlistEntry) => !Watches(userId, listingId)(e))
        && Count(watchlist, Watches(userId, listingId)) == 0
        && (forall e :: e in watchlist <==> e in old(watchlist) && !(e.user == userId && e.listing == listingId))
        && (forall u: UserId, l: ListingId :: (u, l) != (userId, listingId) ==>
              Count(watchlist, Watches(u, l)) == Count(old(watchlist), Watches(u, l)))
      ensures outcome != WatchAdded && outcome != WatchRemoved ==> watchlist == old(watchlist)
      ensures outcome != WatchAdded ==> clock == old(clock)
    {
      if userId !in users {
        return WatchUserMissing;
      }
      if listingId !in listings {
        return WatchListingMissing;
      }
      if action == "add" {
        if saveFails {
          return WatchNotAdded;
        }
        var entry := WatchlistEntry(userId, listingId, clock);
        CountAppend(watchlist, entry, Watches(userId, listingId));
        watchlist := watchlist + [entry];
        clock := clock + 1;
        forall b | b in bids ensures b.datetime < clock { }
        outcome := WatchAdded;
      } else {
        if saveFails {
          return WatchNotRemoved;
        }
        var keep := (e: WatchlistEntry) => !Watches(userId, listingId)(e);
        forall u: UserId, l: ListingId | (u, l) != (userId, listingId)
          ensures Count(Filter(watchlist, keep), Watches(u, l)) == Count(watchlist, Watches(u, l))
        {
          forall x: WatchlistEntry | Watches(u, l)(x) ensures keep(x) {
            assert x.user == u && x.listing == l;
            assert !Watches(userId, listingId)(x);
          }
          FilterKeepsCount(watchlist, keep, Watches(u, l));
        }
        watchlist := Filter(watchlist, keep);
        outcome := WatchRemoved;
      }
    }

    /**
     * Delete a listing. Its bids and watchlist rows go with it; every other
     * row stays, in its order.
     */
    method DeleteListing(id: ListingId) returns (deleted: bool)
      requires Valid()
      modifies this
      ensures Valid()
      ensures users == old(users) && nextListingId == old(nextListingId) && clock == old(clock)
      ensures deleted <==> id in old(listings)
      ensures !deleted ==> listings == old(listings) && bids == old(bids) && watchlist == old(watchlist)
      ensures deleted ==>
        && listings == old(listings) - {id}
        && bids == Filter(old(bids), OffListing(id))
        && watchlist == Filter(old(watchlist), (e: WatchlistEntry) => e.listing != id)
        && NoBidsOn(bids, id)
        && (forall l :: l != id ==> LatestBid(bids, l) == LatestBid(old(bids), l))
    {
      if id !in listings {
        return false;
      }
      var keepBid := OffListing(id);
      DeletedKeepsInvariant(users, listings, nextListingId, bids, watchlist, clock, id);
      forall l: ListingId | l != id ensures LatestBid(Filter(bids, keepBid), l) == LatestBid(bids, l) {
        LatestOfOtherListing(bids, keepBid, l);
      }
      listings := listings - {id};
      bids := Filter(bids, keepBid);
      watchlist := Filter(watchlist, (e: WatchlistEntry) => e.listing != id);
      deleted := true;
    }
  }
}

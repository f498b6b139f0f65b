/**
 * The decision rules of the bidding workflow, on values: the acceptance
 * test for a proposed bid, the latest bid of a listing (by timestamp, not
 * by amount), the price a listing page shows, and the invariants that a
 * store built by one request at a time keeps.
 */
module Bidding {
  import opened Models
  import opened Seqs

  /** Python's truth value of a decimal amount: zero (0.00) is false. */
  predicate Truthy(cents: int)
  {
    cents != 0
  }

  /**
   * The acceptance test: `(last and proposed > last) or (last is None and
   * proposed >= price)`. Note the truthiness test on `last`.
   */
  function Accepts(last: Option<int>, proposed: int, price: int): (ok: bool)
    ensures last.None? ==> (ok <==> proposed >= price)
    ensures last.Some? && last.value != 0 ==> (ok <==> proposed > last.value)
    ensures last.Some? && proposed == last.value ==> !ok
    ensures last == Some(0) ==> !ok
  {
    (last.Some? && Truthy(last.value) && proposed > last.value)
    || (last.None? && proposed >= price)
  }

  /** `b` has a timestamp no earlier than any other bid on its listing. */
  ghost predicate IsLatest(bids: seq<Bid>, b: Bid)
  {
    forall c :: c in bids && c.listing == b.listing ==> c.datetime <= b.datetime
  }

  /** No bid of `bids` is on `listing`. */
  ghost predicate NoBidsOn(bids: seq<Bid>, listing: ListingId)
  {
    forall b :: b in bids ==> b.listing != listing
  }

  /**
   * The bid on `listing` with the greatest timestamp, or None when the
   * listing has no bid (the lookup that raises `DoesNotExist`). Of two bids
   * with the same timestamp the one stored later is taken.
   */
  function LatestBid(bids: seq<Bid>, listing: ListingId): (r: Option<Bid>)
    ensures r.None? <==> NoBidsOn(bids, listing)
    ensures r.Some? ==> r.value in bids && r.value.listing == listing && IsLatest(bids, r.value)
  {
    if bids == [] then None
    else
      var init, last := bids[..|bids| - 1], bids[|bids| - 1];
      assert bids == init + [last];
      var earlier := LatestBid(init, listing);
      if last.listing != listing then earlier
      else if earlier.Some? && earlier.value.datetime > last.datetime then earlier
      else Some(last)
  }

  /** The value of the latest bid, the `last_bid` the acceptance test reads. */
  function LatestValue(bids: seq<Bid>, listing: ListingId): Option<int>
  {
    match LatestBid(bids, listing)
    case None => None
    case Some(b) => Some(b.value)
  }

  /** The price a listing page shows: the latest bid's value, or the starting price. */
  function CurrentPrice(bids: seq<Bid>, listing: ListingId, price: int): (p: int)
    ensures NoBidsOn(bids, listing) ==> p == price
    ensures !NoBidsOn(bids, listing) ==>
      exists b :: b in bids && b.listing == listing && IsLatest(bids, b) && b.value == p
  {
    match LatestBid(bids, listing)
    case None => price
    case Some(b) => b.value
  }

  function Earlier(a: Bid, b: Bid): bool
  {
    a.datetime < b.datetime
  }

  function Rises(a: Bid, b: Bid): bool
  {
    a.listing == b.listing ==> a.value < b.value
  }

  /** Bids are stored in strictly increasing timestamp order. */
  ghost predicate Chronological(bids: seq<Bid>)
  {
    Pairwise(bids, Earlier)
  }

  /** On each listing, every later bid is strictly higher than every earlier one. */
  ghost predicate Rising(bids: seq<Bid>)
  {
    Pairwise(bids, Rises)
  }

  /** Every bid on a known listing is at least that listing's starting price. */
  ghost predicate AboveStart(bids: seq<Bid>, listings: map<ListingId, Listing>)
  {
    forall b :: b in bids && b.listing in listings ==> b.value >= listings[b.listing].price
  }

  /**
   * A bid stored after every other becomes its listing's latest bid, and
   * the latest bid of every other listing stays what it was.
   */
  lemma {:induction false} LatestOfAppended(bids: seq<Bid>, b: Bid)
    requires forall c :: c in bids ==> c.datetime < b.datetime
    ensures LatestBid(bids + [b], b.listing) == Some(b)
    ensures forall l :: l != b.listing ==> LatestBid(bids + [b], l) == LatestBid(bids, l)
  {
    assert (bids + [b])[..|bids|] == bids;
  }

  /** In a store built one request at a time, the latest bid is also the highest. */
  lemma {:induction false} LatestIsHighest(bids: seq<Bid>, listing: ListingId)
    requires Chronological(bids) && Rising(bids)
    ensures LatestBid(bids, listing).Some? ==>
      forall c :: c in bids && c.listing == listing ==> c.value <= LatestBid(bids, listing).value.value
  {
    var r := LatestBid(bids, listing);
    if r.Some? {
      var k :| 0 <= k < |bids| && bids[k] == r.value;
      forall c | c in bids && c.listing == listing ensures c.value <= r.value.value {
        var i :| 0 <= i < |bids| && bids[i] == c;
        if k < i { assert false; }
        if i < k {
          assert Rises(bids[i], bids[k]);
        }
      }
    }
  }

  /**
   * Storing a bid that passed the acceptance test, stamped after every
   * other, keeps the three store invariants on bids.
   */
  lemma {:induction false} AcceptedBidKeepsOrder(bids: seq<Bid>, listings: map<ListingId, Listing>, b: Bid)
    requires Chronological(bids) && Rising(bids) && AboveStart(bids, listings)
    requires b.listing in listings
    requires forall c :: c in bids ==> c.datetime < b.datetime
    requires Accepts(LatestValue(bids, b.listing), b.value, listings[b.listing].price)
    ensures Chronological(bids + [b]) && Rising(bids + [b]) && AboveStart(bids + [b], listings)
  {
    PairwiseAppend(bids, b, Earlier);
    LatestIsHighest(bids, b.listing);
    var last := LatestBid(bids, b.listing);
    forall c | c in bids ensures Rises(c, b) {
      if c.listing == b.listing {
        assert last.Some?;
      }
    }
    PairwiseAppend(bids, b, Rises);
    if last.Some? {
      assert last.value.value >= listings[b.listing].price;
    }
  }

  /**
   * Bids are chosen by timestamp and never by amount: a later, lower bid is
   * the latest bid, and its bidder is the one a close would name. A table
   * like this one breaks `Rising`, so a store that serves one request at a
   * time never holds it; only two racing bid requests, each reading the
   * same latest bid before either saves, could produce it.
   */
  lemma LatestIgnoresAmount()
    ensures LatestBid([Bid(1500, 1, 10, 7), Bid(1000, 2, 20, 7)], 7) == Some(Bid(1000, 2, 20, 7))
    ensures CurrentPrice([Bid(1500, 1, 10, 7), Bid(1000, 2, 20, 7)], 7, 500) == 1000
  {
    LatestOfAppended([Bid(1500, 1, 10, 7)], Bid(1000, 2, 20, 7));
  }
}

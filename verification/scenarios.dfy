/**
 * Sequences of requests whose outcomes follow from the handlers' contracts
 * alone: the walk-through of a typical auction, and the two quirks of the
 * acceptance test and of closing.
 */
module Scenarios {
  import opened Decimals
  import opened Models
  import opened Forms
  import opened Bidding
  import opened Views

  /** `units` whole units written with two decimals, as in "50.00". */
  function Amount(units: nat): RawDecimal
  {
    RawDecimal(false, units * 100, -2)
  }

  /** A whole amount below 10^8 units cleans to its value in cents. */
  lemma AmountCleans(units: nat)
    requires units < 100_000_000
    ensures CleanAmount(Some(Amount(units))) == Some(units * 100)
  {
  }

  /**
   * A listing starting at 50.00: A bids 50.00 (accepted, equal to the
   * starting price), B bids 50.00 (a tie, rejected), B bids 60.00
   * (accepted); the owner closes, B wins and the listing is inactive.
   */
  method ClosingScenario() returns (outcome: CloseOutcome, activeAfter: bool)
    ensures outcome == Closed(2) && !activeAfter
  {
    AmountCleans(50);
    AmountCleans(60);
    var store := new AuctionStore({1, 2, 3});
    var created := store.New(Some(3), "Lamp", "Brass desk lamp", Some(Amount(50)), 0, true, false);
    assert created == Published(0);
    var bid := store.PlaceBid(0, Some(1), Some(Amount(50)), false);
    assert bid == BidPlaced;
    assert LatestValue(store.bids, 0) == Some(5000);
    bid := store.PlaceBid(0, Some(2), Some(Amount(50)), false);
    assert bid == BidNotValid;
    bid := store.PlaceBid(0, Some(2), Some(Amount(60)), false);
    assert bid == BidPlaced;
    assert LatestBid(store.bids, 0).value.user == 2;
    outcome := store.Close(0, false);
    activeAfter := store.listings[0].isActive;
  }

  /**
   * After A has won a closed auction at 50.00, B bids 60.00 on the closed
   * listing and is accepted; closing again makes B the winner.
   */
  method BidAfterCloseScenario() returns (first: CloseOutcome, late: BidOutcome, second: CloseOutcome)
    ensures first == Closed(1) && late == BidPlaced && second == Closed(2)
  {
    AmountCleans(50);
    AmountCleans(60);
    var store := new AuctionStore({1, 2, 3});
    var created := store.New(Some(3), "Lamp", "Brass desk lamp", Some(Amount(50)), 0, true, false);
    assert created == Published(0);
    var bid := store.PlaceBid(0, Some(1), Some(Amount(50)), false);
    assert bid == BidPlaced;
    first := store.Close(0, false);
    late := store.PlaceBid(0, Some(2), Some(Amount(60)), false);
    second := store.Close(0, false);
  }

  /**
   * A listing starting at 0.00 takes a first bid of 0.00; from then on the
   * latest bid is false as a truth value and every later bid is rejected,
   * however high.
   */
  method ZeroBidScenario() returns (first: BidOutcome, later: BidOutcome, price: int)
    ensures first == BidPlaced && later == BidNotValid && price == 0
  {
    AmountCleans(0);
    AmountCleans(1000);
    var store := new AuctionStore({1, 2});
    var created := store.New(Some(1), "Chair", "Oak chair", Some(Amount(0)), 0, true, false);
    assert created == Published(0);
    first := store.PlaceBid(0, Some(2), Some(Amount(0)), false);
    later := store.PlaceBid(0, Some(2), Some(Amount(1000)), false);
    var page := store.ListingPageOf(0, None);
    price := page.value.lastBid;
  }

  /** Closing a listing without bids fails and leaves it open without a winner. */
  method NoBidCloseScenario() returns (outcome: CloseOutcome, listing: Listing)
    ensures outcome == CloseNoBids && listing.isActive && listing.winner == None
  {
    AmountCleans(5);
    var store := new AuctionStore({1});
    var created := store.New(Some(1), "Vase", "Glass vase", Some(Amount(5)), 0, true, false);
    assert created == Published(0);
    outcome := store.Close(0, false);
    listing := store.listings[0];
  }
}

# Auction bidding workflow — a Dafny model

This project models the core of an online auction site built on Django: the
store of listings, bids and watchlist entries, and the request handlers that
change it or read it. The handlers are placing a bid, closing an auction,
showing a listing's current price, publishing a listing, and adding to or
removing from a watchlist. It also models the cascade that removes a
listing's bids and watchlist rows when the listing is deleted.

Amounts are integer cents. Both the model fields and the forms hold decimals
of at most ten digits, two of them after the point. Timestamps are naturals
that the store hands out in increasing order. Each request is one atomic step
on an `AuctionStore` object. The store's fields are the tables (`listings`,
`bids`, `watchlist`) and the handlers are its methods.

Modules:

- `Seqs` (`seqs.dfy`): `Filter`, `Count` and `Pairwise` over rows kept in insertion order.
- `Decimals` (`decimals.dfy`): how a decimal field counts digits, and the cents bound that counting amounts to.
- `Models` (`models.dfy`): the `Listing`, `Bid` and `WatchlistEntry` records and a new listing's defaults.
- `Forms` (`forms.dfy`): cleaning the amount field of the bid form and of the new-listing form.
- `Bidding` (`bidding.dfy`): the acceptance test, the latest bid, the current price, and the invariants a sequential store keeps.
- `Views` (`views.dfy`): the `AuctionStore` class and its handlers.
- `Scenarios` (`scenarios.dfy`): request sequences whose outcomes follow from the handlers' contracts.

The model follows the code literally in these places:

- The winner of a closed auction is the bidder of the bid with the latest
  timestamp, not of the highest bid.
- A first bid equal to the starting price is accepted. A later bid equal to
  the latest bid is rejected.
- The acceptance test reads `last_bid and cleaned_bid > last_bid`. A latest
  bid of 0.00 is false as a truth value, and it is not `None` either. So once a
  listing's latest bid is 0.00, every later bid is rejected. This can happen:
  the new-listing form accepts a starting price of 0.00.
- Neither placing a bid nor closing checks `is_active` or the owner. A bid on
  a closed listing follows the same rule, and closing again moves the winner
  to the new latest bidder.
- Closing a listing without bids fails before any field is assigned. The
  listing stays active and has no winner.

Where the handlers' own docstrings and the code differ, the model follows
the code:

- The docstring of `bid` (auctions/views.py:208-213) accepts a bid that is
  "higher than the current biggest bid". The code compares with the latest bid
  by timestamp, and adds the truthiness test above.
- The docstring of `close` (auctions/views.py:267) closes an auction "by its
  owner". The code does not check who closes.

In a store where every request runs alone, one more fact holds. On each
listing, every later bid is strictly higher than every earlier one
(`Bidding.Rising`, part of `AuctionStore.Valid`). So the latest bidder is also
the highest bidder (`Bidding.LatestIsHighest`). Only the unsynchronised race
between reading the latest bid and saving the new one could break this, and
that race is not modelled.

When the new-listing form does not validate, the handler still goes on to
`listing.id` (auctions/views.py:392-394). Nothing has bound `listing` at that
point, so the request fails. The model records this as the outcome
`NewFormInvalid` and leaves the store unchanged.

## Model

| member | source | states |
|---|---|---|
| `Decimals.FitsDigitsIff` | auctions/models.py:129-132 | A decimal fits ten digits with two decimal places exactly when it has at most two decimals and is below 10^10 cents in magnitude. Digits are counted as the field counts them, trailing zeros included. |
| `Forms.CleanAmount` | auctions/views.py:21-30 | The bid amount (and the starting bid, lines 78-83, same bounds) cleans to cents exactly when it has at most two decimals, is not below zero and is below 10^10 cents. The cleaned value equals the submitted amount. Anything else is an invalid form. |
| `Models.NewListing` | auctions/models.py:84-102 | A new listing is active and has no winner. It keeps the given price, owner, category, title and description. |
| `Bidding.Accepts` | auctions/views.py:246-247 | With no latest bid: accepted iff at least the starting price. With a non-zero latest bid: accepted iff strictly above it, so a tie is rejected. With a latest bid of 0: always rejected. |
| `Bidding.LatestBid` | auctions/views.py:235-242 | None exactly when the listing has no bid. Otherwise a stored bid on that listing whose timestamp is no earlier than any other bid on it. |
| `Bidding.CurrentPrice` | auctions/views.py:321-324 | The starting price when the listing has no bid. Otherwise the value of a bid on the listing with the greatest timestamp. |
| `Bidding.LatestOfAppended` | auctions/views.py:250-255 | A bid saved with a later timestamp than every stored bid becomes its listing's latest bid. Every other listing's latest bid is unchanged. |
| `Bidding.LatestIsHighest` | auctions/views.py:246-255 | When bids are in timestamp order and rise on each listing, the latest bid of a listing is at least every bid on it. |
| `Bidding.AcceptedBidKeepsOrder` | auctions/views.py:246-255 | Saving a bid that passed the acceptance test, stamped after all others, keeps three invariants: timestamp order, rising values per listing, and every bid at least its listing's starting price. |
| `Bidding.LatestIgnoresAmount` | auctions/views.py:285-291 | Of a 15.00 bid and a later 10.00 bid, the later one is the latest, and the shown price is 10.00. |
| `Views.AuctionStore.PlaceBid` | auctions/views.py:205-263 | Each outcome holds exactly under its own condition: a missing listing, an invalid form, a rejected amount, an accepted amount from an anonymous bidder (building the bid raises), and an accepted amount whose save fails ("Bid could not be placed."). Each leaves bids unchanged. Otherwise exactly one bid with the cleaned value, bidder, listing and next timestamp is appended. It becomes the latest bid and sets the current price. Other listings are untouched and the store invariant holds. |
| `Views.AuctionStore.Close` | auctions/views.py:266-298 | Closing with a bid and a successful save sets the winner to the latest bid's user and clears `is_active`. That winner also placed the highest bid. A missing listing, no bid or a failed save changes nothing. Bids are never changed. |
| `Views.AuctionStore.ListingPageOf` | auctions/views.py:301-335 | The page exists iff the listing does. The bid count is the number of bids on the listing, zero iff there are none. The shown price is the starting price without bids, otherwise the value of the latest bid by timestamp. It is at least the starting price and at least every bid on the listing. The watchlist rows shown are exactly the viewer's rows for that listing, as many as are stored, and none for an anonymous viewer. |
| `Views.AuctionStore.New` | auctions/views.py:358-394 | With valid fields, a cleaned starting bid, a signed-in owner and a successful save, a listing is added under a fresh id. It is active, has no winner and has the cleaned price. An anonymous owner (building the listing raises) and a failed save ("Listing could not be saved.") are separate outcomes, each under its own condition. Otherwise nothing changes. |
| `Views.AuctionStore.Watchlist` | auctions/views.py:402-457 | A missing user or listing changes nothing. "add" appends one row, so repeated adds store duplicates and the pair's count grows by one. Any other action deletes every row of that (user, listing) pair, keeps every other row in order, and leaves other pairs' counts unchanged. A failed save changes nothing, and its outcome says whether the add or the removal failed. |
| `Views.AuctionStore.DeleteListing` | auctions/models.py:134-142 | Deleting a listing removes it together with its bids and watchlist rows (`on_delete=CASCADE`). Other rows keep their order. Other listings keep their latest bid, and the invariant holds. |
| `Views.PlacedBidKeepsInvariant` | auctions/views.py:246-255 | Saving an accepted bid, stamped with the clock, keeps every invariant on listings and bids. A winner still has a bid on the listing. |
| `Views.ClosedKeepsInvariant` | auctions/views.py:285-293 | Setting a listing's winner to the bidder of one of its bids and clearing `is_active` keeps the listing invariant. A listing is closed exactly when it has a winner, and a winner has bid on it. |
| `Views.DeletedKeepsInvariant` | auctions/models.py:134-142 | Removing a listing with its bids and watchlist rows keeps every reference resolvable. It also keeps timestamp order and rising values. |
| `Views.LatestOfOtherListing` | auctions/models.py:138-142 | Removing only bids of other listings leaves a listing's latest bid unchanged. |
| `Scenarios.ClosingScenario` | auctions/views.py:246-293 | Starting price 50.00. A bids 50.00: accepted. B bids 50.00: rejected as a tie. B bids 60.00: accepted. The owner closes: B wins and the listing is inactive. |
| `Scenarios.BidAfterCloseScenario` | auctions/views.py:246-293 | After A wins at 50.00, B's 60.00 bid on the closed listing is accepted, and closing again names B. |
| `Scenarios.ZeroBidScenario` | auctions/views.py:246-247 | Starting price 0.00. A first bid of 0.00 is accepted. A later bid of 10.00 is rejected. The page still shows 0.00. |
| `Scenarios.NoBidCloseScenario` | auctions/views.py:284-296 | Closing a listing without bids fails. The listing stays active and has no winner. |

## Left out

- Login, logout and registration (auctions/views.py:89-188) are left out. They call Django's authentication, whose behaviour is not part of this model. The session user is the `actor` argument: None for an anonymous visitor, otherwise a known user.
- Views.AuctionStore.PlaceBid: requires that a signed-in bidder is a user the store knows. This is what the session guarantees. A bidder whose row has vanished is not modelled.
- Views.AuctionStore.New: requires the same of a signed-in owner. The category get-or-create step (auctions/views.py:371-375) relies on case-insensitive database matching, so the category is an argument here, and a category that step creates is not recorded. Validation of title, description, image and category is the argument `fieldsValid`. The GET path only renders a form.
- Database integrity errors are the argument `saveFails` and leave the store unchanged. No constraint logic is modelled.
- Rendering, flash messages, redirects and form widgets are left out. So are image uploads and the `index` page. Each handler returns an outcome value instead.
- Parsing of the submitted text into a decimal is left out. This covers whitespace, localisation and "NaN" or "Infinity". The form input arrives as a finite decimal, or as None when nothing usable was sent.
- Query parameters are ids, not strings. A missing or non-numeric parameter is not modelled.
- The race between reading the latest bid and saving a new one is left out, because each request is one atomic step. Two bids with the same timestamp are left out too: the store's clock is strictly increasing. `Bidding.LatestBid` settles a tie in favour of the bid stored later, which the database does not promise.
- Deleting a user is left out. In the source that cascades to the user's listings and bids and clears `winner` through SET_NULL. Comments and the comment view are left out as well. The URL table refers to a `views.comment` that does not exist, and auctions/urls.py is a routing table only.
- The `__str__` methods and the listing's image and creation date are left out. They do not affect any rule.

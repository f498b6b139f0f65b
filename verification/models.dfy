/**
 * The stored records of the auction site: listings, bids and watchlist
 * entries. Users, categories and listings are referred to by their primary
 * keys; amounts are integer cents; timestamps are store-assigned naturals.
 */
module Models {

  datatype Option<T> = None | Some(value: T)

  type UserId = nat
  type ListingId = nat
  type CategoryId = nat

  /**
   * A listing. `winner` is a nullable reference to a user; `isActive`
   * defaults to true. The image and creation date are not modelled.
   */
  datatype Listing = Listing(
    title: string,
    description: string,
    price: int,
    isActive: bool,
    winner: Option<UserId>,
    category: CategoryId,
    owner: UserId)

  /** A bid: its amount, the time it was stored, the bidder and the listing. */
  datatype Bid = Bid(value: int, datetime: nat, user: UserId, listing: ListingId)

  /** A watchlist entry; nothing makes (user, listing) unique. */
  datatype WatchlistEntry = WatchlistEntry(user: UserId, listing: ListingId, createdAt: nat)

  /** A listing as first saved: the two defaulted fields take their defaults. */
  function NewListing(title: string, description: string, price: int, category: CategoryId, owner: UserId)
    : (l: Listing)
    ensures l.isActive && l.winner == None
    ensures l.price == price && l.owner == owner && l.category == category
    ensures l.title == title && l.description == description
  {
    Listing(title, description, price, true, None, category, owner)
  }
}

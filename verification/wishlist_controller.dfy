/** The wishlist handlers (backend/controllers/wishlistController.js). Request ids
    arrive as text; the listings collection is read to check that a listing
    exists. */
module WishlistController {
  import opened Common
  import opened WishlistModel
  import ObjectIds
  import ListingController

  const ListingNotFound: string := "Listing not found"
  const AlreadyInWishlist: string := "Item already in wishlist"
  const ItemAdded: string := "Item added to wishlist"
  const WishlistNotFound: string := "Wishlist not found"
  const ItemRemoved: string := "Item removed from wishlist"

  /** The wishlists collection, keyed by user (one wishlist per user). */
  class WishlistCollection {
    var wishlists: map<UserId, Wishlist>

    /** Each wishlist is stored under its own user, and never lists a listing twice. */
    ghost predicate Valid()
      reads this
    {
      forall u | u in wishlists ::
        && wishlists[u].user == u
        && DistinctListings(wishlists[u].listings)
        && AllObjectIds(wishlists[u].listings)
    }

    constructor ()
      ensures Valid() && wishlists == map[]
    {
      wishlists := map[];
    }

    /** The caller's entries; a user without a wishlist has none. */
    function Entries(caller: UserId): (r: seq<WishEntry>)
      reads this
      ensures caller !in wishlists ==> r == []
      ensures caller in wishlists ==> r == wishlists[caller].listings
    {
      if caller in wishlists then wishlists[caller].listings else []
    }

    /** `getWishlist`: always 200; the empty list when the caller has no wishlist. */
    function GetWishlist(caller: UserId): (reply: Reply<seq<WishEntry>>)
      reads this
      ensures reply.Ok? && reply.status == 200
      ensures caller !in wishlists ==> reply.data == []
      ensures caller in wishlists ==> reply.data == wishlists[caller].listings
    {
      Ok(200, Entries(caller))
    }

    /** `addToWishlist`: the listing must exist (404, or 500 for text that is not
        an ObjectId); the wishlist is created on first use; an id already present
        is refused with 400; otherwise one entry is appended at the end. Only the
        caller's wishlist can change. */
    method AddToWishlist(caller: UserId, listingId: Option<string>,
                         store: ListingController.ListingCollection, now: int)
      returns (reply: Reply<string>)
      requires Valid()
      modifies this
      ensures Valid()
      ensures listingId.None? ==> reply == Err(404, ListingNotFound) && wishlists == old(wishlists)
      ensures listingId.Some? && ObjectIds.Parse(listingId.value).None? ==>
        reply.Err? && reply.status == 500 && wishlists == old(wishlists)
      ensures listingId.Some? && ObjectIds.Parse(listingId.value).Some? ==>
        var id := ObjectIds.Parse(listingId.value).value;
        if id !in store.listings then
          reply == Err(404, ListingNotFound) && wishlists == old(wishlists)
        else if HasListing(old(Entries(caller)), id) then
          reply == Err(400, AlreadyInWishlist) && wishlists == old(wishlists)
        else
          && reply == Ok(200, ItemAdded)
          && wishlists == old(wishlists)[caller := Wishlist(caller, old(Entries(caller)) + [NewEntry(id, now)])]
    {
      if listingId.None? {
        return Err(404, ListingNotFound);
      }
      var parsed := ObjectIds.Parse(listingId.value);
      if parsed.None? {
        return Err(500, "Cast to ObjectId failed");
      }
      var id := parsed.value;
      if id !in store.listings {
        return Err(404, ListingNotFound);
      }
      var wishlist := if caller in wishlists then wishlists[caller] else NewWishlist(caller);
      ContainsIffHasListing(wishlist.listings, listingId.value, id);
      if Contains(wishlist.listings, listingId.value) {
        return Err(400, AlreadyInWishlist);
      }
      AppendPreserves(wishlist.listings, id, now);
      wishlist := wishlist.(listings := wishlist.listings + [NewEntry(id, now)]);
      wishlists := wishlists[caller := wishlist];
      reply := Ok(200, ItemAdded);
    }

    /** `removeFromWishlist`: 404 without a wishlist; otherwise the entries for that
        listing are dropped, the rest keep their order, and the answer is 200 even
        when nothing was there. */
    method RemoveFromWishlist(caller: UserId, listingId: string) returns (reply: Reply<string>)
      requires Valid()
      modifies this
      ensures Valid()
      ensures caller !in old(wishlists) ==>
        reply == Err(404, WishlistNotFound) && wishlists == old(wishlists)
      ensures caller in old(wishlists) ==>
        && reply == Ok(200, ItemRemoved)
        && wishlists == old(wishlists)[caller := Wishlist(caller, Without(old(wishlists[caller].listings), listingId))]
    {
      if caller !in wishlists {
        return Err(404, WishlistNotFound);
      }
      var wishlist := wishlists[caller];
      WithoutPreserves(wishlist.listings, listingId);
      wishlist := wishlist.(listings := Without(wishlist.listings, listingId));
      wishlists := wishlists[caller := wishlist];
      reply := Ok(200, ItemRemoved);
    }

    /** `checkWishlistItem`: true exactly when the caller's wishlist has an entry
        for that listing; false when there is no wishlist. */
    function CheckWishlistItem(caller: UserId, listingId: string): (inWishlist: bool)
      reads this
      ensures inWishlist <==> caller in wishlists && Contains(wishlists[caller].listings, listingId)
      ensures caller !in wishlists ==> !inWishlist
    {
      caller in wishlists && Contains(wishlists[caller].listings, listingId)
    }
  }

  /** Adding then checking the same text finds it, whether or not the listing was
      already there. */
  lemma CheckAfterAdd(entries: seq<WishEntry>, s: string, id: ListingId, now: int)
    requires ObjectIds.Parse(s) == Some(id)
    ensures HasListing(entries, id) ==> Contains(entries, s)
    ensures Contains(entries + [NewEntry(id, now)], s)
  {
    ContainsIffHasListing(entries, s, id);
    ContainsAfterAppend(entries, s, id, now);
  }

  /** After a remove, a check of the same text fails, and a second remove changes
      nothing. */
  lemma CheckAfterRemove(entries: seq<WishEntry>, s: string)
    ensures !Contains(Without(entries, s), s)
    ensures Without(Without(entries, s), s) == Without(entries, s)
  {
    WithoutIdempotent(entries, s);
  }
}

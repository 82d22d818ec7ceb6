/** The listing handlers (backend/controllers/listingController.js) over the
    listings collection. The authenticated caller's id is a parameter; so are the
    clock and the name multer gave an uploaded file. */
module ListingController {
  import opened Common
  import opened ListingModel
  import Lists

  const ListingNotFound: string := "Listing not found"
  const ListingDeleted: string := "Listing deleted"

  /** The listings collection: documents by id, and the next id to hand out. */
  class ListingCollection {
    var listings: map<ListingId, Listing>
    var nextId: ListingId

    /** Every stored document carries its own key, and keys are below `nextId`. */
    ghost predicate Valid()
      reads this
    {
      forall id :: id in listings ==> listings[id].id == id && id < nextId
    }

    constructor ()
      ensures Valid() && listings == map[]
    {
      listings := map[];
      nextId := 0;
    }

    /** `createListing`: 201 with the new document, or 400 when it fails
        validation; the seller is always the caller. */
    method CreateListing(caller: UserId, body: ListingBody, upload: Option<string>, now: int)
      returns (reply: Reply<Listing>)
      requires Valid()
      modifies this
      ensures Valid()
      ensures match NewListing(body, upload, caller, old(nextId), now)
        case Some(l) =>
          && reply == Ok(201, l)
          && old(nextId) !in old(listings)
          && listings == old(listings)[old(nextId) := l]
          && l.seller == caller
        case None =>
          reply == Err(400, ValidationFailed) && listings == old(listings)
    {
      var created := NewListing(body, upload, caller, nextId, now);
      match created {
        case Some(l) =>
          assert l.id == nextId && l.seller == caller;
          assert nextId !in listings;
          listings := listings[nextId := l];
          nextId := nextId + 1;
          reply := Ok(201, l);
        case None =>
          reply := Err(400, ValidationFailed);
      }
    }

    /** `getListings`: every listing whose status is active, newest first. */
    method GetListings() returns (r: seq<Listing>)
      ensures forall l :: l in r <==> l in listings.Values && l.status == Active
      ensures Lists.NoDuplicates(r)
      ensures forall i, j :: 0 <= i < j < |r| ==> r[i].createdAt >= r[j].createdAt
    {
      r := Lists.SelectNewestFirst(listings, (l: Listing) => l.status == Active,
                                   (l: Listing) => l.createdAt as real);
    }

    /** `getListing`: the document with that id, or 404. */
    function GetListing(id: ListingId): (reply: Reply<Listing>)
      reads this
      ensures reply.Ok? <==> id in listings
      ensures reply.Ok? ==> reply.status == 200 && reply.data == listings[id]
      ensures reply.Err? ==> reply == Err(404, ListingNotFound)
    {
      if id in listings then Ok(200, listings[id]) else Err(404, ListingNotFound)
    }

    /** `getMyListings`: every listing of the caller, whatever its status, newest first. */
    method GetMyListings(caller: UserId) returns (r: seq<Listing>)
      ensures forall l :: l in r <==> l in listings.Values && l.seller == caller
      ensures Lists.NoDuplicates(r)
      ensures forall i, j :: 0 <= i < j < |r| ==> r[i].createdAt >= r[j].createdAt
    {
      r := Lists.SelectNewestFirst(listings, (l: Listing) => l.seller == caller,
                                   (l: Listing) => l.createdAt as real);
    }

    /** The filter `{ _id: id, seller: caller }` of update and delete. */
    predicate Owns(caller: UserId, id: ListingId)
      reads this
    {
      id in listings && listings[id].seller == caller
    }

    /** `updateListing`: only the owner's listing is patched, with whatever the body
        holds and without looking at the current status; anything else is 404 and
        leaves the collection as it was. */
    method UpdateListing(caller: UserId, id: ListingId, patch: ListingPatch, now: int)
      returns (reply: Reply<Listing>)
      requires Valid()
      modifies this
      ensures Valid() && nextId == old(nextId)
      ensures old(Owns(caller, id)) ==>
        && reply == Ok(200, ApplyPatch(old(listings[id]), patch, now))
        && listings == old(listings)[id := ApplyPatch(old(listings[id]), patch, now)]
      ensures !old(Owns(caller, id)) ==>
        reply == Err(404, ListingNotFound) && listings == old(listings)
    {
      if Owns(caller, id) {
        var updated := ApplyPatch(listings[id], patch, now);
        listings := listings[id := updated];
        reply := Ok(200, updated);
      } else {
        reply := Err(404, ListingNotFound);
      }
    }

    /** `deleteListing`: removes exactly the caller's listing with that id and
        nothing else; a missing id or another seller's listing is 404. */
    method DeleteListing(caller: UserId, id: ListingId) returns (reply: Reply<string>)
      requires Valid()
      modifies this
      ensures Valid() && nextId == old(nextId)
      ensures old(Owns(caller, id)) ==>
        reply == Ok(200, ListingDeleted) && listings == old(listings) - {id}
      ensures !old(Owns(caller, id)) ==>
        reply == Err(404, ListingNotFound) && listings == old(listings)
      ensures forall other :: other in old(listings) && other != id ==>
        other in listings && listings[other] == old(listings[other])
    {
      if Owns(caller, id) {
        listings := listings - {id};
        reply := Ok(200, ListingDeleted);
      } else {
        reply := Err(404, ListingNotFound);
      }
    }
  }
}

/** The wishlist schema (backend/models/Wishlist.js) and the entry-list operations
    its handlers perform: append, filter out by id, and membership. */
module WishlistModel {
  import opened Common
  import ObjectIds
  import Lists

  datatype PriceAlert = PriceAlert(enabled: bool, targetPrice: Option<real>)

  datatype WishEntry = WishEntry(listing: ListingId, addedAt: int, priceAlert: PriceAlert)

  /** One user's wishlist. The collection keys wishlists by user, which is the
      unique index on `user`. */
  datatype Wishlist = Wishlist(user: UserId, listings: seq<WishEntry>)

  /** `listings.push({ listing })`: `addedAt` defaults to the insertion time and the
      price alert is off, with no target price. */
  function NewEntry(listing: ListingId, now: int): (e: WishEntry)
    ensures e.listing == listing && e.addedAt == now
    ensures !e.priceAlert.enabled && e.priceAlert.targetPrice.None?
  {
    WishEntry(listing, now, PriceAlert(false, None))
  }

  /** `new Wishlist({ user, listings: [] })`. */
  function NewWishlist(user: UserId): (w: Wishlist)
    ensures w.user == user && w.listings == []
  {
    Wishlist(user, [])
  }

  /** No two entries reference the same listing. */
  predicate DistinctListings(entries: seq<WishEntry>) {
    forall i, j | 0 <= i < j < |entries| :: entries[i].listing != entries[j].listing
  }

  /** Every entry references an id that has a text form. */
  predicate AllObjectIds(entries: seq<WishEntry>) {
    forall i | 0 <= i < |entries| :: entries[i].listing < ObjectIds.Pow16(ObjectIds.TextLength)
  }

  predicate HasListing(entries: seq<WishEntry>, id: ListingId) {
    exists i | 0 <= i < |entries| :: entries[i].listing == id
  }

  /** The entry is for the listing the request text names. */
  predicate Names(e: WishEntry, s: string) {
    ObjectIds.Parse(s) == Some(e.listing)
  }

  /** `item.listing.toString() === listingId`, as the handlers write it. */
  predicate NamesAsWritten(e: WishEntry, s: string) {
    ObjectIds.ToText(e.listing) == s
  }

  /** For the lower-case text that `toString` produces, comparing texts and
      comparing ids agree. */
  lemma NamesAgreeOnLowerCase(e: WishEntry, s: string)
    requires e.listing < ObjectIds.Pow16(ObjectIds.TextLength)
    requires ObjectIds.AllLowerHex(s)
    ensures NamesAsWritten(e, s) <==> Names(e, s)
  {
    ObjectIds.ParseToText(e.listing);
    if Names(e, s) {
      ObjectIds.ToTextParse(s);
    }
  }

  /** `wishlist.listings.some(item => ...)`. */
  predicate Contains(entries: seq<WishEntry>, s: string) {
    exists i | 0 <= i < |entries| :: Names(entries[i], s)
  }

  lemma ContainsIffHasListing(entries: seq<WishEntry>, s: string, id: ListingId)
    requires ObjectIds.Parse(s) == Some(id)
    ensures Contains(entries, s) <==> HasListing(entries, id)
  {
    if HasListing(entries, id) {
      var i :| 0 <= i < |entries| && entries[i].listing == id;
      assert Names(entries[i], s);
    }
  }

  /** `wishlist.listings.some(item => item.listing.toString() === listingId)`, as
      the handlers write it: a text comparison. */
  predicate ContainsAsWritten(entries: seq<WishEntry>, s: string) {
    exists i | 0 <= i < |entries| :: NamesAsWritten(entries[i], s)
  }

  /** On lower-case request text the written comparison and the id comparison
      find the same entries. */
  lemma ContainsAsWrittenOnLowerCase(entries: seq<WishEntry>, s: string)
    requires AllObjectIds(entries) && ObjectIds.AllLowerHex(s)
    ensures ContainsAsWritten(entries, s) <==> Contains(entries, s)
  {
    forall i | 0 <= i < |entries| ensures NamesAsWritten(entries[i], s) <==> Names(entries[i], s) {
      NamesAgreeOnLowerCase(entries[i], s);
    }
  }

  /** `wishlist.listings.filter(item => ...)`: the entries not named by `s`, in order. */
  function Without(entries: seq<WishEntry>, s: string): (r: seq<WishEntry>)
    ensures |r| <= |entries|
    ensures forall e :: e in r <==> e in entries && !Names(e, s)
    ensures !Contains(r, s)
    ensures Lists.IsSubsequence(r, entries)
  {
    Lists.FilterIsSubsequence(entries, (e: WishEntry) => !Names(e, s));
    Lists.Filter(entries, (e: WishEntry) => !Names(e, s))
  }

  /** Removing an id that is not there changes nothing. */
  lemma {:induction false} WithoutAbsent(entries: seq<WishEntry>, s: string)
    requires !Contains(entries, s)
    ensures Without(entries, s) == entries
  {
    Lists.FilterAll(entries, (e: WishEntry) => !Names(e, s));
  }

  /** Removing twice is removing once. */
  lemma WithoutIdempotent(entries: seq<WishEntry>, s: string)
    ensures Without(Without(entries, s), s) == Without(entries, s)
  {
    WithoutAbsent(Without(entries, s), s);
  }

  /** A sub-list keeps the distinctness and the well-formed ids of its list. */
  lemma SubsequencePreserves(a: seq<WishEntry>, b: seq<WishEntry>)
    requires Lists.IsSubsequence(a, b) && DistinctListings(b) && AllObjectIds(b)
    ensures DistinctListings(a) && AllObjectIds(a)
  {
    Lists.SubsequenceMembers(a, b);
    forall i | 0 <= i < |a| ensures a[i].listing < ObjectIds.Pow16(ObjectIds.TextLength) {
      assert a[i] in a;
    }
    SubsequenceDistinct(a, b);
  }

  lemma {:induction false} SubsequenceDistinct(a: seq<WishEntry>, b: seq<WishEntry>)
    requires Lists.IsSubsequence(a, b) && DistinctListings(b)
    ensures DistinctListings(a)
    decreases |b|
  {
    if a != [] {
      TailDistinct(b);
      if a[0] == b[0] {
        SubsequenceDistinct(a[1..], b[1..]);
        Lists.SubsequenceMembers(a[1..], b[1..]);
        ConsDistinct(b, a[1..]);
        assert a == [a[0]] + a[1..];
      } else {
        SubsequenceDistinct(a, b[1..]);
      }
    }
  }

  lemma TailDistinct(b: seq<WishEntry>)
    requires b != [] && DistinctListings(b)
    ensures DistinctListings(b[1..])
  {
    forall i, j | 0 <= i < j < |b| - 1 ensures b[1..][i].listing != b[1..][j].listing {
      assert b[1..][i] == b[i + 1] && b[1..][j] == b[j + 1];
    }
  }

  /** The head of a distinct list can go in front of any distinct list drawn from
      its tail. */
  lemma ConsDistinct(b: seq<WishEntry>, t: seq<WishEntry>)
    requires b != [] && DistinctListings(b) && DistinctListings(t)
    requires forall e :: e in t ==> e in b[1..]
    ensures DistinctListings([b[0]] + t)
  {
    var r := [b[0]] + t;
    forall i, j | 0 <= i < j < |r| ensures r[i].listing != r[j].listing {
      if i == 0 {
        assert r[j] == t[j - 1] && t[j - 1] in t;
        var k :| 0 <= k < |b[1..]| && b[1..][k] == r[j];
        assert b[k + 1] == r[j];
      } else {
        assert r[i] == t[i - 1] && r[j] == t[j - 1];
      }
    }
  }

  lemma WithoutPreserves(entries: seq<WishEntry>, s: string)
    requires DistinctListings(entries) && AllObjectIds(entries)
    ensures DistinctListings(Without(entries, s)) && AllObjectIds(Without(entries, s))
  {
    SubsequencePreserves(Without(entries, s), entries);
  }

  /** Appending an entry for a listing not yet present keeps the ids distinct. */
  lemma AppendPreserves(entries: seq<WishEntry>, id: ListingId, now: int)
    requires DistinctListings(entries) && AllObjectIds(entries)
    requires !HasListing(entries, id) && id < ObjectIds.Pow16(ObjectIds.TextLength)
    ensures DistinctListings(entries + [NewEntry(id, now)])
    ensures AllObjectIds(entries + [NewEntry(id, now)])
  {
    AppendDistinct(entries, NewEntry(id, now));
    AppendIds(entries, NewEntry(id, now));
  }

  lemma AppendDistinct(entries: seq<WishEntry>, e: WishEntry)
    requires DistinctListings(entries) && !HasListing(entries, e.listing)
    ensures DistinctListings(entries + [e])
  {
    var r := entries + [e];
    forall i, j | 0 <= i < j < |r|
      ensures r[i].listing != r[j].listing
    {
      assert r[i] == entries[i];
      if j < |entries| {
        assert r[j] == entries[j];
      }
    }
  }

  lemma AppendIds(entries: seq<WishEntry>, e: WishEntry)
    requires AllObjectIds(entries) && e.listing < ObjectIds.Pow16(ObjectIds.TextLength)
    ensures AllObjectIds(entries + [e])
  {
    var r := entries + [e];
    forall i | 0 <= i < |r| ensures r[i].listing < ObjectIds.Pow16(ObjectIds.TextLength) {
      if i < |entries| {
        assert r[i] == entries[i];
      }
    }
  }

  /** After an append for the listing `s` names, `some` finds it. */
  lemma ContainsAfterAppend(entries: seq<WishEntry>, s: string, id: ListingId, now: int)
    requires ObjectIds.Parse(s) == Some(id)
    ensures Contains(entries + [NewEntry(id, now)], s)
  {
    var r := entries + [NewEntry(id, now)];
    assert Names(r[|entries|], s);
  }

  /** The duplicate check of `addToWishlist` as written: it compares the stored
      id's lower-case text with the request text. `None` is the 400 answer. */
  function AddedAsWritten(entries: seq<WishEntry>, s: string, id: ListingId, now: int)
    : (r: Option<seq<WishEntry>>)
    ensures r.None? <==> ContainsAsWritten(entries, s)
    ensures r.Some? ==> r.value == entries + [NewEntry(id, now)]
  {
    if ContainsAsWritten(entries, s) then None
    else Some(entries + [NewEntry(id, now)])
  }

  /** The request text that finds a listing need not be the text the check
      compares with: the upper-case spelling of a stored id passes the check and
      adds the same listing a second time. */
  lemma AddedAsWrittenDuplicates(id: ListingId, now: int)
    requires id < ObjectIds.Pow16(ObjectIds.TextLength) && id % 16 >= 10
    ensures var entries := [NewEntry(id, now)];
            var t := ObjectIds.ToText(id);
            var s := t[..ObjectIds.TextLength - 1] + ['A' + (id % 16 - 10) as char];
            && DistinctListings(entries)
            && ObjectIds.Parse(s) == Some(id)
            && AddedAsWritten(entries, s, id, now).Some?
            && !DistinctListings(AddedAsWritten(entries, s, id, now).value)
  {
    var t := ObjectIds.ToText(id);
    var s := t[..ObjectIds.TextLength - 1] + ['A' + (id % 16 - 10) as char];
    ObjectIds.UpperCaseAlias(id);
    AliasAddedTwice(id, now, s);
  }

  /** A text other than the printed id passes the check against that id's entry. */
  lemma AliasAddedTwice(id: ListingId, now: int, s: string)
    requires s != ObjectIds.ToText(id)
    ensures var entries := [NewEntry(id, now)];
            && DistinctListings(entries)
            && AddedAsWritten(entries, s, id, now).Some?
            && !DistinctListings(AddedAsWritten(entries, s, id, now).value)
  {
    var entries := [NewEntry(id, now)];
    assert !NamesAsWritten(entries[0], s);
    var r := AddedAsWritten(entries, s, id, now).value;
    assert r[0].listing == r[1].listing;
  }

  /** The check of `checkWishlistItem` as written does not find what `addToWishlist`
      just pushed for the upper-case spelling of a listing's id. */
  lemma CheckAfterAddAsWritten(id: ListingId, now: int)
    requires id < ObjectIds.Pow16(ObjectIds.TextLength) && id % 16 >= 10
    ensures var t := ObjectIds.ToText(id);
            var s := t[..ObjectIds.TextLength - 1] + ['A' + (id % 16 - 10) as char];
            && ObjectIds.Parse(s) == Some(id)
            && AddedAsWritten([], s, id, now) == Some([NewEntry(id, now)])
            && !ContainsAsWritten([NewEntry(id, now)], s)
  {
    var t := ObjectIds.ToText(id);
    var s := t[..ObjectIds.TextLength - 1] + ['A' + (id % 16 - 10) as char];
    ObjectIds.UpperCaseAlias(id);
    AliasNotFoundAfterAdd(id, now, s);
  }

  /** A text other than the printed id is not found by the written check. */
  lemma AliasNotFoundAfterAdd(id: ListingId, now: int, s: string)
    requires s != ObjectIds.ToText(id)
    ensures AddedAsWritten([], s, id, now) == Some([NewEntry(id, now)])
    ensures !ContainsAsWritten([NewEntry(id, now)], s)
  {
    var e := [NewEntry(id, now)];
    assert [] + e == e;
    assert !NamesAsWritten(e[0], s);
  }
}

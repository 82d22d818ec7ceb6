/** The listing schema (backend/models/Listing.js): closed enums, required fields,
    the price minimum, the defaults Mongoose fills in on create, and the
    document's `updateRating` method. */
module ListingModel {
  import opened Common
  import opened Ratings
  import Text

  // ---------------------------------------------------------------------------
  // Closed enums, each with its spelling in the database

  datatype Condition = New | LikeNew | Good | Fair

  function ConditionName(c: Condition): string {
    match c
    case New => "new"
    case LikeNew => "like-new"
    case Good => "good"
    case Fair => "fair"
  }

  /** Enum validation of `condition`: exactly the four spellings are accepted. */
  function ParseCondition(s: string): (r: Option<Condition>)
    ensures forall c :: r == Some(c) <==> s == ConditionName(c)
  {
    if s == "new" then Some(New)
    else if s == "like-new" then Some(LikeNew)
    else if s == "good" then Some(Good)
    else if s == "fair" then Some(Fair)
    else None
  }

  /** The member a valid `condition` names. */
  function ConditionOf(s: string): (c: Condition)
    requires ParseCondition(s).Some?
    ensures ConditionName(c) == s
  {
    ParseCondition(s).value
  }

  datatype Category =
    | Upsc | Gate | Neet | Jee | Engineering | Medical | Law | Mba | School | Notes
    | Mathematics | Science | Literature | History | Commerce

  function CategoryName(c: Category): string {
    match c
    case Upsc => "upsc"
    case Gate => "gate"
    case Neet => "neet"
    case Jee => "jee"
    case Engineering => "engineering"
    case Medical => "medical"
    case Law => "law"
    case Mba => "mba"
    case School => "school"
    case Notes => "notes"
    case Mathematics => "mathematics"
    case Science => "science"
    case Literature => "literature"
    case History => "history"
    case Commerce => "commerce"
  }

  /** Enum validation of `category`: exactly the fifteen tags are accepted. */
  function ParseCategory(s: string): (r: Option<Category>)
    ensures forall c :: r == Some(c) <==> s == CategoryName(c)
  {
    if s == "upsc" then Some(Upsc)
    else if s == "gate" then Some(Gate)
    else if s == "neet" then Some(Neet)
    else if s == "jee" then Some(Jee)
    else if s == "engineering" then Some(Engineering)
    else if s == "medical" then Some(Medical)
    else if s == "law" then Some(Law)
    else if s == "mba" then Some(Mba)
    else if s == "school" then Some(School)
    else if s == "notes" then Some(Notes)
    else if s == "mathematics" then Some(Mathematics)
    else if s == "science" then Some(Science)
    else if s == "literature" then Some(Literature)
    else if s == "history" then Some(History)
    else if s == "commerce" then Some(Commerce)
    else None
  }

  /** The member a valid `category` names. */
  function CategoryOf(s: string): (c: Category)
    requires ParseCategory(s).Some?
    ensures CategoryName(c) == s
  {
    ParseCategory(s).value
  }

  datatype ListingType = Physical | Digital

  function ParseListingType(s: string): (r: Option<ListingType>)
    ensures r == Some(Physical) <==> s == "physical"
    ensures r == Some(Digital) <==> s == "digital"
  {
    if s == "physical" then Some(Physical) else if s == "digital" then Some(Digital) else None
  }

  datatype SaleType = Fixed | Negotiable | Auction

  function ParseSaleType(s: string): (r: Option<SaleType>)
    ensures r == Some(Fixed) <==> s == "fixed"
    ensures r == Some(Negotiable) <==> s == "negotiable"
    ensures r == Some(Auction) <==> s == "auction"
  {
    if s == "fixed" then Some(Fixed)
    else if s == "negotiable" then Some(Negotiable)
    else if s == "auction" then Some(Auction)
    else None
  }

  datatype Status = Active | Sold | Inactive | Pending

  function ParseStatus(s: string): (r: Option<Status>)
    ensures r == Some(Active) <==> s == "active"
    ensures r == Some(Sold) <==> s == "sold"
    ensures r == Some(Inactive) <==> s == "inactive"
    ensures r == Some(Pending) <==> s == "pending"
  {
    if s == "active" then Some(Active)
    else if s == "sold" then Some(Sold)
    else if s == "inactive" then Some(Inactive)
    else if s == "pending" then Some(Pending)
    else None
  }

  datatype Delivery = Pickup | HomeDelivery | CashOnDelivery

  function ParseDelivery(s: string): (r: Option<Delivery>)
    ensures r == Some(Pickup) <==> s == "pickup"
    ensures r == Some(HomeDelivery) <==> s == "delivery"
    ensures r == Some(CashOnDelivery) <==> s == "cod"
  {
    if s == "pickup" then Some(Pickup)
    else if s == "delivery" then Some(HomeDelivery)
    else if s == "cod" then Some(CashOnDelivery)
    else None
  }

  /** Every entry of an enum array must be a member of the enum. */
  function ParseDeliveries(ss: seq<string>): (r: Option<seq<Delivery>>)
    ensures r.Some? <==> forall i :: 0 <= i < |ss| ==> ParseDelivery(ss[i]).Some?
    ensures r.Some? ==> |r.value| == |ss|
    ensures r.Some? ==> forall i :: 0 <= i < |ss| ==> ParseDelivery(ss[i]) == Some(r.value[i])
  {
    if ss == [] then Some([])
    else match (ParseDelivery(ss[0]), ParseDeliveries(ss[1..]))
      case (Some(d), Some(ds)) => Some([d] + ds)
      case _ => None
  }

  /** The deliveries an optional, valid `deliveryOptions` key stores: none when
      the key is absent. */
  function DeliveriesOr(v: Option<seq<string>>): (ds: seq<Delivery>)
    requires v.None? || ParseDeliveries(v.value).Some?
    ensures v.None? ==> ds == []
    ensures v.Some? ==> ParseDeliveries(v.value) == Some(ds)
  {
    if v.None? then [] else ParseDeliveries(v.value).value
  }

  // ---------------------------------------------------------------------------
  // The stored document

  datatype Image = Image(url: string, caption: string)

  datatype Listing = Listing(
    id: ListingId,
    title: string,
    author: string,
    isbn: Option<string>,
    price: real,
    originalPrice: Option<real>,
    condition: Condition,
    description: string,
    category: Category,
    listingType: ListingType,
    saleType: SaleType,
    images: seq<Image>,
    stock: int,
    seller: UserId,
    status: Status,
    views: int,
    deliveryOptions: seq<Delivery>,
    rating: Rating,
    createdAt: int,
    updatedAt: int)

  /** The constraints that schema validation checks on create; enum membership is
      carried by the field types. A required string must be non-empty, and the
      title is checked after trimming. */
  predicate ValidListing(l: Listing) {
    && l.title != [] && Text.Trim(l.title) == l.title
    && l.author != []
    && l.price >= 1.0
    && l.description != []
  }

  // ---------------------------------------------------------------------------
  // Creating a document from a request body

  /** A create request body: every key is optional and enum values are the
      client's strings. */
  datatype ListingBody = ListingBody(
    title: Option<string>,
    author: Option<string>,
    isbn: Option<string>,
    price: Option<real>,
    originalPrice: Option<real>,
    condition: Option<string>,
    description: Option<string>,
    category: Option<string>,
    listingType: Option<string>,
    saleType: Option<string>,
    images: Option<seq<Image>>,
    stock: Option<int>,
    seller: Option<UserId>,
    status: Option<string>,
    views: Option<int>,
    deliveryOptions: Option<seq<string>>,
    rating: Option<Rating>)

  /** An optional enum field passes when absent or when its value is a member. */
  predicate OptionalParses<E>(v: Option<string>, parse: string -> Option<E>) {
    v.None? || parse(v.value).Some?
  }

  /** `e` is what an optional enum key stores: the default when the key is
      absent, otherwise the member the client named. */
  predicate Chosen<E(==)>(v: Option<string>, parse: string -> Option<E>, default: E, e: E) {
    (v.None? ==> e == default) && (v.Some? ==> parse(v.value) == Some(e))
  }

  /** The value stored for an optional enum field: the schema default when the
      key is absent, otherwise the member the client named. */
  function ChosenOr<E(==)>(v: Option<string>, parse: string -> Option<E>, default: E): (e: E)
    requires OptionalParses(v, parse)
    ensures Chosen(v, parse, default, e)
  {
    if v.None? then default else parse(v.value).value
  }

  /** Schema validation of a create body. */
  predicate BodyValid(body: ListingBody) {
    && body.title.Some? && Text.Trim(body.title.value) != []
    && body.author.Some? && body.author.value != []
    && body.price.Some? && body.price.value >= 1.0
    && body.condition.Some? && ParseCondition(body.condition.value).Some?
    && body.description.Some? && body.description.value != []
    && body.category.Some? && ParseCategory(body.category.value).Some?
    && OptionalParses(body.listingType, ParseListingType)
    && OptionalParses(body.saleType, ParseSaleType)
    && OptionalParses(body.status, ParseStatus)
    && (body.deliveryOptions.None? || ParseDeliveries(body.deliveryOptions.value).Some?)
  }

  /** The image entry `createListing` records for an uploaded file. */
  function UploadedImage(filename: string): (img: Image)
    ensures Text.StartsWith(img.url, "/uploads/books/") && Text.EndsWith(img.url, filename)
    ensures img.caption == "Book image"
  {
    Image("/uploads/books/" + filename, "Book image")
  }

  /** `Listing.create({ ...listingData, seller: req.user._id })`: the seller is the
      caller whatever the body says, an uploaded file replaces the body's images by
      one entry, and absent optional fields take the schema defaults. */
  function NewListing(body: ListingBody, upload: Option<string>, caller: UserId, id: ListingId, now: int)
    : (r: Option<Listing>)
    ensures r.Some? <==> BodyValid(body)
    ensures r.Some? ==> ValidListing(r.value)
    ensures r.Some? ==> r.value.id == id && r.value.seller == caller
    ensures r.Some? ==> r.value.createdAt == now && r.value.updatedAt == now
    ensures r.Some? && upload.Some? ==> r.value.images == [UploadedImage(upload.value)]
    ensures r.Some? && upload.None? ==> r.value.images == body.images.GetOr([])
    ensures r.Some? ==> r.value.title == Text.Trim(body.title.value) && r.value.author == body.author.value
    ensures r.Some? ==> r.value.isbn == body.isbn && r.value.description == body.description.value
    ensures r.Some? ==> r.value.price == body.price.value && r.value.originalPrice == body.originalPrice
    ensures r.Some? ==> ConditionName(r.value.condition) == body.condition.value
    ensures r.Some? ==> CategoryName(r.value.category) == body.category.value
    ensures r.Some? ==> Chosen(body.listingType, ParseListingType, Physical, r.value.listingType)
    ensures r.Some? ==> Chosen(body.saleType, ParseSaleType, Fixed, r.value.saleType)
    ensures r.Some? ==> Chosen(body.status, ParseStatus, Active, r.value.status)
    ensures r.Some? && body.deliveryOptions.None? ==> r.value.deliveryOptions == []
    ensures r.Some? && body.deliveryOptions.Some? ==>
              ParseDeliveries(body.deliveryOptions.value) == Some(r.value.deliveryOptions)
    ensures r.Some? && body.stock.Some? ==> r.value.stock == body.stock.value
    ensures r.Some? && body.stock.None? ==> r.value.stock == 1
    ensures r.Some? && body.views.Some? ==> r.value.views == body.views.value
    ensures r.Some? && body.views.None? ==> r.value.views == 0
    ensures r.Some? && body.rating.Some? ==> r.value.rating == body.rating.value
    ensures r.Some? && body.rating.None? ==> r.value.rating == Unrated
  {
    if !BodyValid(body) then None
    else
      var title := Text.Trim(body.title.value);
      Text.TrimTrimmed(title);
      Some(Listing(
        id := id,
        title := title,
        author := body.author.value,
        isbn := body.isbn,
        price := body.price.value,
        originalPrice := body.originalPrice,
        condition := ConditionOf(body.condition.value),
        description := body.description.value,
        category := CategoryOf(body.category.value),
        listingType := ChosenOr(body.listingType, ParseListingType, Physical),
        saleType := ChosenOr(body.saleType, ParseSaleType, Fixed),
        images := if upload.Some? then [UploadedImage(upload.value)] else body.images.GetOr([]),
        stock := body.stock.GetOr(1),
        seller := caller,
        status := ChosenOr(body.status, ParseStatus, Active),
        views := body.views.GetOr(0),
        deliveryOptions := DeliveriesOr(body.deliveryOptions),
        rating := body.rating.GetOr(Unrated),
        createdAt := now,
        updatedAt := now))
  }

  /** The seller named in the body is ignored: two bodies that differ only there
      create the same listing. */
  lemma SellerInBodyIgnored(body: ListingBody, other: UserId, upload: Option<string>, caller: UserId,
                            id: ListingId, now: int)
    ensures NewListing(body.(seller := Some(other)), upload, caller, id, now) ==
            NewListing(body, upload, caller, id, now)
  {
  }

  // ---------------------------------------------------------------------------
  // Updating a document

  /** An update body. Update validators are off, so the handler writes whatever
      keys the body holds; enum values are shown already resolved. The id and
      `createdAt` are immutable under an update and are not part of a patch. */
  datatype ListingPatch = ListingPatch(
    title: Option<string>,
    author: Option<string>,
    isbn: Option<string>,
    price: Option<real>,
    originalPrice: Option<real>,
    condition: Option<Condition>,
    description: Option<string>,
    category: Option<Category>,
    listingType: Option<ListingType>,
    saleType: Option<SaleType>,
    images: Option<seq<Image>>,
    stock: Option<int>,
    seller: Option<UserId>,
    status: Option<Status>,
    views: Option<int>,
    deliveryOptions: Option<seq<Delivery>>,
    rating: Option<Rating>)

  /** The patch that changes nothing. */
  const EmptyPatch: ListingPatch :=
    ListingPatch(None, None, None, None, None, None, None, None, None, None, None, None, None, None, None, None, None)

  /** A key of an update: a given value is written, an absent key keeps the old one. */
  predicate Sets<T(==)>(given: Option<T>, before: T, after: T) {
    (given.Some? ==> after == given.value) && (given.None? ==> after == before)
  }

  /** The same for a key whose stored value is itself optional. */
  predicate SetsOptional<T(==)>(given: Option<T>, before: Option<T>, after: Option<T>) {
    (given.Some? ==> after == given) && (given.None? ==> after == before)
  }

  /** `$set` of every key of the patch, with `updatedAt` refreshed. The schema's
      `trim` setter also runs on an update, so a given title is stored trimmed. */
  function ApplyPatch(l: Listing, p: ListingPatch, now: int): (r: Listing)
    ensures r.id == l.id && r.createdAt == l.createdAt && r.updatedAt == now
    ensures p.title.Some? ==> r.title == Text.Trim(p.title.value)
    ensures p.title.None? ==> r.title == l.title
    ensures Text.Trim(l.title) == l.title ==> Text.Trim(r.title) == r.title
    ensures Sets(p.author, l.author, r.author)
    ensures SetsOptional(p.isbn, l.isbn, r.isbn) && Sets(p.price, l.price, r.price)
    ensures SetsOptional(p.originalPrice, l.originalPrice, r.originalPrice)
    ensures Sets(p.condition, l.condition, r.condition) && Sets(p.description, l.description, r.description)
    ensures Sets(p.category, l.category, r.category) && Sets(p.listingType, l.listingType, r.listingType)
    ensures Sets(p.saleType, l.saleType, r.saleType) && Sets(p.images, l.images, r.images)
    ensures Sets(p.stock, l.stock, r.stock) && Sets(p.seller, l.seller, r.seller)
    ensures Sets(p.status, l.status, r.status) && Sets(p.views, l.views, r.views)
    ensures Sets(p.deliveryOptions, l.deliveryOptions, r.deliveryOptions) && Sets(p.rating, l.rating, r.rating)
    ensures p == EmptyPatch ==> r == l.(updatedAt := now)
  {
    Text.TrimIdempotent(p.title.GetOr(l.title));
    Listing(
      id := l.id,
      title := if p.title.Some? then Text.Trim(p.title.value) else l.title,
      author := p.author.GetOr(l.author),
      isbn := if p.isbn.Some? then p.isbn else l.isbn,
      price := p.price.GetOr(l.price),
      originalPrice := if p.originalPrice.Some? then p.originalPrice else l.originalPrice,
      condition := p.condition.GetOr(l.condition),
      description := p.description.GetOr(l.description),
      category := p.category.GetOr(l.category),
      listingType := p.listingType.GetOr(l.listingType),
      saleType := p.saleType.GetOr(l.saleType),
      images := p.images.GetOr(l.images),
      stock := p.stock.GetOr(l.stock),
      seller := p.seller.GetOr(l.seller),
      status := p.status.GetOr(l.status),
      views := p.views.GetOr(l.views),
      deliveryOptions := p.deliveryOptions.GetOr(l.deliveryOptions),
      rating := p.rating.GetOr(l.rating),
      createdAt := l.createdAt,
      updatedAt := now)
  }

  /** Applying the same patch again only refreshes `updatedAt`. */
  lemma PatchIdempotent(l: Listing, p: ListingPatch, t1: int, t2: int)
    ensures ApplyPatch(ApplyPatch(l, p, t1), p, t2) == ApplyPatch(l, p, t2)
  {
  }

  /** No status transition is guarded: from any status a patch reaches any other. */
  lemma AnyStatusReachable(l: Listing, target: Status, now: int)
    ensures exists p: ListingPatch :: ApplyPatch(l, p, now).status == target
  {
    var p := EmptyPatch.(status := Some(target));
    assert ApplyPatch(l, p, now).status == target;
  }

  /** The seller is not protected on update: the owner's patch can hand the
      listing to someone else. */
  lemma SellerOverwritable(l: Listing, other: UserId, now: int)
    ensures exists p: ListingPatch :: ApplyPatch(l, p, now).seller == other
  {
    var p := EmptyPatch.(seller := Some(other));
    assert ApplyPatch(l, p, now).seller == other;
  }

  /** Validation is not re-run on update: an owner's patch can set a price below
      the schema minimum. */
  lemma PriceMinimumNotEnforcedOnUpdate(l: Listing, now: int)
    ensures exists p: ListingPatch :: ApplyPatch(l, p, now).price < 1.0
  {
    var p := EmptyPatch.(price := Some(0.0));
    assert ApplyPatch(l, p, now).price < 1.0;
  }

  // ---------------------------------------------------------------------------
  // The document's instance method

  /** A loaded listing document. */
  class ListingDocument {
    var fields: Listing

    constructor (l: Listing)
      ensures fields == l
    {
      fields := l;
    }

    /** `listing.updateRating(newRating)`: updates `rating.count` and
        `rating.average` in place; nothing else changes. */
    method UpdateRating(newRating: real)
      modifies this
      ensures fields == old(fields).(rating := Updated(old(fields).rating, newRating))
      ensures fields.rating.count == old(fields.rating.count) + 1
      ensures Total(fields.rating) == Total(old(fields.rating)) + newRating
    {
      var total := fields.rating.average * fields.rating.count as real + newRating;
      var count := fields.rating.count + 1;
      fields := fields.(rating := Rating(total / count as real, count));
    }
  }
}

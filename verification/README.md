# BookShare marketplace core in Dafny

BookShare is a marketplace where students and libraries buy, sell and swap books and
study notes. This project models the rules at its core and proves properties about them:

- **The record store behind the Express handlers.** There are listings, orders,
  wishlists, notes and blog posts. Each collection is a class holding a map from id to
  record plus the next id to hand out. The authenticated caller's id, the clock and the
  upload's stored file name are parameters.
- **The Mongoose schemas.** Each is a datatype with a validity predicate: closed enums,
  defaults, numeric minimums, and the fields required only of libraries.
  `updateRating` is modelled over exact reals.
- **The multer upload middleware.** This covers the destination directory, the file
  filter, the size limit and the stored file name.
- **The React front end's list and session logic.**
  - The search, filter and sort on the browse, notes, blog and forum pages.
  - The sell form's photo list.
  - The file picker's size and count cut.
  - The notes upload page's PDF check.
  - The blog's "time ago" label and tag parsing.
  - The mock login session.
  - The chat's send rule.

Each source file has its own module:

| module | source file |
|---|---|
| `ListingModel`, `ListingController` | `backend/models/Listing.js`, `backend/controllers/listingController.js` |
| `OrderModel`, `OrderController` | `backend/models/Order.js`, `backend/controllers/orderController.js` |
| `WishlistModel`, `WishlistController` | `backend/models/Wishlist.js`, `backend/controllers/wishlistController.js` |
| `NotesModel`, `NotesController` | `backend/models/Notes.js`, `backend/controllers/notesController.js` |
| `BlogController` | `backend/controllers/blogController.js` |
| `UserModel` | `backend/models/User.js` |
| `Upload` | `backend/middleware/upload.js` |
| `Ratings` | the `rating` sub-document and `updateRating`, shared by listings and users |
| `FileUploader`, `SearchPage`, `SellPage`, `BlogPage`, `NotesPage`, `FormPage`, `UploadNotesPage`, `AuthContext`, `ChatPage` | the React component or page of the same name |

Four modules are shared helpers:

- `Common`: `Option`, the reply type, and the file record.
- `Text`: ASCII lower-casing, trim, split and join, substring search, and decimal digits.
- `Lists`: filter, sub-sequences, a stable insertion sort, and the newest-first read of a map.
- `ObjectIds`: the 24-digit hexadecimal text form of a MongoDB ObjectId.

Every list handler returns the selected records newest first. The model proves that this
list holds exactly the matching records, each once, ordered by `createdAt` descending.
Every write handler states the new contents of its map in full. A write that is refused
(not the owner, not found, invalid) leaves the map unchanged.

## Model

| member | source | states |
|---|---|---|
| `ListingModel.ParseCondition` | backend/models/Listing.js:24-28 | A condition is accepted exactly when it is one of `new`, `like-new`, `good` or `fair`, and each spelling maps to its own value. |
| `ListingModel.ParseCategory` | backend/models/Listing.js:33-37 | A category is accepted exactly when it is one of the fifteen tags, each mapped to its own value. |
| `ListingModel.ParseListingType` | backend/models/Listing.js:43-47 | Only `physical` and `digital` are listing types. |
| `ListingModel.ParseSaleType` | backend/models/Listing.js:57-61 | Only `fixed`, `negotiable` and `auction` are sale types. |
| `ListingModel.ParseStatus` | backend/models/Listing.js:89-93 | Only `active`, `sold`, `inactive` and `pending` are statuses. |
| `ListingModel.ParseDelivery` | backend/models/Listing.js:111-114 | Only `pickup`, `delivery` and `cod` are delivery options. |
| `ListingModel.ParseDeliveries` | backend/models/Listing.js:111-114 | An enum array is accepted exactly when every entry is a member. The result is the entries parsed one by one, in order. |
| `ListingModel.UploadedImage` | backend/controllers/listingController.js:8-13 | The image for an uploaded file has a URL under `/uploads/books/` ending in the stored file name, and the caption `Book image`. |
| `ListingModel.NewListing` | backend/controllers/listingController.js:5-18 | A listing is created exactly when the body passes schema validation. Validation requires the required strings, a price of at least 1, and members of the enums. The created listing satisfies `ValidListing`. Its seller is the caller. It stores the body's values: the trimmed title, the author, isbn, price, original price, description, and the condition and category the body names. A given listing type, sale type, status, delivery list, stock, views or rating is stored as given. An absent one takes the default: `physical`, `fixed`, `active`, none, 1, 0, unrated. With an upload, the images are exactly the one uploaded image. |
| `ListingModel.SellerInBodyIgnored` | backend/controllers/listingController.js:15-18 | Two bodies that differ only in the seller they name create the same listing. |
| `ListingModel.ApplyPatch` | backend/controllers/listingController.js:60-64 | An update writes every key the body gives, with the body's value, and keeps the old value of every key it omits. This holds for each of the seventeen updatable fields, except that a given title is stored trimmed, as the schema's `trim` setter also runs on updates, so a trimmed title stays trimmed. The id and the creation time are kept and `updatedAt` is refreshed. The empty patch changes nothing else. |
| `ListingModel.PatchIdempotent` | backend/controllers/listingController.js:60-64 | Sending the same update twice gives the same listing as sending it once, apart from `updatedAt`. |
| `ListingModel.AnyStatusReachable` | backend/controllers/listingController.js:60-64 | From any listing, some patch reaches any status, so no status transition is guarded. |
| `ListingModel.SellerOverwritable` | backend/controllers/listingController.js:60-64 | The owner's patch can set any seller. |
| `ListingModel.PriceMinimumNotEnforcedOnUpdate` | backend/controllers/listingController.js:60-64 | A patch can set a price below the schema minimum of 1, because validators are not run on update. |
| `ListingModel.ListingDocument.UpdateRating` | backend/models/Listing.js:125-129 | The count grows by exactly one, the total grows by the new rating, and nothing else changes. |
| `ListingController.ListingCollection.constructor` | backend/controllers/listingController.js:3-80 | The store starts empty and valid. |
| `ListingController.ListingCollection.CreateListing` | backend/controllers/listingController.js:3-23 | A valid body is stored under a fresh id and answered 201. The stored listing's seller is the caller. An invalid body is answered 400 and the store is unchanged. |
| `ListingController.ListingCollection.GetListings` | backend/controllers/listingController.js:25-34 | The result holds exactly the stored listings whose status is active, each once, newest first. |
| `ListingController.ListingCollection.GetListing` | backend/controllers/listingController.js:36-47 | Returns 200 with the stored listing exactly when the id is stored, and 404 `Listing not found` otherwise. |
| `ListingController.ListingCollection.GetMyListings` | backend/controllers/listingController.js:49-56 | The result holds exactly the caller's listings, of any status, each once, newest first. |
| `ListingController.ListingCollection.UpdateListing` | backend/controllers/listingController.js:58-70 | Only the caller's own listing is patched, and every other entry stays the same. A missing id or another seller's listing gets 404 and the store is unchanged. |
| `ListingController.ListingCollection.DeleteListing` | backend/controllers/listingController.js:72-80 | Exactly the caller's listing with that id is removed, and every other listing is untouched. Otherwise the answer is 404 and the store is unchanged. |
| `OrderModel.ParsePaymentMethod` | backend/models/Order.js:28-32 | Only `upi`, `card`, `netbanking`, `wallet` and `cod` are payment methods. |
| `OrderModel.ParsePaymentStatus` | backend/models/Order.js:33-37 | Only `pending`, `paid`, `failed` and `refunded` are payment statuses. |
| `OrderModel.ParseOrderStatus` | backend/models/Order.js:38-42 | Only `placed`, `confirmed`, `shipped`, `delivered`, `cancelled` and `disputed` are order statuses. |
| `OrderModel.NewOrder` | backend/controllers/orderController.js:9-13 | An order is created exactly when the body is valid: a listing, a total, a payment method, and a quantity of at least 1. The order satisfies `ValidOrder`. Its buyer is the caller and its seller is the listing's seller. It stores the body's listing, total, payment method, address, tracking, escrow date and notes. A given quantity, payment status, order status or escrow flag is stored as given. An absent one takes the default: quantity 1, payment `pending`, status `placed`, escrow not released. |
| `OrderModel.PartiesInBodyIgnored` | backend/controllers/orderController.js:9-13 | A buyer or seller named in the body makes no difference to the created order. |
| `OrderModel.PaymentStateFromBody` | backend/controllers/orderController.js:9-13 | The buyer's body sets the payment state too: a body with payment status `paid` and escrow released creates an order that is already paid with its escrow released. |
| `OrderModel.StatusUpdated` | backend/controllers/orderController.js:50 | Only the order status and the tracking info change, and each keeps its old value when the body omits it. Buyer, seller, listing, amount, payment and escrow fields stay the same. |
| `OrderModel.AnyOrderStatusReachable` | backend/controllers/orderController.js:48-52 | Any order status can follow any other, so there is no transition guard. |
| `OrderModel.DeliveredWhileUnpaid` | backend/controllers/orderController.js:48-52 | An unpaid order can be marked delivered, and its payment status stays pending. |
| `OrderController.OrderCollection.constructor` | backend/controllers/orderController.js:4-58 | The store starts empty and valid. |
| `OrderController.OrderCollection.CreateOrder` | backend/controllers/orderController.js:4-20 | A missing listing gets 404 and nothing is created. Otherwise the order of `NewOrder` is stored under a fresh id and answered 201, or the answer is 400 with the store unchanged. |
| `OrderController.OrderCollection.GetMyOrders` | backend/controllers/orderController.js:22-32 | The result holds exactly the orders whose buyer is the caller, each once, newest first. |
| `OrderController.OrderCollection.GetMySales` | backend/controllers/orderController.js:34-44 | The result holds exactly the orders whose seller is the caller, each once, newest first. |
| `OrderController.OrderCollection.UpdateOrderStatus` | backend/controllers/orderController.js:46-58 | Only the order's seller can update it, and the order becomes `StatusUpdated` of the old one. Anyone else gets 404 and the store is unchanged. |
| `ObjectIds.Parse` | backend/controllers/wishlistController.js:32 | Text casts to an id exactly when it is 24 hexadecimal digits of either case. The id is below 16^24. |
| `ObjectIds.ToText` | backend/controllers/wishlistController.js:44-46 | `toString` of an id is always 24 lower-case hexadecimal digits. |
| `ObjectIds.ParseToText` | backend/controllers/wishlistController.js:44-46 | Casting the printed form of an id gives the id back. |
| `ObjectIds.ToTextParse` | backend/controllers/wishlistController.js:44-46 | Lower-case text that casts to an id is that id's printed form. |
| `ObjectIds.UpperCaseAlias` | backend/controllers/wishlistController.js:44-46 | Replacing the last digit of a printed id with its upper-case letter gives text that casts to the same id but differs from the printed form. |
| `WishlistModel.NewEntry` | backend/models/Wishlist.js:9-22 | A pushed entry references the listing, records the insertion time as `addedAt`, and has its price alert disabled with no target price. |
| `WishlistModel.NewWishlist` | backend/controllers/wishlistController.js:39-41 | A new wishlist belongs to the caller and has no entries. |
| `WishlistModel.NamesAgreeOnLowerCase` | backend/controllers/wishlistController.js:44-46 | For lower-case request text, the source's text comparison agrees with comparing ids. |
| `WishlistModel.ContainsIffHasListing` | backend/controllers/wishlistController.js:92-94 | The corrected `some`, which compares ids, finds the request text exactly when an entry has the id the text casts to. |
| `WishlistModel.ContainsAsWrittenOnLowerCase` | backend/controllers/wishlistController.js:92-94 | For lower-case request text, `some` as written, which compares texts, finds exactly what the id comparison finds. |
| `WishlistModel.Without` | backend/controllers/wishlistController.js:71-73 | The result keeps exactly the entries not for that listing, in their original order. It no longer contains the listing. |
| `WishlistModel.WithoutAbsent` | backend/controllers/wishlistController.js:71-73 | Removing a listing that is not there changes nothing. |
| `WishlistModel.WithoutIdempotent` | backend/controllers/wishlistController.js:71-73 | Removing twice is the same as removing once. |
| `WishlistModel.SubsequencePreserves` | backend/controllers/wishlistController.js:71-73 | A sub-list of an entry list whose ids are distinct and well formed also has distinct, well-formed ids. |
| `WishlistModel.WithoutPreserves` | backend/controllers/wishlistController.js:71-73 | Removal keeps the listing ids distinct. |
| `WishlistModel.AppendPreserves` | backend/controllers/wishlistController.js:52 | Appending a listing that is not yet present keeps the listing ids distinct. |
| `WishlistModel.ContainsAfterAppend` | backend/controllers/wishlistController.js:52 | After the push, the corrected `some`, which compares ids, finds the listing. |
| `WishlistModel.AddedAsWritten` | backend/controllers/wishlistController.js:44-52 | The duplicate check as written refuses the request exactly when the lower-case text of some stored id equals the request text. Otherwise it appends one entry. |
| `WishlistModel.AddedAsWrittenDuplicates` | backend/controllers/wishlistController.js:44-52 | Take a wishlist holding one listing. The upper-case spelling of that listing's id passes the check as written, and the resulting list holds that listing twice. |
| `WishlistModel.CheckAfterAddAsWritten` | backend/controllers/wishlistController.js:44-94 | Take an empty wishlist and the upper-case spelling of a listing's id. The add as written pushes the listing, and the check as written with the same text then finds nothing. |
| `WishlistController.WishlistCollection.constructor` | backend/models/Wishlist.js:27-28 | There are no wishlists at first. The collection is keyed by user, so there is at most one wishlist per user. |
| `WishlistController.WishlistCollection.Entries` | backend/controllers/wishlistController.js:16-20 | A user without a wishlist has no entries. Otherwise the entries are the stored ones. |
| `WishlistController.WishlistCollection.GetWishlist` | backend/controllers/wishlistController.js:5-24 | The answer is always 200. It is empty when the caller has no wishlist and holds the stored entries otherwise. |
| `WishlistController.WishlistCollection.AddToWishlist` | backend/controllers/wishlistController.js:27-59 | For text that is not an ObjectId, or a listing that does not exist, the answer is 404 or 500 and nothing changes. An id already present gets 400 and nothing changes. Otherwise the caller's wishlist is created if needed and gets one entry appended at the end. Only that wishlist changes, and every wishlist keeps distinct listings. |
| `WishlistController.WishlistCollection.RemoveFromWishlist` | backend/controllers/wishlistController.js:62-80 | Without a wishlist the answer is 404 and nothing changes. Otherwise the entries for that listing are dropped, the rest keep their order, and the answer is 200 even if nothing was dropped. |
| `WishlistController.WishlistCollection.CheckWishlistItem` | backend/controllers/wishlistController.js:83-100 | True exactly when the caller has a wishlist with an entry for that listing, and false without a wishlist. |
| `WishlistController.CheckAfterAdd` | backend/controllers/wishlistController.js:44-52 | With ids compared, as in the corrected handlers: after an add, whether it appended or found the listing already there, a check of the same text succeeds. |
| `WishlistController.CheckAfterRemove` | backend/controllers/wishlistController.js:71-73 | After a remove, a check of the same text fails, and a second remove changes nothing. |
| `NotesModel.NewNotes` | backend/controllers/notesController.js:5 | A record is created exactly when title, subject, class, board, price and pages are present. Its author is the caller. It stores the body's title, subject, class, board, price, pages, description and file URL. A given download count or rating is stored as given, and an absent one defaults to 0. |
| `NotesModel.AuthorInBodyIgnored` | backend/controllers/notesController.js:5 | An author named in the body makes no difference. |
| `NotesModel.RequiredFieldsRequired` | backend/models/Notes.js:4-10 | Each of the six required fields, when missing on its own, blocks creation. |
| `NotesController.NotesCollection.constructor` | backend/controllers/notesController.js:3-20 | The store starts empty and valid. |
| `NotesController.NotesCollection.UploadNotes` | backend/controllers/notesController.js:3-11 | A valid body is stored under a fresh id and answered 201 with the record. An invalid one is answered 400 and the store is unchanged. |
| `NotesController.NotesCollection.GetNotes` | backend/controllers/notesController.js:13-20 | The result holds every record, each once, newest first. |
| `BlogController.NewBlog` | backend/controllers/blogController.js:5 | The post keeps every body key except `author`, with the same values. Its author is the caller. |
| `BlogController.AuthorInBodyIgnored` | backend/controllers/blogController.js:5 | Whatever author the body names, the created post is the same. |
| `BlogController.BlogCollection.constructor` | backend/controllers/blogController.js:3-20 | The store starts empty and valid. |
| `BlogController.BlogCollection.CreateBlog` | backend/controllers/blogController.js:3-11 | An accepted post is stored under a fresh id and answered 201. A refused one is answered 400 and the store is unchanged. |
| `BlogController.BlogCollection.GetBlogs` | backend/controllers/blogController.js:13-20 | The result holds every post, each once, newest first. |
| `Ratings.Updated` | backend/models/User.js:96-100 | One more rating: the count grows by one, the total by the new rating, and from no ratings the average is the new rating. |
| `Ratings.UpdatedAllTotal` | backend/models/Listing.js:125-129 | After any run of updates, the count grows by the number of ratings and the total by their sum. |
| `Ratings.AverageIsMean` | backend/models/Listing.js:125-129 | Starting unrated, the average is the arithmetic mean of all ratings received. |
| `UserModel.ParseRole` | backend/models/User.js:25-29 | Only `student`, `library` and `admin` are roles. |
| `UserModel.ParseKycStatus` | backend/models/User.js:57-61 | Only `pending`, `verified` and `rejected` are KYC statuses. |
| `UserModel.RoleOf` | backend/models/User.js:25-29 | The role defaults to `student`; a given role is the enum member its text names. |
| `UserModel.KycOf` | backend/models/User.js:57-61 | The KYC status defaults to `pending`; a given status is the enum member its text names. |
| `UserModel.NewUser` | backend/models/User.js:5-76 | A user is created exactly when the body is valid, and the user then satisfies `ValidUser`. The name is trimmed and the email lower-cased. The password, phone, avatar, library name, GST number, location and social ids are stored as given. The role and KYC status are the ones the body names, or `student` and `pending`. Academic interests, KYC documents, rating and the active flag are stored as given, or default to empty, empty, unrated and active. |
| `UserModel.LibraryFieldsRequiredIffLibrary` | backend/models/User.js:41-54 | When the other checks pass, a body is accepted exactly when it is not a library, or it names both a library name and a GST number. |
| `UserModel.NonLibraryNeedsNoLibraryFields` | backend/models/User.js:41-54 | Students and admins are accepted without either field. |
| `UserModel.EmailCaseIgnored` | backend/models/User.js:10-15 | Bodies that differ only in the letter case of the email create the same user. |
| `UserModel.UserCollection.constructor` | backend/models/User.js:10-15 | The store starts empty, with no two users sharing an email. |
| `UserModel.UserCollection.Create` | backend/models/User.js:10-15 | An invalid body is refused. A body whose lower-cased email is already taken is refused by the unique index. Otherwise the new user is stored under a fresh id, with the password replaced by its hash from the pre-save hook, and emails stay unique. |
| `UserModel.UserDocument.constructor` | backend/models/User.js:86-90 | A new document counts its password as modified. |
| `UserModel.UserDocument.SetPassword` | backend/models/User.js:86-90 | Assigning the password marks it modified. |
| `UserModel.UserDocument.Save` | backend/models/User.js:86-90 | The password is hashed only when it was modified, so a saved hash is never hashed twice. After saving, nothing counts as modified. |
| `UserModel.UserDocument.UpdateRating` | backend/models/User.js:96-100 | The count grows by one and the total by the new rating. Nothing else changes. |
| `Upload.Destination` | backend/middleware/upload.js:6-14 | `uploads/books/` exactly for `bookImage`, `uploads/notes/` exactly for `noteFile` and `notesFile`, `uploads/` for every other field. |
| `Upload.FileFilter` | backend/middleware/upload.js:22-47 | Fields outside the four allowed ones are rejected with `Unexpected field`. `bookImage` is accepted exactly for `image/` types. `noteFile`, `notesFile` and `file` are accepted exactly for the PDF, DOC and DOCX types. |
| `Upload.CatchAllUnreachable` | backend/middleware/upload.js:44-46 | The final accept branch is dead: every allowed field has its own branch, so the filter accepts a file only as an image for `bookImage` or as a PDF or Word document for the three document fields. |
| `Upload.GenericFieldIsADocument` | backend/middleware/upload.js:11-13 | For every MIME type, a `file` upload is accepted exactly when the type is one of the document types, and is otherwise refused with the notes message. It lands in the generic directory. |
| `Upload.Extname` | backend/middleware/upload.js:17 | The extension is empty, or a dot followed by text with no dot and no slash. |
| `Upload.ExtnameOfStemAndExt` | backend/middleware/upload.js:17 | A plain name `stem.ext` has extension `.ext`. |
| `Upload.ExtnameNoDot` | backend/middleware/upload.js:17 | A name without a dot has no extension. |
| `Upload.StoredFilename` | backend/middleware/upload.js:15-18 | The stored name starts with the field name and a dash, and ends with the original's extension. |
| `Upload.ParseStoredName` | backend/middleware/upload.js:15-18 | Reading a stored name back gives a dash-free field that begins the name, and an extension that ends it. |
| `Upload.StoredFilenameRoundTrip` | backend/middleware/upload.js:15-18 | For a field name without a dash, the stored name gives back the field, the timestamp, the random number and the extension. |
| `Upload.Store` | backend/middleware/upload.js:50-56 | A file is stored exactly when the filter accepts it and it is at most 10 MiB. The stored path is the destination followed by the stored name. A rejection carries the filter's message, or `File too large`. |
| `FileUploader.Fitting` | src/components/ui/FileUploader.jsx:36 | The kept files are exactly those of at most `maxSize` bytes, in input order, each kept as many times as it was selected. |
| `FileUploader.Kept` | src/components/ui/FileUploader.jsx:35-41 | Every kept file fits, and the kept list is a prefix of the fitting files. A zero `maxFiles` keeps them all. Otherwise the list is as long as the smaller of the two counts. |
| `FileUploader.KeptWhenAllFit` | src/components/ui/FileUploader.jsx:36-41 | A selection whose files all fit, including files of exactly `maxSize`, and which is not over the count, is kept whole. |
| `FileUploader.OversizedDropped` | src/components/ui/FileUploader.jsx:36 | A file over the limit is never kept. |
| `FileUploader.Picker.constructor` | src/components/ui/FileUploader.jsx:4-14 | A new picker has no files and the given limits. |
| `FileUploader.Picker.WithDefaults` | src/components/ui/FileUploader.jsx:10-11 | A picker rendered without the size and count props allows 10 files of at most 10 MiB each, and has no files. |
| `FileUploader.Picker.HandleFiles` | src/components/ui/FileUploader.jsx:35-47 | The kept files replace the previous selection, and both callbacks receive that same list. |
| `SearchPage.Matching` | src/pages/books/SearchPage.jsx:49-57 | A listing passes exactly when the search and the category and condition filters all accept it. Order is kept, and a passing listing appears as many times as it was fetched. |
| `SearchPage.FilteredBooks` | src/pages/books/SearchPage.jsx:49-65 | The result is a permutation of the matching listings. `price-low` sorts it by price ascending, `price-high` by price descending, `newest` by creation time descending. Any other key leaves it in fetched order. |
| `SearchPage.Ordered` | src/pages/books/SearchPage.jsx:58-65 | Each sort key's result is a permutation of its input, ordered as that key says. |
| `SearchPage.EqualPricesKeepOrder` | src/pages/books/SearchPage.jsx:58-61 | Both price sorts are stable: listings of equal price keep their fetched order, ascending and descending. |
| `SearchPage.EqualTimesKeepOrder` | src/pages/books/SearchPage.jsx:58-62 | The `newest` sort is stable: listings created at the same moment keep their fetched order. |
| `SearchPage.UnappliedFiltersIgnored` | src/pages/books/SearchPage.jsx:24-30 | The class, board and location filters never change the result. |
| `SearchPage.ClearFilters` | src/pages/books/SearchPage.jsx:67-76 | All five filters go back to "All …" and the query is emptied. The sort key is kept. |
| `SearchPage.ClearedShowsAll` | src/pages/books/SearchPage.jsx:67-76 | After clearing, every fetched listing is shown again, each as often as it was fetched. |
| `SellPage.Photos` | src/pages/books/SellPage.jsx:23-24 | The two photo lists pair up index by index. |
| `SellPage.PhotosAppend` | src/pages/books/SellPage.jsx:34-38 | Appending to both lists appends to the pairs. |
| `SellPage.PhotosRemoveAt` | src/pages/books/SellPage.jsx:41-44 | Removing one index from both lists removes that pair. |
| `SellPage.SellPageState.constructor` | src/pages/books/SellPage.jsx:12-25 | The form starts with the initial values: condition `Good`, category `Mathematics`, class `12th`, board `CBSE`, and no photos. |
| `SellPage.SellPageState.HandleImageUpload` | src/pages/books/SellPage.jsx:27-39 | Going over five photos shows `Maximum 5 photos allowed` and changes nothing. Otherwise the new files and their URLs go after the existing ones, still paired. The lists stay equal in length and at most five long. |
| `SellPage.SellPageState.RemoveImage` | src/pages/books/SellPage.jsx:41-45 | The index leaves both lists, and the remaining pairs keep their order. |
| `SellPage.SellPageState.SubmitRequest` | src/pages/books/SellPage.jsx:47-68 | A request is sent exactly when title, author and price are non-empty. Price is converted by `Number`. `originalPrice` is left out when blank. Condition and category are lower-cased. The first photo file is sent as `bookImage`. |
| `SellPage.SellPageState.SaveDraft` | src/pages/books/SellPage.jsx:78-85 | Saving a draft needs a title, and each case shows its own alert. |
| `SellPage.InitialChoicesAccepted` | src/pages/books/SellPage.jsx:18-19 | The initial condition and category, lower-cased as they are sent, are values the listing schema accepts. |
| `BlogPage.ElapsedSeconds` | src/pages/blog/BlogPage.jsx:51 | Whole seconds between the two times, rounded down. |
| `BlogPage.Bucket` | src/pages/blog/BlogPage.jsx:52-58 | "Just now" exactly below 60 seconds, including future dates. Then floored minutes below an hour, hours below a day, and days after that, each count at least 1. |
| `BlogPage.Unit` | src/pages/blog/BlogPage.jsx:54-58 | Minutes, hours and days are named `minute`, `hour` and `day`, none of them ending in "s". |
| `BlogPage.TimeAgo` | src/pages/blog/BlogPage.jsx:50-59 | The label is "Just now" exactly when less than a minute has passed. Otherwise it starts with the count of the chosen unit, which reads back from its leading digits, then a space and the unit's name, and it ends in "s ago" exactly when the count is above 1. |
| `BlogPage.RenderReadsBack` | src/pages/blog/BlogPage.jsx:54-58 | The count reads back from the label's leading digits and is followed by a space and the unit's name; the plural "s" appears exactly when the count is above 1. |
| `BlogPage.ParseTags` | src/pages/blog/BlogPage.jsx:68 | Every tag is non-empty, has no comma, and has no white space at either end. Every non-blank piece between commas becomes a tag, in order, and a repeated piece gives a repeated tag. |
| `BlogPage.ParseJoinedTags` | src/pages/blog/BlogPage.jsx:68 | Well-formed tags joined by commas parse back to themselves. |
| `BlogPage.FilteredPosts` | src/pages/blog/BlogPage.jsx:86-90 | A post is shown exactly when it is in the tab and its title or content contains the query, ignoring case. Loaded order is kept, and a shown post appears as many times as it was loaded. |
| `BlogPage.EmptyQueryShowsTab` | src/pages/blog/BlogPage.jsx:86-90 | The "all" tab with an empty query shows every post, in order. |
| `BlogPage.QueryCaseIgnored` | src/pages/blog/BlogPage.jsx:88-89 | The letter case of the query does not change the result. |
| `BlogPage.PublishRequest` | src/pages/blog/BlogPage.jsx:64-69 | The request carries the draft's title, content and category, and the tags `ParseTags` reads from the draft's tag field. |
| `BlogPage.AfterPublish` | src/pages/blog/BlogPage.jsx:70-75 | On success the draft resets to empty fields with category `textbooks`, and the dialog closes. On failure nothing changes. |
| `NotesPage.FilteredNotes` | src/pages/notes/NotesPage.jsx:50-58 | A note is shown exactly when the query is empty or its title or subject contains the query ignoring case, and the category is "All" or its subject. The result is an order-preserving sub-list, and a shown note appears as many times as it was loaded. |
| `NotesPage.ShownCount` | src/pages/notes/NotesPage.jsx:108 | The count shown is the length of the filtered list. It is never more than the loaded notes, and equals them with no query and "All". |
| `NotesPage.QueryCaseIgnored` | src/pages/notes/NotesPage.jsx:51-53 | The letter case of the query does not change the result. |
| `NotesPage.CategoryNarrows` | src/pages/notes/NotesPage.jsx:55 | Choosing a subject only ever removes notes from the "All" list. |
| `FormPage.FilteredFixed` | src/pages/blog/FormPage.jsx:70-74 | The tab-and-search filter over the three fixed posts keeps their order. |
| `FormPage.StartShowsAllThree` | src/pages/blog/FormPage.jsx:28-74 | The "all" tab with an empty query shows the three posts, in order. |
| `FormPage.TabsWithoutQuery` | src/pages/blog/FormPage.jsx:28-74 | With no query, each category tab shows exactly its own post, and `general` shows none. |
| `UploadNotesPage.FileError` | src/pages/notes/UploadNotesPage.jsx:40-53 | A file passes exactly when it is `application/pdf` and at most 10 MiB. The type is checked first, and each refusal has its own message. |
| `UploadNotesPage.SizeLimitInclusive` | src/pages/notes/UploadNotesPage.jsx:47 | A PDF of exactly 10 MiB passes, and one byte more does not. |
| `UploadNotesPage.UploadNotesState.constructor` | src/pages/notes/UploadNotesPage.jsx:13-24 | The page starts with the seven empty fields, no file, not loading and no toast. |
| `UploadNotesPage.UploadNotesState.HandleInputChange` | src/pages/notes/UploadNotesPage.jsx:30-35 | One field takes the typed value, and nothing else changes. |
| `UploadNotesPage.UploadNotesState.HandleFileChange` | src/pages/notes/UploadNotesPage.jsx:37-56 | No file changes nothing. A refused file shows an error toast and keeps the previous choice. An accepted file becomes the choice. |
| `UploadNotesPage.UploadNotesState.HandleSubmit` | src/pages/notes/UploadNotesPage.jsx:58-84 | Without a file: an error toast, no request and no other change. Otherwise the request holds only the form fields. Success clears the form and the file. Failure keeps both with an error toast. Loading is off afterwards. |
| `AuthContext.WithoutPassword` | src/context/AuthContext.jsx:67 | The record keeps every key and value except the password. |
| `AuthContext.Merge` | src/context/AuthContext.jsx:78 | The merged record has the keys of both. An update wins where both have a key, and every other user field is kept. |
| `AuthContext.Session.constructor` | src/context/AuthContext.jsx:51-57 | A saved user, if any, becomes the session user, and loading ends. |
| `AuthContext.Session.Login` | src/context/AuthContext.jsx:59-75 | An unknown email or a wrong password fails and the session is unchanged. Otherwise the account without its password becomes the session user and the stored copy, and is returned. |
| `AuthContext.Session.UpdateUser` | src/context/AuthContext.jsx:77-81 | The merged record becomes the session user, and the stored copy equals it. |
| `AuthContext.Session.Logout` | src/context/AuthContext.jsx:83-87 | Both the session user and the stored copy are cleared. |
| `AuthContext.LoginCredentials` | src/context/AuthContext.jsx:14-45 | Only the two test accounts can log in, each with its own password. |
| `ChatPage.ShouldSend` | src/pages/chat/ChatPage.jsx:14 | A draft is sent exactly when it is not blank. |
| `ChatPage.ChatState.constructor` | src/pages/chat/ChatPage.jsx:10-11 | The chat starts with an empty draft and no messages. |
| `ChatPage.ChatState.SetDraft` | src/pages/chat/ChatPage.jsx:63 | Typing replaces the draft and leaves the messages alone. |
| `ChatPage.ChatState.HandleSendMessage` | src/pages/chat/ChatPage.jsx:13-23 | A blank draft changes nothing. Otherwise exactly one message from "me" with the untrimmed draft goes at the end, and the draft is emptied. |
| `ChatPage.ChatState.HandleKeyPress` | src/pages/chat/ChatPage.jsx:64 | Enter follows the same send rule, and any other key changes nothing. |

## Left out

- Mongoose `populate` and the query engine are not modelled. Reads return the stored records themselves.
- Database errors are left out. The read, delete and wishlist handlers answer them with 500; the create and update handlers answer every error with 400, and only a failed schema validation on create is modelled. The exception is the ObjectId cast failure in `addToWishlist`, which is modelled. Its message text depends on the Mongoose version, so only the status is stated.
- Ids are natural numbers handed out by a counter, in place of 12-byte ObjectIds. Only the wishlist handlers, which compare ids as text, go through the 24-digit text form.
- Update validators are off. The model therefore writes typed patches whose enum values are already members. Mongoose would store an unknown string as given.
- `ListingController.ListingCollection.UpdateListing` and `OrderController.OrderCollection.UpdateOrderStatus`: `findOneAndUpdate` still casts each update value to its schema type, and a value that does not cast (a price of `"abc"`, a seller that is not an ObjectId, a tracking date that is not a date) is answered 400 with nothing stored. The typed patch and the typed status arguments cannot express such a value, so this 400 answer is not modelled.
- `ListingModel.ApplyPatch`: the listing fields `edition`, `subject`, `course`, `examType`, `digitalFile`, `auctionEndDate`, `currentBid`, `bidders` and `location` are not part of the listing record. The contract says nothing about them.
- `backend/models/Blog.js` is not part of this model. Whether the blog schema accepts a body is the parameter `valid` of `BlogController.BlogCollection.CreateBlog`.
- bcrypt hashing is a parameter of `UserModel.UserDocument.Save`. `comparePassword` is a library call and is left out.
- A user's `kycDocuments` is a list of strings: Mongoose reads the `type: String` key of the sub-document as the element type.
- `Upload.Store`: multer reports an oversize file while streaming it, after the filter has run. The model checks the filter first and then the size, and does not model a partly written file.
- Wishlist timestamps (`createdAt`/`updatedAt` of the wishlist document) are left out.
- Floating point: prices, totals and ratings are exact reals, so IEEE rounding in `updateRating` is not modelled.
- Letter case and white space are ASCII only, plus the no-break space and the byte-order mark for `trim`. Unicode case mapping is left out.
- JavaScript's `Number` is a parameter of `SellPage.SellPageState.SubmitRequest`. `NaN` prices are left out.
- `BlogPage.TimeAgo` takes both times as milliseconds. An unparseable date, which gives `NaN` in the source, is left out.
- The navigation after logout and after a listing is submitted is left out, and so are the alerts shown on a listing's success or failure.
- `URL.createObjectURL`, `Date.now`, `new Date()` and `Math.random` are parameters.
- Plain field edits of the sell form (`setFormData` on one input) are not separate methods. `UploadNotesPage.UploadNotesState.HandleInputChange` shows the same rule for the notes form.
- The network requests and response mapping of the pages (`fetchListings`, `loadBlogs`, `loadNotes`) are left out. Each list filter takes the loaded list as its input.
- The page records drop fields that no filter or lemma reads: the blog page's post has no `id`, `SearchPage.Book` has no `_id`, and `NotesPage.Note` has no `id`, `type` or `preview`.
- `backend/controllers/paymentController.js`, `backend/models/Chat.js`, the route files, the services and the presentation-only components are not part of this model.
- Concurrency between requests is not modelled. Each handler runs on its own.
- The package versions are not part of this model. The model follows Mongoose 7 or later with bson 5 or later. An update key that is absent from the body is dropped rather than written as `null`, which `OrderModel.StatusUpdated` relies on. Only 24-digit hexadecimal text casts to an ObjectId, which `ObjectIds.Parse` relies on; bson 4 also casts any 12-character string.
- `WishlistController.WishlistCollection.RemoveFromWishlist` and `WishlistController.WishlistCollection.CheckWishlistItem` compare ids, as the corrected `AddToWishlist` does. As written, they compare the stored id's lower-case text with the request text, so upper-case request text finds nothing. The second row under Findings records the consequence for a check that follows an add. Only the add path's version as written is modelled (`WishlistModel.AddedAsWritten`).

## Findings

| source | as written | input that shows it | evidently intended | confidence | as-written member | corrected member |
|---|---|---|---|---|---|---|
| backend/controllers/wishlistController.js:44-46 | The duplicate check compares `item.listing.toString()`, which is always lower case, with the request text. `Listing.findById` accepts the same id spelled in upper case. | A wishlist holding listing `…0a`, and a request with the same 24 digits ending in `A`. `findById` finds the listing and the check finds no match, so the listing is pushed a second time. | A wishlist never lists the same listing twice: compare ids, not texts. | not executed | `WishlistModel.AddedAsWrittenDuplicates` | `WishlistController.WishlistCollection.AddToWishlist` |
| backend/controllers/wishlistController.js:92-94 | `checkWishlistItem` compares `item.listing.toString()`, which is always lower case, with the request text. `addToWishlist` pushes the listing for text in either case. | An empty wishlist and a listing whose id ends in `a`. An add with the text ending in `A` pushes the listing. A check with the same text answers false. | A check right after an add of the same text answers true: compare ids, not texts. | not executed | `WishlistModel.CheckAfterAddAsWritten` | `WishlistController.CheckAfterAdd` |

/** The sell form (src/pages/books/SellPage.jsx): up to five photos held in two
    parallel lists (their preview URLs and the files), the checks before the form
    is sent, and the request it sends. */
module SellPage {
  import opened Common
  import Lists
  import Text
  import ListingModel

  const MaxPhotos: nat := 5

  /** The form state; `classLevel` is the `class` field. */
  datatype SellForm = SellForm(
    title: string,
    author: string,
    isbn: string,
    price: string,
    originalPrice: string,
    condition: string,
    category: string,
    classLevel: string,
    board: string,
    description: string,
    images: seq<string>,
    imageFiles: seq<File>)

  const InitialForm: SellForm :=
    SellForm("", "", "", "", "", "Good", "Mathematics", "12th", "CBSE", "", [], [])

  /** The photos as (preview URL, file) pairs; defined when the lists line up. */
  function Photos(images: seq<string>, files: seq<File>): (r: seq<(string, File)>)
    requires |images| == |files|
    ensures |r| == |images|
    ensures forall i :: 0 <= i < |r| ==> r[i] == (images[i], files[i])
  {
    if images == [] then [] else [(images[0], files[0])] + Photos(images[1..], files[1..])
  }

  /** Pairing commutes with appending. */
  lemma PhotosAppend(a: seq<string>, fa: seq<File>, b: seq<string>, fb: seq<File>)
    requires |a| == |fa| && |b| == |fb|
    ensures Photos(a + b, fa + fb) == Photos(a, fa) + Photos(b, fb)
  {
    var l, r := Photos(a + b, fa + fb), Photos(a, fa) + Photos(b, fb);
    forall i | 0 <= i < |l| ensures l[i] == r[i] {
      if i < |a| {
        assert r[i] == Photos(a, fa)[i];
      } else {
        assert r[i] == Photos(b, fb)[i - |a|];
      }
    }
  }

  /** Pairing commutes with removing one index. */
  lemma PhotosRemoveAt(images: seq<string>, files: seq<File>, index: int)
    requires |images| == |files|
    ensures Photos(Lists.RemoveAt(images, index), Lists.RemoveAt(files, index)) ==
            Lists.RemoveAt(Photos(images, files), index)
  {
  }

  /** What `handleSubmit` sends: prices converted by `Number`, `originalPrice`
      left out when blank, condition and category lower-cased, and the first photo
      file, if any, as `bookImage`. */
  datatype ListingRequest = ListingRequest(
    title: string,
    author: string,
    isbn: string,
    price: real,
    originalPrice: Option<real>,
    condition: string,
    category: string,
    description: string,
    bookImage: Option<File>)

  /** The page's `formData` state. */
  class SellPageState {
    var form: SellForm

    /** The two photo lists have equal length, at most five. */
    ghost predicate Valid()
      reads this
    {
      |form.images| == |form.imageFiles| <= MaxPhotos
    }

    constructor ()
      ensures Valid() && form == InitialForm
    {
      form := InitialForm;
    }

    /** The photos as (preview URL, file) pairs. */
    function PhotoList(): seq<(string, File)>
      requires Valid()
      reads this
    {
      Photos(form.images, form.imageFiles)
    }

    /** `handleImageUpload`: refused with an alert when the photos would number
        more than five; otherwise the new files and their preview URLs (`urls`,
        one per file, from `URL.createObjectURL`) go after the existing ones.
        Nothing but the photo lists changes. */
    method HandleImageUpload(files: seq<File>, urls: seq<string>) returns (alert: Option<string>)
      requires Valid() && |urls| == |files|
      modifies this
      ensures Valid()
      ensures |files| + |old(form.images)| > MaxPhotos ==>
        alert == Some("Maximum 5 photos allowed") && form == old(form)
      ensures |files| + |old(form.images)| <= MaxPhotos ==>
        && alert.None?
        && form == old(form).(images := old(form.images) + urls, imageFiles := old(form.imageFiles) + files)
        && PhotoList() == old(PhotoList()) + Photos(urls, files)
    {
      if |files| + |form.images| > MaxPhotos {
        return Some("Maximum 5 photos allowed");
      }
      PhotosAppend(form.images, form.imageFiles, urls, files);
      form := form.(images := form.images + urls, imageFiles := form.imageFiles + files);
      alert := None;
    }

    /** `removeImage(index)`: the same index leaves both lists, the rest keep
        their order and pairing. */
    method RemoveImage(index: int)
      requires Valid()
      modifies this
      ensures Valid()
      ensures form == old(form).(images := Lists.RemoveAt(old(form.images), index),
                                 imageFiles := Lists.RemoveAt(old(form.imageFiles), index))
      ensures PhotoList() == Lists.RemoveAt(old(PhotoList()), index)
    {
      PhotosRemoveAt(form.images, form.imageFiles, index);
      form := form.(images := Lists.RemoveAt(form.images, index),
                    imageFiles := Lists.RemoveAt(form.imageFiles, index));
    }

    /** The guard and the request of `handleSubmit`; `toNumber` is JavaScript's
        `Number`. None means the alert "Please fill in all required fields" and
        no request. */
    function SubmitRequest(toNumber: string -> real): (r: Option<ListingRequest>)
      reads this
      ensures r.Some? <==> form.title != "" && form.author != "" && form.price != ""
      ensures r.Some? ==> r.value.price == toNumber(form.price)
      ensures r.Some? ==> (r.value.originalPrice.None? <==> form.originalPrice == "")
      ensures r.Some? && form.originalPrice != "" ==> r.value.originalPrice == Some(toNumber(form.originalPrice))
      ensures r.Some? ==> r.value.condition == Text.Lower(form.condition) && r.value.category == Text.Lower(form.category)
      ensures r.Some? ==> (r.value.bookImage.Some? <==> form.imageFiles != [])
      ensures r.Some? && form.imageFiles != [] ==> r.value.bookImage == Some(form.imageFiles[0])
    {
      if form.title == "" || form.author == "" || form.price == "" then None
      else Some(ListingRequest(
        title := form.title,
        author := form.author,
        isbn := form.isbn,
        price := toNumber(form.price),
        originalPrice := if form.originalPrice != "" then Some(toNumber(form.originalPrice)) else None,
        condition := Text.Lower(form.condition),
        category := Text.Lower(form.category),
        description := form.description,
        bookImage := if |form.imageFiles| > 0 then Some(form.imageFiles[0]) else None))
    }

    /** `handleSaveDraft`: the alert it shows; a draft needs a title. */
    function SaveDraft(): (alert: string)
      reads this
      ensures form.title == "" ==> alert == "Please enter at least a book title"
      ensures form.title != "" ==> alert == "Draft saved!\nTitle: " + form.title
    {
      if form.title == "" then "Please enter at least a book title" else "Draft saved!\nTitle: " + form.title
    }
  }

  /** The form's initial condition and category, lower-cased as they are sent,
      are values the listing schema accepts. */
  lemma InitialChoicesAccepted()
    ensures ListingModel.ParseCondition(Text.Lower(InitialForm.condition)) == Some(ListingModel.Good)
    ensures ListingModel.ParseCategory(Text.Lower(InitialForm.category)) == Some(ListingModel.Mathematics)
  {
    LowerGood();
    LowerMathematics();
    SentCategory(Text.Lower(InitialForm.category));
  }

  lemma LowerGood()
    ensures Text.Lower("Good") == "good"
  {
    var s, t := "Good", "good";
    forall i | 0 <= i < 4 ensures Text.LowerChar(s[i]) == t[i] {}
    Text.LowerPointwise(s, t);
  }

  lemma LowerMathematics()
    ensures Text.Lower("Mathematics") == "mathematics"
  {
    var s, t := "Mathematics", "mathematics";
    forall i | 0 <= i < 11 ensures Text.LowerChar(s[i]) == t[i] {}
    Text.LowerPointwise(s, t);
  }

  lemma SentCategory(k: string)
    requires k == "mathematics"
    ensures ListingModel.ParseCategory(k) == Some(ListingModel.Mathematics)
  {
  }
}

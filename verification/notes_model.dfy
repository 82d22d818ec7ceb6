/** The study-notes schema (backend/models/Notes.js). The schema's `class` field
    is called `classLevel` here, `class` being a Dafny keyword. */
module NotesModel {
  import opened Common

  datatype Notes = Notes(
    id: NotesId,
    title: string,
    subject: string,
    classLevel: string,
    board: string,
    description: Option<string>,
    price: real,
    pages: real,
    fileUrl: Option<string>,
    author: UserId,
    downloads: real,
    rating: real,
    createdAt: int,
    updatedAt: int)

  /** The required strings are present and non-empty. */
  predicate ValidNotes(n: Notes) {
    n.title != [] && n.subject != [] && n.classLevel != [] && n.board != []
  }

  /** An upload request body; every key is optional. */
  datatype NotesBody = NotesBody(
    title: Option<string>,
    subject: Option<string>,
    classLevel: Option<string>,
    board: Option<string>,
    description: Option<string>,
    price: Option<real>,
    pages: Option<real>,
    fileUrl: Option<string>,
    author: Option<UserId>,
    downloads: Option<real>,
    rating: Option<real>)

  /** A required string is present and not empty. */
  predicate Present(v: Option<string>) {
    v.Some? && v.value != []
  }

  /** Schema validation: the four strings and the two numbers are required (the
      author is always supplied by the handler). */
  predicate BodyValid(body: NotesBody) {
    && Present(body.title) && Present(body.subject) && Present(body.classLevel) && Present(body.board)
    && body.price.Some? && body.pages.Some?
  }

  /** `Notes.create({ ...req.body, author: req.user._id })`: the author is the
      caller whatever the body says; downloads and rating default to 0. */
  function NewNotes(body: NotesBody, caller: UserId, id: NotesId, now: int): (r: Option<Notes>)
    ensures r.Some? <==> BodyValid(body)
    ensures r.Some? ==> ValidNotes(r.value)
    ensures r.Some? ==> r.value.id == id && r.value.author == caller
    ensures r.Some? ==> r.value.title == body.title.value && r.value.subject == body.subject.value
    ensures r.Some? ==> r.value.classLevel == body.classLevel.value && r.value.board == body.board.value
    ensures r.Some? ==> r.value.price == body.price.value && r.value.pages == body.pages.value
    ensures r.Some? ==> r.value.description == body.description && r.value.fileUrl == body.fileUrl
    ensures r.Some? && body.downloads.Some? ==> r.value.downloads == body.downloads.value
    ensures r.Some? && body.downloads.None? ==> r.value.downloads == 0.0
    ensures r.Some? && body.rating.Some? ==> r.value.rating == body.rating.value
    ensures r.Some? && body.rating.None? ==> r.value.rating == 0.0
    ensures r.Some? ==> r.value.createdAt == now && r.value.updatedAt == now
  {
    if !BodyValid(body) then None
    else Some(Notes(
      id := id,
      title := body.title.value,
      subject := body.subject.value,
      classLevel := body.classLevel.value,
      board := body.board.value,
      description := body.description,
      price := body.price.value,
      pages := body.pages.value,
      fileUrl := body.fileUrl,
      author := caller,
      downloads := body.downloads.GetOr(0.0),
      rating := body.rating.GetOr(0.0),
      createdAt := now,
      updatedAt := now))
  }

  /** The author named in the body is ignored. */
  lemma AuthorInBodyIgnored(body: NotesBody, other: UserId, caller: UserId, id: NotesId, now: int)
    ensures NewNotes(body.(author := Some(other)), caller, id, now) == NewNotes(body, caller, id, now)
  {
  }

  /** Each required field on its own blocks creation when missing. */
  lemma RequiredFieldsRequired(body: NotesBody, caller: UserId, id: NotesId, now: int)
    ensures NewNotes(body.(title := None), caller, id, now).None?
    ensures NewNotes(body.(subject := None), caller, id, now).None?
    ensures NewNotes(body.(classLevel := None), caller, id, now).None?
    ensures NewNotes(body.(board := None), caller, id, now).None?
    ensures NewNotes(body.(price := None), caller, id, now).None?
    ensures NewNotes(body.(pages := None), caller, id, now).None?
  {
  }
}

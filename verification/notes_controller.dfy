/** The notes handlers (backend/controllers/notesController.js). */
module NotesController {
  import opened Common
  import opened NotesModel
  import Lists

  class NotesCollection {
    var notes: map<NotesId, Notes>
    var nextId: NotesId

    ghost predicate Valid()
      reads this
    {
      forall id :: id in notes ==> notes[id].id == id && id < nextId
    }

    constructor ()
      ensures Valid() && notes == map[]
    {
      notes := map[];
      nextId := 0;
    }

    /** `uploadNotes`: 201 with the stored record, whose author is the caller, or
        400 when the body fails validation. */
    method UploadNotes(caller: UserId, body: NotesBody, now: int) returns (reply: Reply<Notes>)
      requires Valid()
      modifies this
      ensures Valid()
      ensures match NewNotes(body, caller, old(nextId), now)
        case Some(n) =>
          && reply == Ok(201, n)
          && n.author == caller
          && old(nextId) !in old(notes)
          && notes == old(notes)[old(nextId) := n]
        case None =>
          reply == Err(400, ValidationFailed) && notes == old(notes)
    {
      var created := NewNotes(body, caller, nextId, now);
      match created {
        case Some(n) =>
          notes := notes[nextId := n];
          nextId := nextId + 1;
          reply := Ok(201, n);
        case None =>
          reply := Err(400, ValidationFailed);
      }
    }

    /** `getNotes`: every record, unfiltered, newest first. */
    method GetNotes() returns (r: seq<Notes>)
      ensures forall n :: n in r <==> n in notes.Values
      ensures Lists.NoDuplicates(r)
      ensures forall i, j :: 0 <= i < j < |r| ==> r[i].createdAt >= r[j].createdAt
    {
      r := Lists.SelectNewestFirst(notes, (n: Notes) => true, (n: Notes) => n.createdAt as real);
    }
  }
}

/** The notes upload page (src/pages/notes/UploadNotesPage.jsx): the PDF and size
    check on the chosen file, and the guards, request and reset of the submit
    handler. */
module UploadNotesPage {
  import opened Common

  /** The largest file the page accepts: 10 MiB. */
  const MaxFileSize: nat := 10 * 1024 * 1024

  /** The form's fields by input name; `class` keeps its JavaScript name here. */
  type NotesForm = map<string, string>

  const EmptyForm: NotesForm := map[
    "title" := "", "subject" := "", "class" := "", "board" := "", "description" := "",
    "price" := "", "pages" := ""]

  datatype ToastKind = ErrorToast | SuccessToast
  datatype Toast = Toast(kind: ToastKind, message: string)

  /** Why a chosen file is refused, if it is: only `application/pdf` files of at
      most 10 MiB pass, and the type is checked first. */
  function FileError(f: File): (r: Option<string>)
    ensures r.None? <==> f.mimeType == "application/pdf" && f.size <= MaxFileSize
    ensures f.mimeType != "application/pdf" ==> r == Some("Only PDF files are allowed")
    ensures f.mimeType == "application/pdf" && f.size > MaxFileSize ==> r == Some("File size should be less than 10MB")
  {
    if f.mimeType != "application/pdf" then Some("Only PDF files are allowed")
    else if f.size > MaxFileSize then Some("File size should be less than 10MB")
    else None
  }

  /** A PDF of exactly 10 MiB passes, one byte more does not, whatever the
      message says. */
  lemma SizeLimitInclusive(name: string)
    ensures FileError(File(name, MaxFileSize, "application/pdf")).None?
    ensures FileError(File(name, MaxFileSize + 1, "application/pdf")).Some?
  {
  }

  /** The page's state: the form, the chosen file, the busy flag and the toast. */
  class UploadNotesState {
    var form: NotesForm
    var file: Option<File>
    var loading: bool
    var toast: Option<Toast>

    constructor ()
      ensures form == EmptyForm && file.None? && !loading && toast.None?
    {
      form := EmptyForm;
      file := None;
      loading := false;
      toast := None;
    }

    /** `handleInputChange`: one field takes the typed value. */
    method HandleInputChange(name: string, value: string)
      modifies this
      ensures form == old(form)[name := value]
      ensures file == old(file) && loading == old(loading) && toast == old(toast)
    {
      form := form[name := value];
    }

    /** `handleFileChange`: no file leaves everything as it was; a refused file
        shows an error toast and keeps the previous choice; an accepted file
        becomes the choice. */
    method HandleFileChange(selected: Option<File>)
      modifies this
      ensures form == old(form) && loading == old(loading)
      ensures selected.None? ==> file == old(file) && toast == old(toast)
      ensures selected.Some? && FileError(selected.value).Some? ==>
        file == old(file) && toast == Some(Toast(ErrorToast, FileError(selected.value).value))
      ensures selected.Some? && FileError(selected.value).None? ==>
        file == selected && toast == old(toast)
    {
      if selected.Some? {
        var error := FileError(selected.value);
        if error.Some? {
          toast := Some(Toast(ErrorToast, error.value));
          return;
        }
        file := selected;
      }
    }

    /** `handleSubmit`, with the outcome of the request as `succeeded`. Without a
        file: an error toast and no request. Otherwise the request carries the
        form fields only, never the file; success clears the form and the file,
        failure keeps both; the busy flag ends up off either way. */
    method HandleSubmit(succeeded: bool) returns (request: Option<NotesForm>)
      modifies this
      ensures old(file).None? ==>
        && request.None?
        && toast == Some(Toast(ErrorToast, "Please select a PDF file"))
        && form == old(form) && file == old(file) && loading == old(loading)
      ensures old(file).Some? ==> request == Some(old(form)) && !loading
      ensures old(file).Some? && succeeded ==>
        form == EmptyForm && file.None? && toast == Some(Toast(SuccessToast, "Notes uploaded successfully!"))
      ensures old(file).Some? && !succeeded ==>
        form == old(form) && file == old(file) && toast == Some(Toast(ErrorToast, "Network error. Please try again."))
    {
      if file.None? {
        toast := Some(Toast(ErrorToast, "Please select a PDF file"));
        return None;
      }
      loading := true;
      request := Some(form);
      if succeeded {
        toast := Some(Toast(SuccessToast, "Notes uploaded successfully!"));
        form := EmptyForm;
        file := None;
      } else {
        toast := Some(Toast(ErrorToast, "Network error. Please try again."));
      }
      loading := false;
    }
  }
}

/** The upload middleware (backend/middleware/upload.js): where multer stores a
    file, which files it admits, the name it stores them under and the size
    limit. The clock (`Date.now()`) and the random suffix are parameters. */
module Upload {
  import opened Common
  import Text

  // ---------------------------------------------------------------------------
  // Destination

  const BooksDir: string := "uploads/books/"
  const NotesDir: string := "uploads/notes/"
  const GenericDir: string := "uploads/"

  /** `storage.destination`: book images, notes, and everything else. */
  function Destination(field: string): (dir: string)
    ensures dir == BooksDir <==> field == "bookImage"
    ensures dir == NotesDir <==> field == "noteFile" || field == "notesFile"
    ensures dir == GenericDir <==> field != "bookImage" && field != "noteFile" && field != "notesFile"
  {
    if field == "bookImage" then BooksDir
    else if field == "noteFile" || field == "notesFile" then NotesDir
    else GenericDir
  }

  // ---------------------------------------------------------------------------
  // File filter

  const AllowedFields: seq<string> := ["bookImage", "noteFile", "notesFile", "file"]

  const DocumentTypes: seq<string> := [
    "application/pdf",
    "application/msword",
    "application/vnd.openxmlformats-officedocument.wordprocessingml.document"]

  datatype Verdict = Accept | Reject(message: string)

  /** `fileFilter`, branch for branch, including its final catch-all accept. */
  function FileFilter(field: string, mime: string): (v: Verdict)
    ensures field !in AllowedFields ==> v == Reject("Unexpected field: " + field)
    ensures field == "bookImage" ==> (v.Accept? <==> Text.StartsWith(mime, "image/"))
    ensures field in AllowedFields[1..] ==> (v.Accept? <==> mime in DocumentTypes)
    ensures v.Accept? <==>
      || (field == "bookImage" && Text.StartsWith(mime, "image/"))
      || (field in {"noteFile", "notesFile", "file"} && mime in DocumentTypes)
  {
    if field !in AllowedFields then Reject("Unexpected field: " + field)
    else if field == "bookImage" then
      if Text.StartsWith(mime, "image/") then Accept
      else Reject("Only image files are allowed for book images")
    else if field == "noteFile" || field == "notesFile" || field == "file" then
      if mime in DocumentTypes then Accept
      else Reject("Only PDF and Word documents are allowed for notes")
    else Accept
  }

  /** The final accept branch is dead: every allowed field is handled by one of
      the two typed branches, so the filter accepts a file only after checking
      its type. */
  lemma {:induction false} CatchAllUnreachable(field: string, mime: string)
    ensures field in AllowedFields ==>
      field == "bookImage" || field == "noteFile" || field == "notesFile" || field == "file"
    ensures FileFilter(field, mime).Accept? ==>
      || (field == "bookImage" && Text.StartsWith(mime, "image/"))
      || (field in AllowedFields[1..] && mime in DocumentTypes)
  {
    if field in AllowedFields {
      var i :| 0 <= i < |AllowedFields| && AllowedFields[i] == field;
      assert i == 0 || i == 1 || i == 2 || i == 3;
    }
  }

  /** The `file` field is checked as a document, whatever the type, but lands in
      the generic directory. */
  lemma GenericFieldIsADocument(mime: string)
    ensures FileFilter("file", mime).Accept? <==> mime in DocumentTypes
    ensures !FileFilter("file", mime).Accept? ==>
              FileFilter("file", mime) == Reject("Only PDF and Word documents are allowed for notes")
    ensures Destination("file") == GenericDir
  {
  }

  // ---------------------------------------------------------------------------
  // Size limit

  /** `limits.fileSize`: 10 MiB. */
  const MaxFileSize: nat := 10 * 1024 * 1024

  /** A file of exactly the limit is within it. */
  predicate WithinLimit(size: nat) {
    size <= MaxFileSize
  }

  // ---------------------------------------------------------------------------
  // Stored file name

  /** No character of `s` is `c`. */
  predicate Free(s: string, c: char) {
    forall k | 0 <= k < |s| :: s[k] != c
  }

  /** The part of a path after the last `/`, once trailing slashes are gone. */
  function Basename(path: string): (b: string)
    ensures Free(b, '/')
    decreases |path|
  {
    if path == [] then []
    else if path[|path| - 1] == '/' then Basename(path[..|path| - 1])
    else BaseRun(path)
  }

  /** The trailing run of characters that are not `/`. */
  function BaseRun(path: string): (b: string)
    ensures Free(b, '/') && |b| <= |path|
    ensures b == path[|path| - |b|..]
  {
    if path == [] || path[|path| - 1] == '/' then []
    else BaseRun(path[..|path| - 1]) + [path[|path| - 1]]
  }

  /** Index of the last `.` in `s`, or -1. */
  function LastDot(s: string): (i: int)
    ensures -1 <= i < |s|
    ensures i >= 0 ==> s[i] == '.'
    ensures forall k | i < k < |s| :: s[k] != '.'
  {
    if s == [] then -1
    else if s[|s| - 1] == '.' then |s| - 1
    else LastDot(s[..|s| - 1])
  }

  /** `path.extname` (POSIX): from the last `.` of the base name to its end; empty
      when the base name has no `.`, when its only `.` is its first character
      (".bashrc"), or when it is "..". */
  function Extname(path: string): (e: string)
    ensures e == [] || (e[0] == '.' && Free(e[1..], '.') && Free(e, '/'))
  {
    var b := Basename(path);
    var d := LastDot(b);
    if d <= 0 || b == ".." then [] else b[d..]
  }

  /** A name with no `/` is its own base name. */
  lemma {:induction false} BaseRunNoSlash(s: string)
    requires Free(s, '/')
    ensures BaseRun(s) == s
  {
    if s != [] {
      BaseRunNoSlash(s[..|s| - 1]);
      assert s == s[..|s| - 1] + [s[|s| - 1]];
    }
  }

  /** The last `.` is found where it is. */
  lemma {:induction false} LastDotAt(s: string, i: nat)
    requires i < |s| && s[i] == '.'
    requires forall k | i < k < |s| :: s[k] != '.'
    ensures LastDot(s) == i
    decreases |s|
  {
    if i < |s| - 1 {
      LastDotAt(s[..|s| - 1], i);
    }
  }

  /** The shape of `stem.ext`: no `/`, a `.` after the stem and none later, and
      not "..". */
  lemma StemAndExtShape(stem: string, ext: string)
    requires Free(stem, '/') && Free(ext, '/') && Free(ext, '.')
    requires stem != [] && !(stem == "." && ext == [])
    ensures var name := stem + "." + ext;
            && Free(name, '/') && name[|stem|] == '.'
            && (forall k | |stem| < k < |name| :: name[k] != '.')
            && name[|stem|..] == "." + ext && name != ".."
  {
    var name := stem + "." + ext;
    forall k | 0 <= k < |name|
      ensures name[k] != '/'
      ensures k > |stem| ==> name[k] != '.'
    {
      if k > |stem| { assert name[k] == ext[k - |stem| - 1]; }
    }
    assert name[|stem|..] == "." + ext;
    if |name| == 2 {
      assert |stem| == 1 && ext == [];
      assert stem != ".";
      assert stem == [stem[0]];
      assert name[0] == stem[0] != '.';
    }
  }

  /** A plain name `stem.ext` has extension `.ext`. */
  lemma ExtnameOfStemAndExt(stem: string, ext: string)
    requires Free(stem, '/') && Free(ext, '/') && Free(ext, '.')
    requires stem != [] && !(stem == "." && ext == [])
    ensures Extname(stem + "." + ext) == "." + ext
  {
    var name := stem + "." + ext;
    StemAndExtShape(stem, ext);
    BaseRunNoSlash(name);
    assert Basename(name) == name;
    LastDotAt(name, |stem|);
  }

  /** A name without a dot has no extension. */
  lemma ExtnameNoDot(name: string)
    requires Free(name, '/') && Free(name, '.')
    ensures Extname(name) == []
  {
    if name != [] {
      BaseRunNoSlash(name);
    }
  }

  /** `fieldname + '-' + Date.now() + '-' + round(random * 1e9) + extname(originalname)`. */
  function StoredFilename(field: string, timestamp: nat, random: nat, original: string): (name: string)
    ensures Text.StartsWith(name, field + "-")
    ensures Text.EndsWith(name, Extname(original))
  {
    field + "-" + Text.NatToString(timestamp) + "-" + Text.NatToString(random) + Extname(original)
  }

  /** The parts a stored file name is made of. */
  datatype StoredName = StoredName(field: string, timestamp: nat, random: nat, ext: string)

  /** The text before the first `c`, and whether there was one. */
  function Before(s: string, c: char): (r: string)
    ensures |r| <= |s| && r == s[..|r|] && Free(r, c)
    ensures |r| < |s| ==> s[|r|] == c
  {
    if s == [] || s[0] == c then [] else [s[0]] + Before(s[1..], c)
  }

  lemma {:induction false} BeforeJoin(a: string, b: string, c: char)
    requires Free(a, c)
    ensures Before(a + [c] + b, c) == a
  {
    if a != [] {
      assert (a + [c] + b)[1..] == a[1..] + [c] + b;
      BeforeJoin(a[1..], b, c);
      assert [a[0]] + a[1..] == a;
    }
  }

  /** Reads a leading decimal number, returning it and the text after it. */
  function SplitNumber(s: string): (r: Option<(nat, string)>)
    ensures r.Some? ==> |r.value.1| < |s| && r.value.1 == s[|s| - |r.value.1|..]
  {
    var d := Text.TakeDigits(s);
    if d == [] then None else Some((Text.DigitsValue(d), s[|d|..]))
  }

  lemma SplitNumberOf(d: string, t: string)
    requires d != [] && Text.AllDigits(d)
    requires t == [] || !Text.IsDigit(t[0])
    ensures SplitNumber(d + t) == Some((Text.DigitsValue(d), t))
  {
    Text.TakeDigitsPrefix(d, t);
    assert (d + t)[|d|..] == t;
  }

  /** Reads `<digits>-<digits><rest>` into the two numbers and the rest. */
  function ParseNumbers(s: string): (r: Option<(nat, nat, string)>)
    ensures r.Some? ==> |r.value.2| <= |s| && r.value.2 == s[|s| - |r.value.2|..]
  {
    match SplitNumber(s)
    case None => None
    case Some((first, rest)) =>
      if rest == [] || rest[0] != '-' then None
      else match SplitNumber(rest[1..])
        case None => None
        case Some((second, ext)) => Some((first, second, ext))
  }

  /** Reads a stored name back into its parts: the field up to the first `-`, two
      decimal numbers separated by `-`, and the remaining extension. */
  function ParseStoredName(name: string): (r: Option<StoredName>)
    ensures r.Some? ==> Free(r.value.field, '-') && Text.StartsWith(name, r.value.field + "-")
    ensures r.Some? ==> Text.EndsWith(name, r.value.ext)
  {
    var f := Before(name, '-');
    if |f| == |name| then None
    else
      var rest := name[|f| + 1..];
      assert name[..|f| + 1] == f + "-";
      match ParseNumbers(rest)
      case None => None
      case Some((timestamp, random, ext)) =>
        assert name[|name| - |ext|..] == rest[|rest| - |ext|..];
        Some(StoredName(f, timestamp, random, ext))
  }

  lemma SplitFirstNumber(d1: string, d2: string, ext: string)
    requires d1 != [] && Text.AllDigits(d1)
    ensures SplitNumber(d1 + "-" + d2 + ext) == Some((Text.DigitsValue(d1), "-" + d2 + ext))
  {
    var rest := "-" + d2 + ext;
    assert d1 + "-" + d2 + ext == d1 + rest;
    SplitNumberOf(d1, rest);
  }

  lemma SplitSecondNumber(d2: string, ext: string)
    requires d2 != [] && Text.AllDigits(d2)
    requires ext == [] || !Text.IsDigit(ext[0])
    ensures SplitNumber(("-" + d2 + ext)[1..]) == Some((Text.DigitsValue(d2), ext))
  {
    assert ("-" + d2 + ext)[1..] == d2 + ext;
    SplitNumberOf(d2, ext);
  }

  lemma ParseNumbersOfDigits(d1: string, d2: string, ext: string)
    requires d1 != [] && Text.AllDigits(d1) && d2 != [] && Text.AllDigits(d2)
    requires ext == [] || !Text.IsDigit(ext[0])
    ensures ParseNumbers(d1 + "-" + d2 + ext) == Some((Text.DigitsValue(d1), Text.DigitsValue(d2), ext))
  {
    SplitFirstNumber(d1, d2, ext);
    SplitSecondNumber(d2, ext);
  }

  lemma ParseNumbersOf(timestamp: nat, random: nat, ext: string)
    requires ext == [] || ext[0] == '.'
    ensures ParseNumbers(Text.NatToString(timestamp) + "-" + Text.NatToString(random) + ext) ==
            Some((timestamp, random, ext))
  {
    ParseNumbersOfDigits(Text.NatToString(timestamp), Text.NatToString(random), ext);
    Text.DigitsValueNatToString(timestamp);
    Text.DigitsValueNatToString(random);
  }

  /** For a field name without `-`, the stored name determines the field, the
      time stamp, the random suffix and the extension. */
  lemma StoredFilenameRoundTrip(field: string, timestamp: nat, random: nat, original: string)
    requires Free(field, '-')
    ensures ParseStoredName(StoredFilename(field, timestamp, random, original)) ==
            Some(StoredName(field, timestamp, random, Extname(original)))
  {
    var e := Extname(original);
    var tail := Text.NatToString(timestamp) + "-" + Text.NatToString(random) + e;
    var name := StoredFilename(field, timestamp, random, original);
    assert name == field + ['-'] + tail;
    BeforeJoin(field, tail, '-');
    assert name[|field| + 1..] == tail;
    ParseNumbersOf(timestamp, random, e);
  }

  // ---------------------------------------------------------------------------
  // One upload

  datatype Outcome = Stored(path: string) | Rejected(message: string)

  /** One file through the middleware: the filter decides first, then the size
      limit; an admitted file is stored under its destination and generated name. */
  function Store(field: string, mime: string, size: nat, original: string, timestamp: nat, random: nat)
    : (r: Outcome)
    ensures r.Stored? <==> FileFilter(field, mime).Accept? && WithinLimit(size)
    ensures r.Stored? ==> r.path == Destination(field) + StoredFilename(field, timestamp, random, original)
    ensures FileFilter(field, mime).Reject? ==> r == Rejected(FileFilter(field, mime).message)
    ensures FileFilter(field, mime).Accept? && !WithinLimit(size) ==> r == Rejected("File too large")
  {
    match FileFilter(field, mime)
    case Reject(message) => Rejected(message)
    case Accept =>
      if WithinLimit(size) then Stored(Destination(field) + StoredFilename(field, timestamp, random, original))
      else Rejected("File too large")
  }
}

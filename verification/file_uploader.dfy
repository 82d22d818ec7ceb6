/** The drop zone of the file picker (src/components/ui/FileUploader.jsx): a new
    selection is cut down to the files within the size limit, then to the first
    `maxFiles` of them, and replaces whatever was selected before. */
module FileUploader {
  import opened Common
  import Lists

  /** The props' defaults: ten files of at most 10 MiB each. */
  const DefaultMaxFiles: nat := 10
  const DefaultMaxSize: nat := 10 * 1024 * 1024

  /** The filter `file => file.size <= maxSize`. */
  function FitsIn(maxSize: nat): File -> bool {
    (f: File) => f.size <= maxSize
  }

  /** The files within the size limit, in input order, each as often as it was
      selected. */
  function Fitting(files: seq<File>, maxSize: nat): (r: seq<File>)
    ensures forall f :: f in r <==> f in files && f.size <= maxSize
    ensures forall f :: multiset(r)[f] == if f.size <= maxSize then multiset(files)[f] else 0
    ensures Lists.IsSubsequence(r, files)
  {
    Lists.FilterIsSubsequence(files, FitsIn(maxSize));
    Lists.Filter(files, FitsIn(maxSize))
  }

  /** `handleFiles`: the fitting files, cut to the first `maxFiles` when
      `maxFiles` is non-zero (a zero `maxFiles` is falsy and disables the cut). */
  function Kept(files: seq<File>, maxFiles: nat, maxSize: nat): (r: seq<File>)
    ensures forall i :: 0 <= i < |r| ==> r[i].size <= maxSize
    ensures |r| <= |Fitting(files, maxSize)| && r == Fitting(files, maxSize)[..|r|]
    ensures maxFiles == 0 ==> r == Fitting(files, maxSize)
    ensures maxFiles > 0 ==> |r| == if |Fitting(files, maxSize)| <= maxFiles then |Fitting(files, maxSize)| else maxFiles
  {
    var valid := Fitting(files, maxSize);
    assert forall i :: 0 <= i < |valid| ==> valid[i] in valid;
    if maxFiles != 0 && |valid| > maxFiles then valid[..maxFiles] else valid
  }

  /** A file of exactly the size limit is kept, and so is every selection whose
      files all fit and which is not over the count. */
  lemma KeptWhenAllFit(files: seq<File>, maxFiles: nat, maxSize: nat)
    requires forall i :: 0 <= i < |files| ==> files[i].size <= maxSize
    requires maxFiles == 0 || |files| <= maxFiles
    ensures Kept(files, maxFiles, maxSize) == files
  {
    Lists.FilterAll(files, FitsIn(maxSize));
  }

  /** A file over the limit is never kept, however many files there are. */
  lemma OversizedDropped(files: seq<File>, maxFiles: nat, maxSize: nat, f: File)
    requires f.size > maxSize
    ensures f !in Kept(files, maxFiles, maxSize)
  {
  }

  /** The component's `files` state and the two size/count props. */
  class Picker {
    const maxFiles: nat
    const maxSize: nat
    var files: seq<File>

    /** A picker with nothing selected. */
    constructor (maxFiles: nat, maxSize: nat)
      ensures this.maxFiles == maxFiles && this.maxSize == maxSize && files == []
    {
      this.maxFiles := maxFiles;
      this.maxSize := maxSize;
      files := [];
    }

    /** A picker rendered without the two props: the defaults apply. */
    constructor WithDefaults()
      ensures maxFiles == DefaultMaxFiles && maxSize == DefaultMaxSize && files == []
      ensures maxFiles == 10 && maxSize == 10485760
    {
      maxFiles := DefaultMaxFiles;
      maxSize := DefaultMaxSize;
      files := [];
    }

    /** `handleFiles`: the kept files replace the previous selection, whatever it
        was, and both `onFileSelect` and `onFilesChange` receive that same list. */
    method HandleFiles(fileList: seq<File>) returns (selected: seq<File>, changed: seq<File>)
      modifies this
      ensures files == Kept(fileList, maxFiles, maxSize)
      ensures selected == files && changed == files
      ensures maxFiles > 0 ==> |files| <= maxFiles
    {
      files := Kept(fileList, maxFiles, maxSize);
      selected := files;
      changed := files;
    }
  }
}

/**
 * The document list of the PDF merger (`PdfMerger`): three parallel lists
 * (the files, their page counts and their page-range texts), batch
 * admission, removal, reordering, range edits, and the merge loop that
 * turns the list into the sequence of pages of the output document.
 *
 * pdf-lib is abstracted as each file's page count: `File.pages` is what
 * `PDFDocument.load(bytes).getPageCount()` yields, None when loading fails.
 */
module PdfMerger {
  import opened Wrappers
  import opened JsBuiltins
  import opened PageRange
  import PageRangeProperties

  const MaxFiles: nat := 10
  const MaxFileSize: nat := 10 * 1024 * 1024

  const TooManyFilesError: string := "Maximum " + NatToString(MaxFiles) + " files allowed."
  const FileTooLargeError: string := "Each file must be under " + NatToString(MaxFileSize / 1024 / 1024) + " MB."
  const NoFilesError: string := "Select at least one PDF file to merge."
  const MergeFailedError: string := "Merging failed. Please check your files and page ranges."
  const MergedName: string := "merged.pdf"

  /** A file chosen by the user, with the page count pdf-lib reads from it (None: not loadable). */
  datatype File = File(name: string, size: nat, mimeType: string, pages: Option<nat>)

  // ---------------------------------------------------------------------
  // Admission of a batch (`handleFileChange`)

  /** Some existing entry has the same name and size as `f`. */
  predicate IsDuplicate(existing: seq<File>, f: File)
  {
    exists e :: e in existing && e.name == f.name && e.size == f.size
  }

  /** `selected.filter(f => !files.some(...))`: the batch files not already listed, in batch order. */
  function NewFiles(existing: seq<File>, batch: seq<File>): seq<File>
  {
    if batch == [] then []
    else (if IsDuplicate(existing, batch[0]) then [] else [batch[0]]) + NewFiles(existing, batch[1..])
  }

  /** `Promise.all` of the page counts: all of them, in order, or None when some file does not load. */
  function PageCounts(fs: seq<File>): Option<seq<nat>>
  {
    if fs == [] then Some([])
    else
      match (fs[0].pages, PageCounts(fs[1..]))
      case (Some(n), Some(ns)) => Some([n] + ns)
      case _ => None
  }

  /** `newCounts.map(cnt => `1-${cnt}`)`. */
  function DefaultRanges(counts: seq<nat>): (r: seq<string>)
  {
    seq(|counts|, k requires 0 <= k < |counts| => DefaultRange(counts[k]))
  }

  /** The outcome of admitting a batch. */
  datatype Admission =
    | Rejected(message: string)                   // a cap is exceeded: the message is shown
    | Undecodable                                 // some new file does not load: the handler throws
    | Admitted(added: seq<File>, counts: seq<nat>)

  /**
   * The count cap (taken on the batch before duplicates are removed), then
   * the size cap, then the duplicates against the listed files are dropped
   * and the remaining files are loaded.
   */
  function Admit(existing: seq<File>, batch: seq<File>): Admission
  {
    if |existing| + |batch| > MaxFiles then Rejected(TooManyFilesError)
    else if exists f :: f in batch && f.size > MaxFileSize then Rejected(FileTooLargeError)
    else
      var added := NewFiles(existing, batch);
      match PageCounts(added)
      case None => Undecodable
      case Some(counts) => Admitted(added, counts)
  }

  /** `counts[i]` is the page count of `fs[i]`, for every position. */
  predicate Recorded(fs: seq<File>, counts: seq<nat>)
  {
    |counts| == |fs| && forall i :: 0 <= i < |fs| ==> fs[i].pages == Some(counts[i])
  }

  /** At most MaxFiles files, none larger than MaxFileSize. */
  predicate Bounded(fs: seq<File>)
  {
    |fs| <= MaxFiles && forall f :: f in fs ==> f.size <= MaxFileSize
  }

  // ---------------------------------------------------------------------
  // List updates

  /** `arr.filter((_, i) => i !== idx)`: drops position idx, if there is one. */
  function RemoveAt<T>(s: seq<T>, idx: int): (r: seq<T>)
    ensures |r| == if 0 <= idx < |s| then |s| - 1 else |s|
    ensures forall k :: 0 <= k < |r| ==> r[k] == if 0 <= idx <= k then s[k + 1] else s[k]
  {
    if 0 <= idx < |s| then s[..idx] + s[idx + 1..] else s
  }

  /** `arr.map((r, i) => i === idx ? val : r)`: replaces position idx, if there is one. */
  function ReplaceAt<T>(s: seq<T>, idx: int, v: T): (r: seq<T>)
    ensures |r| == |s|
    ensures forall k :: 0 <= k < |s| ==> r[k] == if k == idx then v else s[k]
  {
    if 0 <= idx < |s| then s[idx := v] else s
  }

  /** Positions i and j exchanged, everything else in place: a permutation. */
  function Swap<T>(s: seq<T>, i: nat, j: nat): (r: seq<T>)
    requires i < |s| && j < |s|
    ensures |r| == |s| && r[i] == s[j] && r[j] == s[i]
    ensures forall k :: 0 <= k < |s| && k != i && k != j ==> r[k] == s[k]
    ensures multiset(r) == multiset(s)
  {
    s[i := s[j]][j := s[i]]
  }

  /** `const out = [...arr]; [out[i], out[j]] = [out[j], out[i]]`: swaps a fresh copy in place. */
  method SwapCopy<T>(arr: seq<T>, i: nat, j: nat) returns (r: seq<T>)
    requires i < |arr| && j < |arr|
    ensures r == Swap(arr, i, j)
  {
    var out := new T[|arr|](k requires 0 <= k < |arr| => arr[k]);
    out[i], out[j] := out[j], out[i];
    r := out[..];
  }

  // ---------------------------------------------------------------------
  // The merge (`mergePDFs`)

  /** A page of the output: page `page` (0-based) of the `file`-th listed file. */
  datatype PageRef = PageRef(file: nat, page: nat)

  /** The pages copied from the file at position `file`. */
  function Refs(file: nat, selected: seq<nat>): seq<PageRef>
  {
    seq(|selected|, k requires 0 <= k < |selected| => PageRef(file, selected[k]))
  }

  /** The file loads and its range text selects at least one page. */
  predicate Mergeable(f: File, range: string)
  {
    f.pages.Some? && ParseRange(range, f.pages.value) != []
  }

  /**
   * What the loop works from, file by file: the pages the file's range
   * text selects among its pages, or None when the file does not load.
   */
  function Selections(files: seq<File>, ranges: seq<string>): (r: seq<Option<seq<nat>>>)
    requires |ranges| == |files|
    ensures |r| == |files|
  {
    seq(|files|, i requires 0 <= i < |files| =>
      if files[i].pages.None? then None else Some(ParseRange(ranges[i], files[i].pages.value)))
  }

  /**
   * The loop after its first `n` iterations: the pages copied so far, or
   * None once a file has not loaded or has selected no page (the loop
   * throws, and every error ends in the same message).
   */
  function Collect(sels: seq<Option<seq<nat>>>, n: nat): Option<seq<PageRef>>
    requires n <= |sels|
  {
    if n == 0 then Some([])
    else
      match Collect(sels, n - 1)
      case None => None
      case Some(acc) =>
        match sels[n - 1]
        case None => None
        case Some(selected) => if selected == [] then None else Some(acc + Refs(n - 1, selected))
  }

  /** The merge of a whole list. */
  function Merge(files: seq<File>, ranges: seq<string>): Option<seq<PageRef>>
    requires |ranges| == |files|
  {
    Collect(Selections(files, ranges), |files|)
  }

  /** `files.length === 1 ? files[0].name : 'merged.pdf'`. */
  function OutputName(files: seq<File>): string
    requires |files| >= 1
  {
    if |files| == 1 then files[0].name else MergedName
  }

  /** What the browser downloads: the file name and the pages, in output order. */
  datatype Download = Download(name: string, pages: seq<PageRef>)

  /**
   * The `for` loop of `mergePDFs`: visits the files in list order, resolves
   * each one's range against its page count and appends the selected
   * pages; the first file that does not load or selects nothing throws.
   */
  method CopySelectedPages(files: seq<File>, ranges: seq<string>) returns (merged: Option<seq<PageRef>>)
    requires |ranges| == |files|
    ensures merged == Merge(files, ranges)
  {
    ghost var sels := Selections(files, ranges);
    var pages: seq<PageRef> := [];
    var idx := 0;
    while idx < |files|
      invariant 0 <= idx <= |files|
      invariant Collect(sels, idx) == Some(pages)
    {
      var file := files[idx];
      CollectStep(sels, idx);
      if file.pages.None? {
        CollectFailureSticks(sels, idx + 1, |files|);
        return None;
      }
      var selected := ParseRange(ranges[idx], file.pages.value);
      assert sels[idx] == Some(selected);
      if selected == [] {
        CollectFailureSticks(sels, idx + 1, |files|);
        return None;
      }
      pages := pages + Refs(idx, selected);
      idx := idx + 1;
    }
    return Some(pages);
  }

  // ---------------------------------------------------------------------
  // The component state

  class DocumentList {
    var files: seq<File>
    var pageCounts: seq<nat>
    var pageRanges: seq<string>
    var merging: bool
    var error: string

    /** The three lists stay aligned; every listed file passed admission and loads with its recorded count. */
    ghost predicate Valid()
      reads this
    {
      |pageRanges| == |files| && Bounded(files) && Recorded(files, pageCounts)
    }

    constructor ()
      ensures Valid()
      ensures files == [] && pageCounts == [] && pageRanges == [] && !merging && error == ""
    {
      files, pageCounts, pageRanges := [], [], [];
      merging, error := false, "";
    }

    /** `handleFileChange`: admits a batch, all or nothing. */
    method HandleFileChange(batch: seq<File>)
      requires Valid()
      modifies this`files, this`pageCounts, this`pageRanges, this`error
      ensures Valid()
      ensures match Admit(old(files), batch)
        case Rejected(message) =>
          error == message && files == old(files) && pageCounts == old(pageCounts) && pageRanges == old(pageRanges)
        case Undecodable =>
          error == "" && files == old(files) && pageCounts == old(pageCounts) && pageRanges == old(pageRanges)
        case Admitted(added, counts) =>
          error == "" && files == old(files) + added && pageCounts == old(pageCounts) + counts
          && pageRanges == old(pageRanges) + DefaultRanges(counts)
    {
      error := "";
      if |files| + |batch| > MaxFiles {
        assert Admit(files, batch) == Rejected(TooManyFilesError);
        error := TooManyFilesError;
        return;
      }
      if exists f :: f in batch && f.size > MaxFileSize {
        assert Admit(files, batch) == Rejected(FileTooLargeError);
        error := FileTooLargeError;
        return;
      }
      var unique := NewFiles(files, batch);
      var newCounts := PageCounts(unique);
      if newCounts.None? {
        // Promise.all rejects: the handler throws before any list is set.
        assert Admit(files, batch) == Undecodable;
        return;
      }
      assert Admit(files, batch) == Admitted(unique, newCounts.value);
      AdmittedKeepsValid(files, batch);
      RecordedConcat(files, pageCounts, unique, newCounts.value);
      files := files + unique;
      pageCounts := pageCounts + newCounts.value;
      pageRanges := pageRanges + DefaultRanges(newCounts.value);
    }

    /** `removeFile`: drops position idx from all three lists (none when idx is not a position). */
    method RemoveFile(idx: int)
      requires Valid()
      modifies this`files, this`pageCounts, this`pageRanges
      ensures Valid()
      ensures files == RemoveAt(old(files), idx)
      ensures pageCounts == RemoveAt(old(pageCounts), idx)
      ensures pageRanges == RemoveAt(old(pageRanges), idx)
    {
      RemoveKeepsValid(files, pageCounts, idx);
      files := RemoveAt(files, idx);
      pageCounts := RemoveAt(pageCounts, idx);
      pageRanges := RemoveAt(pageRanges, idx);
    }

    /** `moveUp`: the first file stays; any other changes places with its predecessor in all three lists. */
    method MoveUp(idx: int)
      requires Valid() && 0 <= idx < |files|
      modifies this`files, this`pageCounts, this`pageRanges
      ensures Valid()
      ensures idx == 0 ==> files == old(files) && pageCounts == old(pageCounts) && pageRanges == old(pageRanges)
      ensures idx > 0 ==>
        files == Swap(old(files), idx - 1, idx) && pageCounts == Swap(old(pageCounts), idx - 1, idx)
        && pageRanges == Swap(old(pageRanges), idx - 1, idx)
    {
      if idx == 0 {
        return;
      }
      files := SwapCopy(files, idx - 1, idx);
      pageCounts := SwapCopy(pageCounts, idx - 1, idx);
      pageRanges := SwapCopy(pageRanges, idx - 1, idx);
      SwapKeepsBounded(old(files), idx - 1, idx);
    }

    /** `moveDown`: the last file stays; any other changes places with its successor in all three lists. */
    method MoveDown(idx: int)
      requires Valid() && 0 <= idx < |files|
      modifies this`files, this`pageCounts, this`pageRanges
      ensures Valid()
      ensures idx == |old(files)| - 1 ==> files == old(files) && pageCounts == old(pageCounts) && pageRanges == old(pageRanges)
      ensures idx < |old(files)| - 1 ==>
        files == Swap(old(files), idx + 1, idx) && pageCounts == Swap(old(pageCounts), idx + 1, idx)
        && pageRanges == Swap(old(pageRanges), idx + 1, idx)
    {
      if idx == |files| - 1 {
        return;
      }
      files := SwapCopy(files, idx + 1, idx);
      pageCounts := SwapCopy(pageCounts, idx + 1, idx);
      pageRanges := SwapCopy(pageRanges, idx + 1, idx);
      SwapKeepsBounded(old(files), idx + 1, idx);
    }

    /** `onRangeChange`: replaces the range text at position idx, nothing else. */
    method OnRangeChange(idx: int, val: string)
      requires Valid()
      modifies this`pageRanges
      ensures Valid()
      ensures pageRanges == ReplaceAt(old(pageRanges), idx, val)
    {
      pageRanges := ReplaceAt(pageRanges, idx, val);
    }

    /**
     * `mergePDFs`: with no file, only the error is set. Otherwise the
     * files are visited in list order; the first one that does not load or
     * whose range selects nothing aborts the merge with the generic error,
     * and no download happens. `merging` is cleared either way.
     */
    method MergePdfs() returns (download: Option<Download>)
      requires Valid()
      modifies this`error, this`merging
      ensures Valid()
      ensures |files| == 0 ==> download == None && error == NoFilesError && merging == old(merging)
      ensures |files| > 0 ==> !merging
      ensures |files| > 0 ==>
        match Merge(files, pageRanges)
        case None => download == None && error == MergeFailedError
        case Some(pages) => download == Some(Download(OutputName(files), pages)) && error == ""
    {
      if |files| < 1 {
        error := NoFilesError;
        return None;
      }
      error := "";
      merging := true;
      var merged := CopySelectedPages(files, pageRanges);
      if merged.None? {
        error := MergeFailedError;
        download := None;
      } else {
        download := Some(Download(OutputName(files), merged.value));
      }
      merging := false;
    }
  }

  // ---------------------------------------------------------------------
  // Admission properties

  /** Admission keeps the list within its caps and records each added file's page count. */
  lemma AdmittedKeepsValid(existing: seq<File>, batch: seq<File>)
    requires Bounded(existing)
    requires Admit(existing, batch).Admitted?
    ensures var a := Admit(existing, batch);
      Bounded(existing + a.added) && Recorded(a.added, a.counts)
  {
    var added := NewFiles(existing, batch);
    NewFilesMembers(existing, batch);
    PageCountsSpec(added);
    forall f | f in existing + added ensures f.size <= MaxFileSize {
      if f !in existing {
        assert f in batch;
      }
    }
  }

  /** Appending recorded files to recorded files keeps every count in place. */
  lemma RecordedConcat(f1: seq<File>, c1: seq<nat>, f2: seq<File>, c2: seq<nat>)
    requires Recorded(f1, c1) && Recorded(f2, c2)
    ensures Recorded(f1 + f2, c1 + c2)
  {
    forall i | 0 <= i < |f1 + f2| ensures (f1 + f2)[i].pages == Some((c1 + c2)[i]) {
      if i >= |f1| {
        assert (f1 + f2)[i] == f2[i - |f1|] && (c1 + c2)[i] == c2[i - |f1|];
      }
    }
  }

  /** Removal keeps only entries of the list. */
  lemma RemoveAtSubset<T>(s: seq<T>, idx: int)
    ensures forall x :: x in RemoveAt(s, idx) ==> x in s
  {
    var r := RemoveAt(s, idx);
    forall x | x in r ensures x in s {
      var k :| 0 <= k < |r| && r[k] == x;
      assert x == s[if 0 <= idx <= k then k + 1 else k];
    }
  }

  /** Removal keeps the caps and the recorded counts of the files that stay. */
  lemma RemoveKeepsValid(fs: seq<File>, counts: seq<nat>, idx: int)
    requires Bounded(fs) && Recorded(fs, counts)
    ensures Bounded(RemoveAt(fs, idx)) && Recorded(RemoveAt(fs, idx), RemoveAt(counts, idx))
  {
    RemoveAtSubset(fs, idx);
    var r := RemoveAt(fs, idx);
    var rc := RemoveAt(counts, idx);
    forall i | 0 <= i < |r| ensures r[i].pages == Some(rc[i]) {
      var j := if 0 <= idx <= i then i + 1 else i;
      assert r[i] == fs[j] && rc[i] == counts[j];
    }
  }

  /** Reordering keeps the caps: the same files, in another order. */
  lemma SwapKeepsBounded(fs: seq<File>, i: nat, j: nat)
    requires i < |fs| && j < |fs| && Bounded(fs)
    ensures Bounded(Swap(fs, i, j))
  {
    var r := Swap(fs, i, j);
    forall f | f in r ensures f in fs {
      assert f in multiset(r);
    }
  }

  /** The duplicates of a batch are dropped, the rest kept in batch order: filtering distributes over batches. */
  lemma {:induction false} NewFilesConcat(existing: seq<File>, b1: seq<File>, b2: seq<File>)
    ensures NewFiles(existing, b1 + b2) == NewFiles(existing, b1) + NewFiles(existing, b2)
  {
    if b1 == [] {
      assert b1 + b2 == b2;
    } else {
      var head := if IsDuplicate(existing, b1[0]) then [] else [b1[0]];
      assert (b1 + b2)[0] == b1[0] && (b1 + b2)[1..] == b1[1..] + b2;
      NewFilesConcat(existing, b1[1..], b2);
      calc {
        NewFiles(existing, b1 + b2);
        head + NewFiles(existing, b1[1..] + b2);
        head + (NewFiles(existing, b1[1..]) + NewFiles(existing, b2));
        (head + NewFiles(existing, b1[1..])) + NewFiles(existing, b2);
      }
    }
  }

  /** A batch none of whose files is listed is kept whole, twins within the batch included. */
  lemma {:induction false} NewFilesAllNew(existing: seq<File>, batch: seq<File>)
    requires forall f :: f in batch ==> !IsDuplicate(existing, f)
    ensures NewFiles(existing, batch) == batch
  {
    if batch != [] {
      assert batch[0] in batch;
      NewFilesAllNew(existing, batch[1..]);
    }
  }

  /** The dedup keeps, in batch order, exactly the batch files with no listed twin. */
  lemma {:induction false} NewFilesMembers(existing: seq<File>, batch: seq<File>)
    ensures |NewFiles(existing, batch)| <= |batch|
    ensures forall f :: f in NewFiles(existing, batch) <==> f in batch && !IsDuplicate(existing, f)
  {
    if batch != [] {
      NewFilesMembers(existing, batch[1..]);
      assert batch == [batch[0]] + batch[1..];
    }
  }

  /** The page counts are read for every file, in order, and exist exactly when every file loads. */
  lemma {:induction false} PageCountsSpec(fs: seq<File>)
    ensures PageCounts(fs).Some? <==> forall k :: 0 <= k < |fs| ==> fs[k].pages.Some?
    ensures PageCounts(fs).Some? ==>
      |PageCounts(fs).value| == |fs| && forall k :: 0 <= k < |fs| ==> fs[k].pages == Some(PageCounts(fs).value[k])
  {
    if fs != [] {
      var rest := fs[1..];
      assert forall k :: 0 <= k < |rest| ==> rest[k] == fs[k + 1];
      PageCountsSpec(rest);
      if PageCounts(fs).Some? {
        var r := PageCounts(fs).value;
        assert r == [fs[0].pages.value] + PageCounts(rest).value;
        assert forall k :: 1 <= k < |fs| ==> r[k] == PageCounts(rest).value[k - 1];
      }
    }
  }

  /** The count cap looks at the whole batch: re-uploading listed files can still exceed it. */
  lemma CountBeforeDedup(existing: seq<File>, batch: seq<File>)
    requires forall f :: f in batch ==> f in existing
    requires |existing| + |batch| > MaxFiles
    ensures NewFiles(existing, batch) == []
    ensures Admit(existing, batch) == Rejected(TooManyFilesError)
  {
    var r := NewFiles(existing, batch);
    NewFilesMembers(existing, batch);
    if r != [] {
      assert r[0] in batch && r[0] in existing;
      assert IsDuplicate(existing, r[0]);
      assert false;
    }
  }

  /** The two cap messages, as the user reads them. */
  lemma CapMessages()
    ensures TooManyFilesError == "Maximum 10 files allowed."
    ensures FileTooLargeError == "Each file must be under 10 MB."
  {
    assert NatToString(10) == "10";
    assert MaxFileSize / 1024 / 1024 == 10;
  }

  /**
   * The admission paths in the order the handler tries them: the count cap,
   * then the size cap, then loading the files that are new.
   */
  lemma AdmitOutcome(existing: seq<File>, batch: seq<File>)
    ensures Admit(existing, batch).Rejected? <==>
      |existing| + |batch| > MaxFiles || exists f :: f in batch && f.size > MaxFileSize
    ensures |existing| + |batch| > MaxFiles ==> Admit(existing, batch) == Rejected(TooManyFilesError)
    ensures |existing| + |batch| <= MaxFiles && (exists f :: f in batch && f.size > MaxFileSize) ==>
      Admit(existing, batch) == Rejected(FileTooLargeError)
    ensures Admit(existing, batch).Undecodable? <==>
      (!Admit(existing, batch).Rejected? && exists f :: f in NewFiles(existing, batch) && f.pages.None?)
  {
    if |existing| + |batch| <= MaxFiles && !(exists f :: f in batch && f.size > MaxFileSize) {
      var added := NewFiles(existing, batch);
      PageCountsSpec(added);
      if PageCounts(added).None? {
        var k :| 0 <= k < |added| && added[k].pages.None?;
        assert added[k] in added;
      } else {
        forall f | f in added ensures f.pages.Some? {
          var k :| 0 <= k < |added| && added[k] == f;
        }
      }
    }
  }

  // ---------------------------------------------------------------------
  // Merge properties

  /** The pages of `refs` that come from the file at position `file`, in order. */
  function PagesOf(refs: seq<PageRef>, file: nat): seq<nat>
  {
    if refs == [] then []
    else (if refs[0].file == file then [refs[0].page] else []) + PagesOf(refs[1..], file)
  }

  lemma {:induction false} PagesOfConcat(a: seq<PageRef>, b: seq<PageRef>, file: nat)
    ensures PagesOf(a + b, file) == PagesOf(a, file) + PagesOf(b, file)
  {
    if a == [] {
      assert a + b == b;
    } else {
      var head := if a[0].file == file then [a[0].page] else [];
      assert (a + b)[0] == a[0] && (a + b)[1..] == a[1..] + b;
      PagesOfConcat(a[1..], b, file);
      calc {
        PagesOf(a + b, file);
        head + PagesOf(a[1..] + b, file);
        head + (PagesOf(a[1..], file) + PagesOf(b, file));
        (head + PagesOf(a[1..], file)) + PagesOf(b, file);
      }
    }
  }

  lemma {:induction false} PagesOfRefs(j: nat, selected: seq<nat>, file: nat)
    ensures PagesOf(Refs(j, selected), file) == if j == file then selected else []
  {
    if selected != [] {
      assert Refs(j, selected)[1..] == Refs(j, selected[1..]);
      PagesOfRefs(j, selected[1..], file);
    }
  }

  /** One more iteration of the loop. */
  lemma CollectStep(sels: seq<Option<seq<nat>>>, n: nat)
    requires n < |sels| && Collect(sels, n).Some?
    ensures Collect(sels, n + 1) ==
      if sels[n].None? || sels[n].value == [] then None else Some(Collect(sels, n).value + Refs(n, sels[n].value))
  {
  }

  lemma {:induction false} CollectFailureSticks(sels: seq<Option<seq<nat>>>, n: nat, m: nat)
    requires n <= m <= |sels|
    requires Collect(sels, n).None?
    ensures Collect(sels, m).None?
  {
    if m > n {
      CollectFailureSticks(sels, n, m - 1);
    }
  }

  /** The loop completes exactly when every visited file loads and selects at least one page. */
  lemma {:induction false} CollectSucceedsIff(sels: seq<Option<seq<nat>>>, n: nat)
    requires n <= |sels|
    ensures Collect(sels, n).Some? <==> forall i :: 0 <= i < n ==> sels[i].Some? && sels[i].value != []
  {
    if n > 0 {
      CollectSucceedsIff(sels, n - 1);
    }
  }

  /** The output of the first n iterations, split into what came before and the last file's pages. */
  lemma CollectLast(sels: seq<Option<seq<nat>>>, n: nat)
    requires 0 < n <= |sels| && Collect(sels, n).Some?
    ensures Collect(sels, n - 1).Some? && sels[n - 1].Some?
    ensures Collect(sels, n).value == Collect(sels, n - 1).value + Refs(n - 1, sels[n - 1].value)
  {
  }

  /** Appending the references of file m adds its selection to file m's pages and nothing elsewhere. */
  lemma AppendPages(acc: seq<PageRef>, m: nat, selected: seq<nat>)
    ensures forall i: nat :: PagesOf(acc + Refs(m, selected), i) == PagesOf(acc, i) + (if i == m then selected else [])
  {
    forall i: nat
      ensures PagesOf(acc + Refs(m, selected), i) == PagesOf(acc, i) + (if i == m then selected else [])
    {
      PagesOfConcat(acc, Refs(m, selected), i);
      PagesOfRefs(m, selected, i);
    }
  }

  /** When the loop completes, the output holds for each file i exactly the pages selected from it, in order. */
  lemma {:induction false} CollectPages(sels: seq<Option<seq<nat>>>, n: nat)
    requires n <= |sels|
    requires Collect(sels, n).Some?
    ensures forall i :: 0 <= i < n ==> sels[i].Some? && PagesOf(Collect(sels, n).value, i) == sels[i].value
    ensures forall i :: n <= i ==> PagesOf(Collect(sels, n).value, i) == []
  {
    if n > 0 {
      CollectLast(sels, n);
      CollectPages(sels, n - 1);
      var acc := Collect(sels, n - 1).value;
      var selected := sels[n - 1].value;
      AppendPages(acc, n - 1, selected);
      forall i | 0 <= i < n - 1
        ensures PagesOf(acc + Refs(n - 1, selected), i) == sels[i].value
      {
        assert PagesOf(acc, i) + [] == PagesOf(acc, i);
      }
    }
  }

  /** Every output page is a selected page of a visited file. */
  lemma {:induction false} CollectMembers(sels: seq<Option<seq<nat>>>, n: nat)
    requires n <= |sels|
    requires Collect(sels, n).Some?
    ensures var refs := Collect(sels, n).value;
      forall k :: 0 <= k < |refs| ==>
        refs[k].file < n && sels[refs[k].file].Some? && refs[k].page in sels[refs[k].file].value
  {
    if n > 0 {
      CollectLast(sels, n);
      CollectMembers(sels, n - 1);
      var acc := Collect(sels, n - 1).value;
      var tail := Refs(n - 1, sels[n - 1].value);
      var refs := acc + tail;
      forall k | 0 <= k < |refs|
        ensures refs[k].file < n && sels[refs[k].file].Some? && refs[k].page in sels[refs[k].file].value
      {
        if k < |acc| {
          assert refs[k] == acc[k];
        } else {
          assert refs[k] == tail[k - |acc|];
        }
      }
    }
  }

  /** The output lists the files' pages one file after another, in list order. */
  lemma {:induction false} CollectOrder(sels: seq<Option<seq<nat>>>, n: nat)
    requires n <= |sels|
    requires Collect(sels, n).Some?
    ensures var refs := Collect(sels, n).value;
      forall j, k :: 0 <= j < k < |refs| ==> refs[j].file <= refs[k].file
  {
    if n > 0 {
      CollectLast(sels, n);
      CollectOrder(sels, n - 1);
      CollectMembers(sels, n - 1);
      var acc := Collect(sels, n - 1).value;
      var tail := Refs(n - 1, sels[n - 1].value);
      var refs := acc + tail;
      forall j, k | 0 <= j < k < |refs| ensures refs[j].file <= refs[k].file {
        if k < |acc| {
          assert refs[j] == acc[j] && refs[k] == acc[k];
        } else if j < |acc| {
          assert refs[j] == acc[j] && refs[k] == tail[k - |acc|];
        } else {
          assert refs[j] == tail[j - |acc|] && refs[k] == tail[k - |acc|];
        }
      }
    }
  }

  /** The selection the loop reads for file i. */
  lemma SelectionAt(files: seq<File>, ranges: seq<string>, i: nat)
    requires |ranges| == |files| && i < |files|
    ensures var sel := Selections(files, ranges)[i];
      (sel.Some? && sel.value != [] <==> Mergeable(files[i], ranges[i]))
      && (sel.Some? ==> files[i].pages.Some? && sel.value == ParseRange(ranges[i], files[i].pages.value))
  {
  }

  /** A merge succeeds exactly when every file loads and its range selects at least one page. */
  lemma MergeSucceedsIff(files: seq<File>, ranges: seq<string>)
    requires |ranges| == |files|
    ensures Merge(files, ranges).Some? <==> forall i :: 0 <= i < |files| ==> Mergeable(files[i], ranges[i])
  {
    var sels := Selections(files, ranges);
    CollectSucceedsIff(sels, |files|);
    forall i | 0 <= i < |files| ensures Mergeable(files[i], ranges[i]) <==> sels[i].Some? && sels[i].value != [] {
      SelectionAt(files, ranges, i);
    }
  }

  /**
   * A successful merge holds, for each file, exactly the 0-based pages its
   * range resolves to, in list order, and each of them is a page of its file.
   */
  lemma MergeContents(files: seq<File>, ranges: seq<string>)
    requires |ranges| == |files| && Merge(files, ranges).Some?
    ensures var refs := Merge(files, ranges).value;
      (forall i :: 0 <= i < |files| ==>
        files[i].pages.Some? && PagesOf(refs, i) == ParseRange(ranges[i], files[i].pages.value))
      && (forall j, k :: 0 <= j < k < |refs| ==> refs[j].file <= refs[k].file)
      && (forall k :: 0 <= k < |refs| ==>
        refs[k].file < |files| && files[refs[k].file].pages.Some? && refs[k].page < files[refs[k].file].pages.value)
  {
    var sels := Selections(files, ranges);
    CollectPages(sels, |files|);
    CollectMembers(sels, |files|);
    CollectOrder(sels, |files|);
    var refs := Merge(files, ranges).value;
    forall i | 0 <= i < |files|
      ensures files[i].pages.Some? && PagesOf(refs, i) == ParseRange(ranges[i], files[i].pages.value)
    {
      SelectionAt(files, ranges, i);
    }
    forall k | 0 <= k < |refs|
      ensures refs[k].file < |files| && refs[k].page < files[refs[k].file].pages.value
    {
      var f := refs[k].file;
      SelectionAt(files, ranges, f);
      PageRangeProperties.ParseRangeBounds(ranges[f], files[f].pages.value);
    }
  }

  /**
   * A list whose ranges are all still the defaults "1-N" (N >= 1) merges
   * every page of every file, in list order.
   */
  lemma MergeDefaults(files: seq<File>, counts: seq<nat>)
    requires |counts| == |files|
    requires forall i :: 0 <= i < |files| ==> files[i].pages == Some(counts[i]) && 1 <= counts[i] <= MaxArrayLength
    ensures Merge(files, DefaultRanges(counts)).Some?
    ensures forall i :: 0 <= i < |files| ==> PagesOf(Merge(files, DefaultRanges(counts)).value, i) == Indices(0, counts[i])
  {
    var ranges := DefaultRanges(counts);
    var sels := Selections(files, ranges);
    forall i | 0 <= i < |files| ensures sels[i] == Some(Indices(0, counts[i])) {
      PageRangeProperties.FullRange(counts[i]);
    }
    CollectSucceedsIff(sels, |files|);
    CollectPages(sels, |files|);
  }

  /** The number of pages the first n selections name (a file that does not load names none). */
  function SelectedTotal(sels: seq<Option<seq<nat>>>, n: nat): nat
    requires n <= |sels|
  {
    if n == 0 then 0 else SelectedTotal(sels, n - 1) + (if sels[n - 1].Some? then |sels[n - 1].value| else 0)
  }

  /** The output has as many pages as the selections name together. */
  lemma {:induction false} CollectLength(sels: seq<Option<seq<nat>>>, n: nat)
    requires n <= |sels| && Collect(sels, n).Some?
    ensures |Collect(sels, n).value| == SelectedTotal(sels, n)
  {
    if n > 0 {
      CollectLast(sels, n);
      CollectLength(sels, n - 1);
    }
  }

  /** A merged document has as many pages as the files' ranges select together. */
  lemma MergeLength(files: seq<File>, ranges: seq<string>)
    requires |ranges| == |files| && Merge(files, ranges).Some?
    ensures |Merge(files, ranges).value| == SelectedTotal(Selections(files, ranges), |files|)
  {
    CollectLength(Selections(files, ranges), |files|);
  }

  /**
   * One file of n pages (n >= 1) with its default range: every page, in
   * order, downloaded under the file's own name.
   */
  lemma SingleFileMerge(f: File, n: nat)
    requires f.pages == Some(n) && 1 <= n <= MaxArrayLength
    ensures Merge([f], [DefaultRange(n)]) == Some(Refs(0, Indices(0, n)))
    ensures |Refs(0, Indices(0, n))| == n
    ensures OutputName([f]) == f.name
  {
    var sels := Selections([f], [DefaultRange(n)]);
    var all := Indices(0, n);
    PageRangeProperties.FullRange(n);
    assert sels[0] == Some(all) && |all| == n;
    CollectStep(sels, 0);
    assert [] + Refs(0, all) == Refs(0, all);
  }
}

/**
 * The upload gate of the PDF merger (`FileUploader`): a dropped or picked
 * batch is forwarded to the document list only when every file in it is a
 * PDF, and drops and the file picker are ignored while a merge runs or
 * once the list is full.
 */
module FileUploader {
  import opened Wrappers
  import opened PdfMerger

  const PdfType: string := "application/pdf"
  const NotPdfError: string := "Only PDF files are allowed."

  /** Every file of the batch has the PDF media type. */
  predicate AllPdf(batch: seq<File>)
  {
    forall k :: 0 <= k < |batch| ==> batch[k].mimeType == PdfType
  }

  /** `Array.from(files).filter(f => f.type === "application/pdf")`. */
  function PdfOnly(batch: seq<File>): seq<File>
  {
    if batch == [] then []
    else (if batch[0].mimeType == PdfType then [batch[0]] else []) + PdfOnly(batch[1..])
  }

  /** The filter keeps exactly the PDF files of the batch. */
  lemma {:induction false} PdfOnlyMembers(batch: seq<File>)
    ensures forall f :: f in PdfOnly(batch) <==> f in batch && f.mimeType == PdfType
  {
    if batch != [] {
      PdfOnlyMembers(batch[1..]);
      assert batch == [batch[0]] + batch[1..];
    }
  }

  /** The filter never yields more files than the batch has. */
  lemma {:induction false} PdfOnlyShorter(batch: seq<File>)
    ensures |PdfOnly(batch)| <= |batch|
  {
    if batch != [] {
      PdfOnlyShorter(batch[1..]);
    }
  }

  /** A batch of PDFs passes the filter unchanged, in its order. */
  lemma {:induction false} PdfOnlyAll(batch: seq<File>)
    requires AllPdf(batch)
    ensures PdfOnly(batch) == batch
  {
    if batch != [] {
      var rest := batch[1..];
      assert forall k :: 0 <= k < |rest| ==> rest[k] == batch[k + 1];
      PdfOnlyAll(rest);
      assert batch == [batch[0]] + rest;
    }
  }

  /** A batch holding another type loses at least one file in the filter. */
  lemma {:induction false} PdfOnlyDrops(batch: seq<File>)
    requires !AllPdf(batch)
    ensures |PdfOnly(batch)| < |batch|
  {
    var rest := batch[1..];
    if batch[0].mimeType != PdfType {
      PdfOnlyShorter(rest);
    } else {
      var k :| 0 <= k < |batch| && batch[k].mimeType != PdfType;
      assert rest[k - 1] == batch[k];
      PdfOnlyDrops(rest);
    }
  }

  /**
   * The length test of `handleFiles` detects exactly the batches holding a
   * file of another type, and a batch of PDFs passes the filter unchanged.
   */
  lemma PdfOnlyLength(batch: seq<File>)
    ensures |PdfOnly(batch)| == |batch| <==> AllPdf(batch)
    ensures AllPdf(batch) ==> PdfOnly(batch) == batch
  {
    if AllPdf(batch) {
      PdfOnlyAll(batch);
    } else {
      PdfOnlyDrops(batch);
    }
  }

  /** The `fileLimitReached` flag the merger passes: `files.length >= maxFiles`. */
  predicate LimitReached(files: seq<File>)
  {
    |files| >= MaxFiles
  }

  /**
   * The limit guard agrees with admission: once the list is full, every
   * non-empty batch would be refused by the count cap anyway.
   */
  lemma LimitGuardAgreesWithCap(files: seq<File>, batch: seq<File>)
    requires LimitReached(files) && batch != []
    ensures Admit(files, batch) == Rejected(TooManyFilesError)
  {
  }

  class Uploader {
    /** The message shown under the drop zone. */
    var error: string

    constructor ()
      ensures error == ""
    {
      error := "";
    }

    /**
     * `handleFiles`: a batch holding any file that is not a PDF is refused
     * with an error and nothing is forwarded; otherwise the error is cleared
     * and the batch is forwarded as it is (an empty batch too).
     */
    method HandleFiles(batch: seq<File>) returns (forwarded: Option<seq<File>>)
      modifies this
      ensures AllPdf(batch) ==> forwarded == Some(batch) && error == ""
      ensures !AllPdf(batch) ==> forwarded == None && error == NotPdfError
    {
      var pdfFiles := PdfOnly(batch);
      PdfOnlyLength(batch);
      if |pdfFiles| != |batch| {
        error := NotPdfError;
        return None;
      }
      error := "";
      forwarded := Some(pdfFiles);
    }

    /** `handleDrop`: ignored entirely while merging or at the file limit, else `handleFiles`. */
    method HandleDrop(batch: seq<File>, merging: bool, limitReached: bool) returns (forwarded: Option<seq<File>>)
      modifies this
      ensures merging || limitReached ==> forwarded == None && error == old(error)
      ensures !merging && !limitReached && AllPdf(batch) ==> forwarded == Some(batch) && error == ""
      ensures !merging && !limitReached && !AllPdf(batch) ==> forwarded == None && error == NotPdfError
    {
      if merging || limitReached {
        return None;
      }
      forwarded := HandleFiles(batch);
    }

    /** `handleButtonClick`: whether the file picker is opened. */
    method HandleButtonClick(merging: bool, limitReached: bool) returns (opens: bool)
      ensures opens <==> !merging && !limitReached
    {
      opens := !merging && !limitReached;
    }
  }

  /**
   * A drop on the merger's upload zone, wired as the merger renders it: the
   * merge flag and the limit flag come from the document list, and a
   * forwarded batch goes to the list's admission. A drop that is ignored
   * keeps the uploader's message, one refused for its types shows the type
   * error, and both leave the list as it was.
   */
  method DropOnto(u: Uploader, list: DocumentList, batch: seq<File>)
    requires list.Valid()
    modifies u, list`files, list`pageCounts, list`pageRanges, list`error
    ensures list.Valid()
    ensures list.merging || LimitReached(old(list.files)) ==> u.error == old(u.error)
    ensures !list.merging && !LimitReached(old(list.files)) && !AllPdf(batch) ==> u.error == NotPdfError
    ensures list.merging || LimitReached(old(list.files)) || !AllPdf(batch) ==>
      list.files == old(list.files) && list.pageCounts == old(list.pageCounts)
      && list.pageRanges == old(list.pageRanges) && list.error == old(list.error)
    ensures !list.merging && !LimitReached(old(list.files)) && AllPdf(batch) ==>
      u.error == "" &&
      match Admit(old(list.files), batch)
      case Rejected(message) =>
        list.error == message && list.files == old(list.files)
        && list.pageCounts == old(list.pageCounts) && list.pageRanges == old(list.pageRanges)
      case Undecodable =>
        list.error == "" && list.files == old(list.files)
        && list.pageCounts == old(list.pageCounts) && list.pageRanges == old(list.pageRanges)
      case Admitted(added, counts) =>
        list.error == "" && list.files == old(list.files) + added
        && list.pageCounts == old(list.pageCounts) + counts
        && list.pageRanges == old(list.pageRanges) + DefaultRanges(counts)
  {
    var forwarded := u.HandleDrop(batch, list.merging, LimitReached(list.files));
    if forwarded.Some? {
      list.HandleFileChange(forwarded.value);
    }
  }

  /**
   * A click on the merger's upload button, wired as the merger renders it:
   * the file picker opens exactly when no merge runs and the list holds
   * fewer than the maximum number of files.
   */
  method ClickOnto(u: Uploader, list: DocumentList) returns (opens: bool)
    ensures opens <==> !list.merging && |list.files| < MaxFiles
  {
    opens := u.HandleButtonClick(list.merging, LimitReached(list.files));
  }
}

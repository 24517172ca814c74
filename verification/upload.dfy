/** The upload page: the list of selected files and the choice of where to go once a document has
    been uploaded. */
module Upload {
  import opened Common

  datatype UploadedFile = UploadedFile(
    id: string,
    name: string,
    size: int,
    fileType: string,
    content: Option<string>)

  /** One entry of the browser's FileList, reduced to what the page reads from it. */
  datatype SelectedFile = SelectedFile(name: string, size: int, fileType: string)

  // ---------------------------------------------------------------------------------------------
  // The file list

  /** The records built for a selection; `ids` stands for the random ids drawn for each file. */
  function NewFiles(selection: seq<SelectedFile>, ids: seq<string>): (r: seq<UploadedFile>)
    requires |ids| == |selection|
    ensures |r| == |selection|
    ensures forall k :: 0 <= k < |r| ==>
      && r[k].id == ids[k]
      && r[k].name == selection[k].name
      && r[k].size == selection[k].size
      && r[k].fileType == selection[k].fileType
      && r[k].content.None?
  {
    seq(|selection|, k requires 0 <= k < |selection| =>
      UploadedFile(ids[k], selection[k].name, selection[k].size, selection[k].fileType, None))
  }

  /** `files.filter((file) => file.id !== fileId)`: exactly the files with another id. */
  function WithoutId(files: seq<UploadedFile>, id: string): (r: seq<UploadedFile>)
    ensures |r| <= |files|
    ensures forall f :: f in r <==> f in files && f.id != id
  {
    if files == [] then []
    else if files[0].id != id then [files[0]] + WithoutId(files[1..], id)
    else WithoutId(files[1..], id)
  }

  /** Removal works piecewise, so the kept files stay in their original order. */
  lemma {:induction false} WithoutIdAppend(a: seq<UploadedFile>, b: seq<UploadedFile>, id: string)
    ensures WithoutId(a + b, id) == WithoutId(a, id) + WithoutId(b, id)
  {
    if a != [] {
      assert (a + b)[1..] == a[1..] + b;
      WithoutIdAppend(a[1..], b, id);
    } else {
      assert a + b == b;
    }
  }

  /** Removing an id that no file carries leaves the list as it is. */
  lemma {:induction false} WithoutAbsentId(files: seq<UploadedFile>, id: string)
    requires forall k :: 0 <= k < |files| ==> files[k].id != id
    ensures WithoutId(files, id) == files
  {
    if files != [] {
      WithoutAbsentId(files[1..], id);
    }
  }

  /** Removing the same id twice is the same as removing it once. */
  lemma WithoutIdIdempotent(files: seq<UploadedFile>, id: string)
    ensures WithoutId(WithoutId(files, id), id) == WithoutId(files, id)
  {
    var r := WithoutId(files, id);
    assert forall k :: 0 <= k < |r| ==> r[k] in r;
    WithoutAbsentId(r, id);
  }

  // ---------------------------------------------------------------------------------------------
  // Routing

  datatype Route = FlashcardsPage | QuizPage | ResultsPage

  /** The address a page is opened at: an absolute path, never the upload page itself. */
  function Path(r: Route): (p: string)
    ensures |p| > 1 && p[0] == '/' && p != "/upload"
  {
    match r
    case FlashcardsPage => "/flashcards"
    case QuizPage => "/quiz"
    case ResultsPage => "/results"
  }

  /** The processing type whose button leads to a page. */
  function KindFor(r: Route): string {
    match r
    case FlashcardsPage => "Flashcards"
    case QuizPage => "Quiz"
    case ResultsPage => "Summary"
  }

  /** The if/else chain of `handleProcessing` once a document id is stored: three processing
      types lead to a page, any other leads nowhere. */
  function RouteFor(kind: string): (r: Option<Route>)
    ensures r.Some? ==> KindFor(r.value) == kind
    ensures r.None? ==> kind != "Flashcards" && kind != "Quiz" && kind != "Summary"
  {
    if kind == "Flashcards" then Some(FlashcardsPage)
    else if kind == "Quiz" then Some(QuizPage)
    else if kind == "Summary" then Some(ResultsPage)
    else None
  }

  /** Every page is reached from exactly one processing type. */
  lemma RouteForKindFor(r: Route)
    ensures RouteFor(KindFor(r)) == Some(r)
  {
  }

  lemma RoutesDistinctPaths(r1: Route, r2: Route)
    ensures Path(r1) == Path(r2) ==> r1 == r2
  {
    if r1 != r2 {
      assert Path(r1)[1] != Path(r2)[1];
    }
  }

  /** The "Explain Simply" button leads nowhere. */
  lemma ExplanationHasNoRoute()
    ensures RouteFor("Simple Explanation") == None
  {
  }

  /** The whole decision: without a stored document id nothing is opened. */
  function ProcessingRoute(kind: string, hasDocId: bool): (r: Option<Route>)
    ensures r.Some? <==> hasDocId && RouteFor(kind).Some?
    ensures r.Some? ==> KindFor(r.value) == kind
  {
    if !hasDocId then None else RouteFor(kind)
  }

  // ---------------------------------------------------------------------------------------------
  // The page controller

  class UploadPage {
    var files: seq<UploadedFile>
    var isUploading: bool
    var uploadProgress: int
    var processingType: Option<string>

    constructor ()
      ensures files == [] && !isUploading && uploadProgress == 0 && processingType.None?
      ensures ButtonsEnabled() && Valid()
    {
      files := [];
      isUploading := false;
      uploadProgress := 0;
      processingType := None;
    }

    /** A processing type stays recorded only when its button opened a page. */
    ghost predicate Valid()
      reads this
    {
      processingType.Some? ==> RouteFor(processingType.value).Some?
    }

    /** `disabled={processingType !== null}` on all four processing buttons: they are disabled
        exactly while the page that one of them opened is loading. */
    predicate ButtonsEnabled()
      reads this
      ensures Valid() ==> (ButtonsEnabled() <==> forall r :: processingType != Some(KindFor(r)))
    {
      processingType.None?
    }

    /** The synchronous part of `handleFileSelect`: a null selection changes nothing; otherwise
        the new records go after the existing files and the progress bar starts at 15. */
    method HandleFileSelect(selection: Option<seq<SelectedFile>>, ids: seq<string>)
      requires selection.Some? ==> |ids| == |selection.value|
      modifies this`files, this`isUploading, this`uploadProgress
      ensures selection.None? ==>
        files == old(files) && isUploading == old(isUploading) && uploadProgress == old(uploadProgress)
      ensures selection.Some? ==>
        files == old(files) + NewFiles(selection.value, ids) && isUploading && uploadProgress == 15
    {
      if selection.None? {
        return;
      }
      var added := NewFiles(selection.value, ids);
      files := files + added;
      isUploading := true;
      uploadProgress := 15;
    }

    method RemoveFile(fileId: string)
      modifies this`files
      ensures files == WithoutId(old(files), fileId)
    {
      files := WithoutId(files, fileId);
    }

    /** `handleProcessing`: the type is recorded, then cleared again unless a page is opened. */
    method HandleProcessing(kind: string, hasDocId: bool) returns (navigateTo: Option<Route>)
      modifies this`processingType
      ensures navigateTo == ProcessingRoute(kind, hasDocId)
      ensures processingType == if navigateTo.Some? then Some(kind) else None
      ensures ButtonsEnabled() <==> navigateTo.None?
      ensures Valid()
    {
      processingType := Some(kind);
      if !hasDocId {
        processingType := None;
        return None;
      }
      if kind == "Flashcards" {
        navigateTo := Some(FlashcardsPage);
      } else if kind == "Quiz" {
        navigateTo := Some(QuizPage);
      } else if kind == "Summary" {
        navigateTo := Some(ResultsPage);
      } else {
        processingType := None;
        navigateTo := None;
      }
    }
  }
}

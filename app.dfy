/**
 * The upload and batch-analysis page: intake validation of selected files,
 * the append-only lists of files and previews, the batch of per-file results
 * and the reducer each completed request applies, file removal, the reset
 * button, and the inline box renderer.
 */
module App {
  import opened Wrappers
  import opened Text
  import opened Detection
  import ImageOverlay

  /** 50 MiB: larger files are refused. */
  const MaxFileSize: nat := 50 * 1024 * 1024

  const SupportedFormats: seq<string> := [".dcm", ".rvg"]

  /** Extensions that would get an image preview; none of them passes intake. */
  const PreviewFormats: seq<string> := [".png", ".jpg", ".jpeg"]

  /** A file picked in the browser: only its name and byte size matter here. */
  datatype RawFile = RawFile(name: string, size: nat)

  /** A selected file with the id it was given on intake. */
  datatype UploadItem = UploadItem(file: RawFile, id: nat)

  datatype FilePreview = FilePreview(id: nat, fileName: string, url: Option<string>)

  /** The per-file entry of a batch; the payload fields stay `None` until the request completes. */
  datatype ProcessingResult = ProcessingResult(
    fileName: string, id: nat,
    imageUrl: Option<string>, predictions: Option<seq<Prediction>>, imageDimensions: Option<Dims>,
    report: Option<string>, error: Option<string>, isLoading: bool)

  /**
   * How one analysis request ended: a 2xx response with its body, a non-2xx
   * response whose body may carry a `detail`, or an exception (network
   * failure, unreadable body) with its message.
   */
  datatype Reply =
    | Ok(pngUrl: string, predictions: seq<Prediction>, dims: Option<Dims>, report: string)
    | NotOk(detail: Option<string>)
    | Thrown(message: string)

  // ---------------------------------------------------------------------
  // Intake of one selection

  /** Lower-cased suffix from the last '.' inclusive; with no '.', `slice(-1)` keeps the last character. */
  function Extension(name: string): (e: string)
    ensures LastIndexOf(name, '.') >= 0 ==> e == Lower(name[LastIndexOf(name, '.')..])
    ensures LastIndexOf(name, '.') < 0 ==> |e| <= 1
  {
    var dot := LastIndexOf(name, '.');
    if dot >= 0 then LowerSuffix(name, dot); SliceFrom(Lower(name), dot)
    else SliceFrom(Lower(name), dot)
  }

  predicate IsDuplicate(existing: seq<UploadItem>, f: RawFile)
  {
    exists e :: e in existing && e.file.name == f.name && e.file.size == f.size
  }

  datatype Verdict = Accept | Duplicate | TooLarge | Unsupported

  /** The first failing check wins: duplicate, then size, then extension. */
  function Check(existing: seq<UploadItem>, f: RawFile): (v: Verdict)
    ensures v == Duplicate <==> IsDuplicate(existing, f)
    ensures v == TooLarge <==> !IsDuplicate(existing, f) && f.size > MaxFileSize
    ensures v == Unsupported <==> !IsDuplicate(existing, f) && f.size <= MaxFileSize && Extension(f.name) !in SupportedFormats
  {
    if IsDuplicate(existing, f) then Duplicate
    else if f.size > MaxFileSize then TooLarge
    else if Extension(f.name) !in SupportedFormats then Unsupported
    else Accept
  }

  function DuplicateNotice(f: RawFile): string
  {
    f.name + " is already uploaded"
  }

  function TooLargeMessage(f: RawFile): string
  {
    f.name + ": File size exceeds 50MB limit."
  }

  function UnsupportedMessage(f: RawFile): string
  {
    f.name + ": Unsupported file format. Please upload " + Join(SupportedFormats, ", ")
  }

  /** What one pass over a selection collects: accepted items, rejections, the last duplicate notice, the next free id. */
  datatype Intake = Intake(added: seq<UploadItem>, errors: seq<string>, notice: Option<string>, nextId: nat)

  /** What one file adds to the pass, given its verdict. */
  function IntakeStep(acc: Intake, f: RawFile, v: Verdict): Intake
  {
    match v
    case Duplicate => acc.(notice := Some(DuplicateNotice(f)))
    case TooLarge => acc.(errors := acc.errors + [TooLargeMessage(f)])
    case Unsupported => acc.(errors := acc.errors + [UnsupportedMessage(f)])
    case Accept => acc.(added := acc.added + [UploadItem(f, acc.nextId)], nextId := acc.nextId + 1)
  }

  /** The pass over `files` in order, the k-th file having verdict `verdicts[k]`. */
  function Collect(files: seq<RawFile>, verdicts: seq<Verdict>, firstId: nat): Intake
    requires |verdicts| == |files|
  {
    if |files| == 0 then Intake([], [], None, firstId)
    else IntakeStep(Collect(files[..|files| - 1], verdicts[..|files| - 1], firstId), files[|files| - 1], verdicts[|files| - 1])
  }

  /** Each file's verdict, against the files selected before the event (not the earlier files of the same selection). */
  function Verdicts(existing: seq<UploadItem>, files: seq<RawFile>): (vs: seq<Verdict>)
    ensures |vs| == |files| && forall k :: 0 <= k < |files| ==> vs[k] == Check(existing, files[k])
  {
    seq(|files|, k requires 0 <= k < |files| => Check(existing, files[k]))
  }

  /** The files of one selection taken in order, each checked against the files selected before it. */
  function IntakeOf(existing: seq<UploadItem>, files: seq<RawFile>, firstId: nat): Intake
  {
    Collect(files, Verdicts(existing, files), firstId)
  }

  /** The error shown after a selection: all rejections joined by a space, else the last duplicate notice. */
  function ErrorAfterIntake(previous: Option<string>, r: Intake): Option<string>
  {
    if |r.errors| > 0 then Some(Join(r.errors, " "))
    else if r.notice.Some? then r.notice
    else previous
  }

  function PreviewOf(item: UploadItem): FilePreview
  {
    FilePreview(item.id, item.file.name, None)
  }

  function PreviewsOf(items: seq<UploadItem>): (ps: seq<FilePreview>)
    ensures |ps| == |items| && forall k :: 0 <= k < |ps| ==> ps[k] == PreviewOf(items[k])
  {
    seq(|items|, k requires 0 <= k < |items| => PreviewOf(items[k]))
  }

  /**
   * A file is accepted exactly when no earlier file has its name and size,
   * it is at most 50 MiB, and its name has a '.' followed by "dcm" or "rvg"
   * in any letter case. A name without '.' is always refused.
   */
  lemma AcceptedIff(existing: seq<UploadItem>, f: RawFile)
    ensures Check(existing, f) == Accept <==>
      && !(exists e :: e in existing && e.file.name == f.name && e.file.size == f.size)
      && f.size <= 52428800
      && LastIndexOf(f.name, '.') >= 0
      && (Lower(f.name[LastIndexOf(f.name, '.')..]) == ".dcm" || Lower(f.name[LastIndexOf(f.name, '.')..]) == ".rvg")
  {
    var e := Extension(f.name);
    if LastIndexOf(f.name, '.') < 0 {
      assert |e| <= 1;
      assert e != ".dcm" && e != ".rvg";
    }
  }

  /** The size limit is inclusive: 52428800 bytes pass, one byte more does not. */
  lemma SizeLimitIsInclusive(existing: seq<UploadItem>, name: string)
    requires !IsDuplicate(existing, RawFile(name, 52428800)) && !IsDuplicate(existing, RawFile(name, 52428801))
    ensures Check(existing, RawFile(name, 52428800)) != TooLarge
    ensures Check(existing, RawFile(name, 52428801)) == TooLarge
  {
  }

  /** Letter case of the extension does not matter: "A.DCM" is accepted. */
  lemma UpperCaseExtensionAccepted(existing: seq<UploadItem>)
    requires !IsDuplicate(existing, RawFile("A.DCM", 10))
    ensures Check(existing, RawFile("A.DCM", 10)) == Accept
  {
    var s := "A.DCM";
    assert s[1] == '.' && s[2] == 'D' && s[3] == 'C' && s[4] == 'M';
    assert LastIndexOf(s, '.') == 1;
    assert Lower(s[1..]) == ".dcm";
  }

  // The pass over a selection depends on the files only through their
  // verdicts: the lemmas below about `Collect` hold for any verdicts, and
  // the lemmas about `IntakeOf` read them back through `Check`.

  /** `m` is the message a file `f` with verdict `v` produces. */
  ghost predicate RejectedWith(f: RawFile, v: Verdict, m: string)
  {
    (v == TooLarge && m == TooLargeMessage(f)) || (v == Unsupported && m == UnsupportedMessage(f))
  }

  /** Position k holds the last `Duplicate` verdict. */
  ghost predicate LastDuplicate(verdicts: seq<Verdict>, k: int)
  {
    0 <= k < |verdicts| && verdicts[k] == Duplicate && forall j :: k < j < |verdicts| ==> verdicts[j] != Duplicate
  }

  lemma {:induction false} CollectIds(files: seq<RawFile>, verdicts: seq<Verdict>, firstId: nat)
    requires |verdicts| == |files|
    ensures var r := Collect(files, verdicts, firstId);
      r.nextId == firstId + |r.added| && forall k :: 0 <= k < |r.added| ==> r.added[k].id == firstId + k
  {
    if |files| > 0 {
      CollectIds(files[..|files| - 1], verdicts[..|files| - 1], firstId);
    }
  }

  lemma {:induction false} CollectAddsOnlyAccepted(files: seq<RawFile>, verdicts: seq<Verdict>, firstId: nat, k: nat)
    requires |verdicts| == |files| && k < |Collect(files, verdicts, firstId).added|
    ensures exists j :: 0 <= j < |files| && verdicts[j] == Accept && files[j] == Collect(files, verdicts, firstId).added[k].file
  {
    var n := |files|;
    var prev := Collect(files[..n - 1], verdicts[..n - 1], firstId);
    var r := Collect(files, verdicts, firstId);
    if k < |prev.added| {
      CollectAddsOnlyAccepted(files[..n - 1], verdicts[..n - 1], firstId, k);
      var j :| 0 <= j < n - 1 && verdicts[..n - 1][j] == Accept && files[..n - 1][j] == prev.added[k].file;
      assert r.added[k] == prev.added[k];
      assert verdicts[j] == Accept && files[j] == r.added[k].file;
    } else {
      assert verdicts[n - 1] == Accept && files[n - 1] == r.added[k].file;
    }
  }

  lemma {:induction false} CollectAddsEveryAccepted(files: seq<RawFile>, verdicts: seq<Verdict>, firstId: nat, j: nat)
    requires |verdicts| == |files| && j < |files| && verdicts[j] == Accept
    ensures exists k :: 0 <= k < |Collect(files, verdicts, firstId).added| && Collect(files, verdicts, firstId).added[k].file == files[j]
  {
    var n := |files|;
    var prev := Collect(files[..n - 1], verdicts[..n - 1], firstId);
    var r := Collect(files, verdicts, firstId);
    if j == n - 1 {
      assert r.added[|r.added| - 1].file == files[j];
    } else {
      assert files[..n - 1][j] == files[j] && verdicts[..n - 1][j] == Accept;
      CollectAddsEveryAccepted(files[..n - 1], verdicts[..n - 1], firstId, j);
      var k :| 0 <= k < |prev.added| && prev.added[k].file == files[j];
      assert r.added[k] == prev.added[k];
    }
  }

  lemma {:induction false} CollectErrorsSound(files: seq<RawFile>, verdicts: seq<Verdict>, firstId: nat)
    requires |verdicts| == |files|
    ensures forall m :: m in Collect(files, verdicts, firstId).errors ==>
      exists j :: 0 <= j < |files| && RejectedWith(files[j], verdicts[j], m)
  {
    var n := |files|;
    if n > 0 {
      var prev := Collect(files[..n - 1], verdicts[..n - 1], firstId);
      CollectErrorsSound(files[..n - 1], verdicts[..n - 1], firstId);
      forall m | m in Collect(files, verdicts, firstId).errors
        ensures exists j :: 0 <= j < n && RejectedWith(files[j], verdicts[j], m)
      {
        if m in prev.errors {
          var j :| 0 <= j < n - 1 && RejectedWith(files[..n - 1][j], verdicts[..n - 1][j], m);
          assert files[..n - 1][j] == files[j] && verdicts[..n - 1][j] == verdicts[j];
        } else {
          assert RejectedWith(files[n - 1], verdicts[n - 1], m);
        }
      }
    }
  }

  lemma {:induction false} CollectErrorsComplete(files: seq<RawFile>, verdicts: seq<Verdict>, firstId: nat, j: nat)
    requires |verdicts| == |files| && j < |files|
    ensures verdicts[j] == TooLarge ==> TooLargeMessage(files[j]) in Collect(files, verdicts, firstId).errors
    ensures verdicts[j] == Unsupported ==> UnsupportedMessage(files[j]) in Collect(files, verdicts, firstId).errors
  {
    var n := |files|;
    var prev := Collect(files[..n - 1], verdicts[..n - 1], firstId);
    var r := Collect(files, verdicts, firstId);
    if j < n - 1 {
      assert files[..n - 1][j] == files[j] && verdicts[..n - 1][j] == verdicts[j];
      CollectErrorsComplete(files[..n - 1], verdicts[..n - 1], firstId, j);
      assert forall m :: m in prev.errors ==> m in r.errors;
    }
  }

  lemma {:induction false} CollectNotice(files: seq<RawFile>, verdicts: seq<Verdict>, firstId: nat)
    requires |verdicts| == |files|
    ensures Collect(files, verdicts, firstId).notice.Some? <==> exists j :: 0 <= j < |files| && verdicts[j] == Duplicate
    ensures Collect(files, verdicts, firstId).notice.Some? ==>
      exists k :: LastDuplicate(verdicts, k) && Collect(files, verdicts, firstId).notice.value == DuplicateNotice(files[k])
  {
    var n := |files|;
    if n > 0 {
      var init := verdicts[..n - 1];
      var prev := Collect(files[..n - 1], init, firstId);
      CollectNotice(files[..n - 1], init, firstId);
      if verdicts[n - 1] == Duplicate {
        assert LastDuplicate(verdicts, n - 1);
      } else {
        if prev.notice.Some? {
          var k :| LastDuplicate(init, k) && prev.notice.value == DuplicateNotice(files[..n - 1][k]);
          assert files[..n - 1][k] == files[k];
          assert LastDuplicate(verdicts, k);
        }
        if exists j :: 0 <= j < n && verdicts[j] == Duplicate {
          var j :| 0 <= j < n && verdicts[j] == Duplicate;
          assert init[j] == Duplicate;
        }
      }
    }
  }

  /** Accepted files get consecutive ids starting at the first free one. */
  lemma IntakeIds(existing: seq<UploadItem>, files: seq<RawFile>, firstId: nat)
    ensures var r := IntakeOf(existing, files, firstId);
      r.nextId == firstId + |r.added| && forall k :: 0 <= k < |r.added| ==> r.added[k].id == firstId + k
  {
    CollectIds(files, Verdicts(existing, files), firstId);
  }

  /** Only files of the selection that pass every check are added: a duplicate, oversized or unsupported file never is. */
  lemma IntakeAddsOnlyAccepted(existing: seq<UploadItem>, files: seq<RawFile>, firstId: nat, k: nat)
    requires k < |IntakeOf(existing, files, firstId).added|
    ensures IntakeOf(existing, files, firstId).added[k].file in files
    ensures Check(existing, IntakeOf(existing, files, firstId).added[k].file) == Accept
  {
    var verdicts := Verdicts(existing, files);
    CollectAddsOnlyAccepted(files, verdicts, firstId, k);
    var j :| 0 <= j < |files| && verdicts[j] == Accept && files[j] == IntakeOf(existing, files, firstId).added[k].file;
  }

  /** Every file of the selection that passes every check is added. */
  lemma IntakeAddsEveryAccepted(existing: seq<UploadItem>, files: seq<RawFile>, firstId: nat, f: RawFile)
    requires f in files && Check(existing, f) == Accept
    ensures exists k :: 0 <= k < |IntakeOf(existing, files, firstId).added| && IntakeOf(existing, files, firstId).added[k].file == f
  {
    var j :| 0 <= j < |files| && files[j] == f;
    var verdicts := Verdicts(existing, files);
    CollectAddsEveryAccepted(files, verdicts, firstId, j);
    var r := Collect(files, verdicts, firstId);
    var k :| 0 <= k < |r.added| && r.added[k].file == f;
    assert IntakeOf(existing, files, firstId).added[k].file == f;
  }

  /** Every message after a selection belongs to a refused file of that selection. */
  lemma IntakeErrorsSound(existing: seq<UploadItem>, files: seq<RawFile>, firstId: nat)
    ensures forall m :: m in IntakeOf(existing, files, firstId).errors ==>
      exists f :: f in files && RejectedWith(f, Check(existing, f), m)
  {
    var verdicts := Verdicts(existing, files);
    CollectErrorsSound(files, verdicts, firstId);
    forall m | m in IntakeOf(existing, files, firstId).errors
      ensures exists f :: f in files && RejectedWith(f, Check(existing, f), m)
    {
      var j :| 0 <= j < |files| && RejectedWith(files[j], verdicts[j], m);
      assert files[j] in files;
    }
  }

  /** Every refused file of a selection contributes its own message. */
  lemma IntakeErrorsComplete(existing: seq<UploadItem>, files: seq<RawFile>, firstId: nat, f: RawFile)
    requires f in files
    ensures Check(existing, f) == TooLarge ==> TooLargeMessage(f) in IntakeOf(existing, files, firstId).errors
    ensures Check(existing, f) == Unsupported ==> UnsupportedMessage(f) in IntakeOf(existing, files, firstId).errors
  {
    var j :| 0 <= j < |files| && files[j] == f;
    CollectErrorsComplete(files, Verdicts(existing, files), firstId, j);
  }

  /** The last file of the selection that duplicates an earlier selection is at index k. */
  ghost predicate LastDuplicateAt(existing: seq<UploadItem>, files: seq<RawFile>, k: int)
  {
    0 <= k < |files| && Check(existing, files[k]) == Duplicate &&
    forall j :: k < j < |files| ==> Check(existing, files[j]) != Duplicate
  }

  /** A notice is left exactly when some file duplicates an earlier selection, and it names the last such file. */
  lemma IntakeNotice(existing: seq<UploadItem>, files: seq<RawFile>, firstId: nat)
    ensures IntakeOf(existing, files, firstId).notice.Some? <==> exists f :: f in files && Check(existing, f) == Duplicate
    ensures IntakeOf(existing, files, firstId).notice.Some? ==>
      exists k :: LastDuplicateAt(existing, files, k) && IntakeOf(existing, files, firstId).notice.value == DuplicateNotice(files[k])
  {
    var verdicts := Verdicts(existing, files);
    CollectNotice(files, verdicts, firstId);
    if exists f :: f in files && Check(existing, f) == Duplicate {
      var f :| f in files && Check(existing, f) == Duplicate;
      var j :| 0 <= j < |files| && files[j] == f;
      assert verdicts[j] == Duplicate;
    }
    if IntakeOf(existing, files, firstId).notice.Some? {
      var j :| 0 <= j < |files| && verdicts[j] == Duplicate;
      assert files[j] in files;
      var k :| LastDuplicate(verdicts, k) && IntakeOf(existing, files, firstId).notice.value == DuplicateNotice(files[k]);
      assert LastDuplicateAt(existing, files, k);
    }
  }

  /**
   * Files are only compared with those selected before the event, so the
   * same file picked twice in one selection is accepted twice.
   */
  lemma RepeatWithinOneSelectionAccepted(existing: seq<UploadItem>, f: RawFile, firstId: nat)
    requires Check(existing, f) == Accept
    ensures IntakeOf(existing, [f, f], firstId).added == [UploadItem(f, firstId), UploadItem(f, firstId + 1)]
  {
    var verdicts := Verdicts(existing, [f, f]);
    assert verdicts == [Accept, Accept];
    assert [f, f][..1] == [f] && verdicts[..1] == [Accept];
    assert [f][..0] == [] && [Accept][..0] == [];
    assert Collect([f], [Accept], firstId) == Intake([UploadItem(f, firstId)], [], None, firstId + 1);
  }

  /**
   * The loop over one selection: each file is checked against the files
   * selected before the event; accepted files get the next id and a preview
   * without image data (only image formats would get one, and none of them
   * passes the extension check).
   */
  method ScanSelection(existing: seq<UploadItem>, files: seq<RawFile>, firstId: nat)
    returns (filesToAdd: seq<UploadItem>, errors: seq<string>, notice: Option<string>, id: nat, newPreviews: seq<FilePreview>)
    ensures Intake(filesToAdd, errors, notice, id) == IntakeOf(existing, files, firstId)
    ensures newPreviews == PreviewsOf(filesToAdd)
  {
    filesToAdd, errors, notice, id, newPreviews := [], [], None, firstId, [];
    var i := 0;
    while i < |files|
      invariant 0 <= i <= |files|
      invariant Intake(filesToAdd, errors, notice, id) == IntakeOf(existing, files[..i], firstId)
      invariant newPreviews == PreviewsOf(filesToAdd)
    {
      var file := files[i];
      IntakeOfPrefix(existing, files, i, firstId);
      if IsDuplicate(existing, file) {
        notice := Some(DuplicateNotice(file));
      } else if file.size > MaxFileSize {
        errors := errors + [TooLargeMessage(file)];
      } else {
        var ext := Extension(file.name);
        if ext !in SupportedFormats {
          errors := errors + [UnsupportedMessage(file)];
        } else {
          filesToAdd := filesToAdd + [UploadItem(file, id)];
          if ext in PreviewFormats {
            assert false;
          }
          newPreviews := newPreviews + [FilePreview(id, file.name, None)];
          id := id + 1;
        }
      }
      i := i + 1;
    }
    assert files[..|files|] == files;
  }

  // ---------------------------------------------------------------------
  // Removal and the batch of results

  /** `filter(x => key(x) !== id)`. */
  function Without<T(==,!new)>(xs: seq<T>, key: T -> nat, id: nat): (r: seq<T>)
    ensures |r| <= |xs|
  {
    if |xs| == 0 then []
    else Without(xs[..|xs| - 1], key, id) + (if key(xs[|xs| - 1]) != id then [xs[|xs| - 1]] else [])
  }

  /** Filtering keeps exactly the elements whose key differs from `id`. */
  lemma {:induction false} WithoutMembers<T(!new)>(xs: seq<T>, key: T -> nat, id: nat)
    ensures forall x :: x in Without(xs, key, id) <==> x in xs && key(x) != id
  {
    if |xs| > 0 {
      WithoutMembers(xs[..|xs| - 1], key, id);
      assert xs == xs[..|xs| - 1] + [xs[|xs| - 1]];
    }
  }

  function ItemId(item: UploadItem): nat { item.id }
  function PreviewId(p: FilePreview): nat { p.id }
  function ResultId(r: ProcessingResult): nat { r.id }

  /** Removing an id keeps the previews in step with the files. */
  lemma {:induction false} WithoutKeepsPreviewsInStep(items: seq<UploadItem>, id: nat)
    ensures Without(PreviewsOf(items), PreviewId, id) == PreviewsOf(Without(items, ItemId, id))
  {
    if |items| > 0 {
      var init := items[..|items| - 1];
      assert PreviewsOf(items)[..|items| - 1] == PreviewsOf(init);
      WithoutKeepsPreviewsInStep(init, id);
      var rest := Without(init, ItemId, id);
      var last := items[|items| - 1];
      if last.id != id {
        assert PreviewsOf(rest + [last]) == PreviewsOf(rest) + [PreviewOf(last)];
      }
    }
  }

  /** Removing an id that is not present changes nothing. */
  lemma {:induction false} WithoutAbsent<T(!new)>(xs: seq<T>, key: T -> nat, id: nat)
    requires forall k :: 0 <= k < |xs| ==> key(xs[k]) != id
    ensures Without(xs, key, id) == xs
  {
    if |xs| > 0 {
      WithoutAbsent(xs[..|xs| - 1], key, id);
      assert xs[..|xs| - 1] + [xs[|xs| - 1]] == xs;
    }
  }

  /** The entry a batch starts with for one file: loading, with no payload. */
  function Pending(item: UploadItem): ProcessingResult
  {
    ProcessingResult(item.file.name, item.id, None, None, None, None, None, true)
  }

  function InitialResults(items: seq<UploadItem>): (rs: seq<ProcessingResult>)
    ensures |rs| == |items| && forall k :: 0 <= k < |rs| ==> rs[k] == Pending(items[k])
  {
    seq(|items|, k requires 0 <= k < |items| => Pending(items[k]))
  }

  const ServerOrigin := "http://localhost:8000"

  /** The entry of one file once its request has ended. */
  function Finished(entry: ProcessingResult, reply: Reply): (r: ProcessingResult)
    ensures r.id == entry.id && r.fileName == entry.fileName && !r.isLoading
    ensures reply.Ok? ==> r.error == entry.error && r.predictions == Some(reply.predictions) &&
                          r.report == Some(reply.report) && r.imageDimensions == reply.dims
    ensures !reply.Ok? ==> r.error.Some? && |r.error.value| > 0 &&
                           r.imageUrl == entry.imageUrl && r.predictions == entry.predictions && r.report == entry.report
  {
    match reply
    case Ok(pngUrl, predictions, dims, report) =>
      entry.(imageUrl := Some(ServerOrigin + pngUrl), predictions := Some(predictions),
             imageDimensions := dims, report := Some(report), isLoading := false)
    case NotOk(detail) =>
      entry.(error := Some(if detail.Some? && detail.value != "" then detail.value else "Failed to analyze file"),
             isLoading := false)
    case Thrown(message) =>
      entry.(error := Some(if message != "" then message else "Error processing file."), isLoading := false)
  }

  /**
   * A finished pending entry keeps its file's name and id, is no longer
   * loading, carries an error exactly when the request failed, and that
   * error is never empty; on success the image URL is the server origin
   * followed by the returned path.
   */
  lemma FinishedOutcome(item: UploadItem, reply: Reply)
    ensures var r := Finished(Pending(item), reply);
      && r.id == item.id && r.fileName == item.file.name && !r.isLoading
      && (r.error.None? <==> reply.Ok?)
      && (r.error.Some? ==> |r.error.value| > 0)
      && (r.imageUrl.Some? <==> reply.Ok?)
      && (reply.Ok? ==> r.imageUrl.value[..|ServerOrigin|] == ServerOrigin && r.imageUrl.value[|ServerOrigin|..] == reply.pngUrl)
      && (reply.NotOk? && reply.detail.Some? && reply.detail.value != "" ==> r.error == reply.detail)
      && (reply.NotOk? && (reply.detail.None? || reply.detail.value == "") ==> r.error == Some("Failed to analyze file"))
      && (reply.Ok? ==> r.predictions == Some(reply.predictions) && r.report == Some(reply.report) &&
                        r.imageDimensions == reply.dims)
      && (reply.Thrown? && reply.message != "" ==> r.error == Some(reply.message))
      && (reply.Thrown? && reply.message == "" ==> r.error == Some("Error processing file."))
  {
  }

  /** The state updater a completion applies: replace the entry with the same id, keep all others. */
  function ReplaceById(rs: seq<ProcessingResult>, r: ProcessingResult): (out: seq<ProcessingResult>)
    ensures |out| == |rs|
  {
    seq(|rs|, k requires 0 <= k < |rs| => if rs[k].id == r.id then r else rs[k])
  }

  /** A completion for an id that is no longer listed leaves the list unchanged. */
  lemma ReplaceByIdAbsent(rs: seq<ProcessingResult>, r: ProcessingResult)
    requires forall k :: 0 <= k < |rs| ==> rs[k].id != r.id
    ensures ReplaceById(rs, r) == rs
  {
  }

  /** With distinct ids, a completion changes only its own entry. */
  lemma ReplaceByIdOnlyOwnEntry(rs: seq<ProcessingResult>, j: nat, r: ProcessingResult)
    requires j < |rs| && rs[j].id == r.id
    requires forall a, b :: 0 <= a < b < |rs| ==> rs[a].id != rs[b].id
    ensures ReplaceById(rs, r) == rs[j := r]
  {
  }

  /** Completions for different ids commute, so the arrival order of replies does not matter. */
  lemma ReplaceByIdCommutes(rs: seq<ProcessingResult>, r1: ProcessingResult, r2: ProcessingResult)
    requires r1.id != r2.id
    ensures ReplaceById(ReplaceById(rs, r1), r2) == ReplaceById(ReplaceById(rs, r2), r1)
  {
    var a, b := ReplaceById(ReplaceById(rs, r1), r2), ReplaceById(ReplaceById(rs, r2), r1);
    forall k | 0 <= k < |rs| ensures a[k] == b[k] {
    }
  }

  /** The batch after every request has ended: each file's finished entry, in selection order. */
  function Completed(items: seq<UploadItem>, replies: seq<Reply>): (rs: seq<ProcessingResult>)
    requires |replies| == |items|
    ensures |rs| == |items|
  {
    seq(|items|, k requires 0 <= k < |items| => Finished(Pending(items[k]), replies[k]))
  }

  /** After a batch, no entry is loading and entry k belongs to the k-th file. */
  lemma CompletedMatchesFiles(items: seq<UploadItem>, replies: seq<Reply>)
    requires |replies| == |items|
    ensures forall k :: 0 <= k < |items| ==>
      var r := Completed(items, replies)[k];
      r.id == items[k].id && r.fileName == items[k].file.name && !r.isLoading && (r.error.None? <==> replies[k].Ok?)
  {
    forall k | 0 <= k < |items| {
      FinishedOutcome(items[k], replies[k]);
    }
  }

  ghost predicate DistinctIds(items: seq<UploadItem>)
  {
    forall a, b :: 0 <= a < b < |items| ==> items[a].id != items[b].id
  }

  /** Every index 0..n-1 occurs in `order`, and nothing else does. */
  ghost predicate CoversIndices(order: seq<nat>, n: nat)
  {
    (forall t :: 0 <= t < |order| ==> order[t] < n) && (forall k :: 0 <= k < n ==> k in order)
  }

  // ---------------------------------------------------------------------
  // The inline renderer

  /** One inline box: its rectangle and its label. */
  datatype InlineBox = InlineBox(rect: Rect, caption: string)

  /**
   * Nothing without predictions, an image element and non-zero dimensions;
   * otherwise one box per prediction, scaled by element size over native size.
   */
  function RenderBoundingBoxes(predictions: Option<seq<Prediction>>, element: Option<ImageOverlay.ImageSize>, dims: Option<Dims>)
    : (r: Option<seq<InlineBox>>)
    ensures r.Some? <==> predictions.Some? && element.Some? && dims.Some? && dims.value.width != 0 && dims.value.height != 0
    ensures r.Some? ==>
      (|r.value| == |predictions.value| &&
       forall i :: 0 <= i < |r.value| ==>
         && r.value[i].caption == LabelText(predictions.value[i])
         && r.value[i].rect == BoxRect(predictions.value[i], element.value.width / dims.value.width as real,
                                                             element.value.height / dims.value.height as real))
  {
    if predictions.None? || element.None? || dims.None? || dims.value.width == 0 || dims.value.height == 0 then None
    else
      var sx := element.value.width / dims.value.width as real;
      var sy := element.value.height / dims.value.height as real;
      Some(seq(|predictions.value|, i requires 0 <= i < |predictions.value| =>
        InlineBox(BoxRect(predictions.value[i], sx, sy), LabelText(predictions.value[i]))))
  }

  /**
   * Where both render, the inline renderer and the image viewer put box i at
   * the same place; they differ only in what they do without dimensions.
   */
  lemma InlineAgreesWithViewer(url: string, predictions: seq<Prediction>, size: ImageOverlay.ImageSize, dims: Dims, i: nat)
    requires url != "" && i < |predictions|
    requires dims.width != 0 && dims.height != 0 && size.width != 0.0 && size.height != 0.0
    ensures RenderBoundingBoxes(Some(predictions), Some(size), Some(dims)).Some?
    ensures ImageOverlay.Render(Some(url), Some(predictions), Some(dims), size).Some?
    ensures RenderBoundingBoxes(Some(predictions), Some(size), Some(dims)).value[i].rect
         == ImageOverlay.Render(Some(url), Some(predictions), Some(dims), size).value[i].rect
  {
    var sx := size.width / dims.width as real;
    assert ImageOverlay.ScaleX(size, Some(dims)) * dims.width as real == size.width;
    assert ImageOverlay.ScaleX(size, Some(dims)) == sx;
    var sy := size.height / dims.height as real;
    assert ImageOverlay.ScaleY(size, Some(dims)) * dims.height as real == size.height;
    assert ImageOverlay.ScaleY(size, Some(dims)) == sy;
  }

  /** Without dimensions the inline renderer draws nothing, while the viewer falls back to scale 1. */
  lemma InlineRefusesWhereViewerFallsBack(url: string, predictions: seq<Prediction>, size: ImageOverlay.ImageSize)
    requires url != ""
    ensures RenderBoundingBoxes(Some(predictions), Some(size), None).None?
    ensures ImageOverlay.Render(Some(url), Some(predictions), None, size).Some?
    ensures forall i :: 0 <= i < |predictions| ==>
      ImageOverlay.Render(Some(url), Some(predictions), None, size).value[i].rect == BoxRect(predictions[i], 1.0, 1.0)
  {
  }

  // ---------------------------------------------------------------------
  // The page state

  /** Ids are unique and fresh, and there is one preview per selected file, with its id and name. */
  ghost predicate PageInvariant(files: seq<UploadItem>, previews: seq<FilePreview>, nextId: nat)
  {
    && DistinctIds(files)
    && (forall k :: 0 <= k < |files| ==> files[k].id < nextId)
    && previews == PreviewsOf(files)
  }

  /** A selection keeps the page invariant. */
  lemma IntakeKeepsInvariant(files: seq<UploadItem>, previews: seq<FilePreview>, nextId: nat, selection: seq<RawFile>)
    requires PageInvariant(files, previews, nextId)
    ensures var r := IntakeOf(files, selection, nextId);
      PageInvariant(files + r.added, previews + PreviewsOf(r.added), r.nextId)
  {
    IntakeKeepsIdsFresh(files, selection, nextId);
    var r := IntakeOf(files, selection, nextId);
    PreviewsOfAppend(files, r.added);
  }

  /** Removing an id keeps the page invariant. */
  lemma RemovalKeepsInvariant(files: seq<UploadItem>, previews: seq<FilePreview>, nextId: nat, id: nat)
    requires PageInvariant(files, previews, nextId)
    ensures PageInvariant(Without(files, ItemId, id), Without(previews, PreviewId, id), nextId)
  {
    WithoutKeepsPreviewsInStep(files, id);
    WithoutKeepsIds(files, id, nextId);
  }

  class Page {
    var selectedFiles: seq<UploadItem>
    var filePreviews: seq<FilePreview>
    var processingResults: seq<ProcessingResult>
    var isLoading: bool
    var error: Option<string>
    var selectedResult: Option<ProcessingResult>
    /** Stands for the id generator: every id handed out so far is below it. */
    var nextId: nat

    ghost predicate Valid()
      reads this`selectedFiles, this`filePreviews, this`nextId
    {
      PageInvariant(selectedFiles, filePreviews, nextId)
    }

    constructor ()
      ensures Valid()
      ensures selectedFiles == [] && filePreviews == [] && processingResults == []
      ensures !isLoading && error.None? && selectedResult.None?
    {
      selectedFiles, filePreviews, processingResults := [], [], [];
      isLoading, error, selectedResult := false, None, None;
      nextId := 0;
    }

    /**
     * A new selection: each file is checked against the files selected
     * before this event; accepted files and their previews are appended in
     * order, and the error shows the rejections or the duplicate notice.
     */
    method FileSelect(files: seq<RawFile>)
      requires Valid()
      modifies this`selectedFiles, this`filePreviews, this`error, this`nextId
      ensures Valid()
      ensures var r := IntakeOf(old(selectedFiles), files, old(nextId));
        && selectedFiles == old(selectedFiles) + r.added
        && filePreviews == old(filePreviews) + PreviewsOf(r.added)
        && error == ErrorAfterIntake(old(error), r)
        && nextId == r.nextId
    {
      var filesToAdd, errors, notice, id, newPreviews := ScanSelection(selectedFiles, files, nextId);
      IntakeKeepsInvariant(selectedFiles, filePreviews, nextId, files);
      if |errors| > 0 {
        error := Some(Join(errors, " "));
      } else if notice.Some? {
        error := notice;
      }
      selectedFiles := selectedFiles + filesToAdd;
      filePreviews := filePreviews + newPreviews;
      nextId := id;
    }

    /**
     * Analyze every selected file. `replies[k]` is how the request for the
     * k-th file ended and `order` is the order in which the requests ended.
     * With no files only the error is set; otherwise the batch ends with each
     * file's finished entry in selection order, whatever `order` was, and the
     * first file's entry selected.
     */
    method Predict(replies: seq<Reply>, order: seq<nat>)
      requires Valid()
      requires |replies| == |selectedFiles| && CoversIndices(order, |selectedFiles|)
      modifies this`processingResults, this`isLoading, this`error, this`selectedResult
      ensures Valid()
      ensures old(selectedFiles) == [] ==>
        && error == Some("Please select files to analyze.")
        && processingResults == old(processingResults) && isLoading == old(isLoading)
        && selectedResult == old(selectedResult)
      ensures old(selectedFiles) != [] ==>
        && processingResults == Completed(selectedFiles, replies)
        && selectedResult == Some(processingResults[0])
        && !isLoading && error.None?
    {
      if |selectedFiles| == 0 {
        error := Some("Please select files to analyze.");
        return;
      }
      var items := selectedFiles;
      isLoading := true;
      processingResults := [];
      error := None;
      selectedResult := None;
      var initialResults := InitialResults(items);
      processingResults := initialResults;
      ghost var done: seq<nat> := [];
      var t := 0;
      while t < |order|
        invariant 0 <= t <= |order| && done == order[..t]
        invariant selectedFiles == items
        invariant error.None? && selectedResult.None?
        invariant |processingResults| == |items|
        invariant forall k :: 0 <= k < |items| ==> processingResults[k].id == items[k].id
        invariant forall k :: 0 <= k < |items| ==>
          processingResults[k] == (if k in done then Finished(initialResults[k], replies[k]) else initialResults[k])
      {
        var j := order[t];
        var result := Finished(initialResults[j], replies[j]);
        DistinctIdsCarry(items, processingResults);
        ReplaceByIdOnlyOwnEntry(processingResults, j, result);
        processingResults := ReplaceById(processingResults, result);
        assert order[..t + 1] == order[..t] + [j];
        done := order[..t + 1];
        t := t + 1;
      }
      assert order[..|order|] == order;
      var results := Completed(items, replies);
      assert processingResults == results;
      if |results| > 0 {
        selectedResult := Some(results[0]);
      }
      isLoading := false;
    }

    /** Remove one file from the files, previews and results, and clear the selection. */
    method RemoveFile(idToRemove: nat)
      requires Valid()
      modifies this`selectedFiles, this`filePreviews, this`processingResults, this`selectedResult
      ensures Valid()
      ensures selectedFiles == Without(old(selectedFiles), ItemId, idToRemove)
      ensures filePreviews == Without(old(filePreviews), PreviewId, idToRemove)
      ensures processingResults == Without(old(processingResults), ResultId, idToRemove)
      ensures selectedResult.None?
    {
      var files := Without(selectedFiles, ItemId, idToRemove);
      var previews := Without(filePreviews, PreviewId, idToRemove);
      RemovalKeepsInvariant(selectedFiles, filePreviews, nextId, idToRemove);
      selectedFiles := files;
      filePreviews := previews;
      processingResults := Without(processingResults, ResultId, idToRemove);
      selectedResult := None;
    }

    /** The Reanalyze button: forget every file, preview and result. */
    method Reanalyze()
      requires Valid()
      modifies this`selectedFiles, this`filePreviews, this`processingResults, this`selectedResult
      ensures Valid()
      ensures selectedFiles == [] && filePreviews == [] && processingResults == [] && selectedResult.None?
    {
      selectedFiles := [];
      filePreviews := [];
      processingResults := [];
      selectedResult := None;
    }
  }

  lemma IntakeOfPrefix(existing: seq<UploadItem>, files: seq<RawFile>, i: nat, firstId: nat)
    requires i < |files|
    ensures IntakeOf(existing, files[..i + 1], firstId) == IntakeStep(IntakeOf(existing, files[..i], firstId), files[i], Check(existing, files[i]))
  {
    assert files[..i + 1][..i] == files[..i];
    assert Verdicts(existing, files[..i + 1])[..i] == Verdicts(existing, files[..i]);
  }

  /** Appending the accepted items keeps ids distinct and below the next free id. */
  lemma IntakeKeepsIdsFresh(existing: seq<UploadItem>, files: seq<RawFile>, firstId: nat)
    requires DistinctIds(existing) && forall k :: 0 <= k < |existing| ==> existing[k].id < firstId
    ensures var r := IntakeOf(existing, files, firstId);
      DistinctIds(existing + r.added) && forall k :: 0 <= k < |existing + r.added| ==> (existing + r.added)[k].id < r.nextId
  {
    IntakeIds(existing, files, firstId);
    var r := IntakeOf(existing, files, firstId);
    var all := existing + r.added;
    forall a, b | 0 <= a < b < |all| ensures all[a].id != all[b].id {
      if b >= |existing| {
        assert all[b] == r.added[b - |existing|];
        if a >= |existing| { assert all[a] == r.added[a - |existing|]; }
      }
    }
    forall k | 0 <= k < |all| ensures all[k].id < r.nextId {
      if k >= |existing| { assert all[k] == r.added[k - |existing|]; }
    }
  }

  lemma PreviewsOfAppend(xs: seq<UploadItem>, ys: seq<UploadItem>)
    ensures PreviewsOf(xs + ys) == PreviewsOf(xs) + PreviewsOf(ys)
  {
  }

  /** Results whose ids follow distinct file ids have distinct ids. */
  lemma DistinctIdsCarry(items: seq<UploadItem>, rs: seq<ProcessingResult>)
    requires DistinctIds(items) && |rs| == |items|
    requires forall k :: 0 <= k < |items| ==> rs[k].id == items[k].id
    ensures forall a, b :: 0 <= a < b < |rs| ==> rs[a].id != rs[b].id
  {
  }

  /** Filtering keeps ids distinct and below the next free id. */
  lemma {:induction false} WithoutKeepsIds(items: seq<UploadItem>, id: nat, bound: nat)
    requires DistinctIds(items) && forall k :: 0 <= k < |items| ==> items[k].id < bound
    ensures var r := Without(items, ItemId, id);
      DistinctIds(r) && forall k :: 0 <= k < |r| ==> r[k].id < bound
  {
    if |items| > 0 {
      var init, last := items[..|items| - 1], items[|items| - 1];
      WithoutKeepsIds(init, id, bound);
      var rest := Without(init, ItemId, id);
      var r := Without(items, ItemId, id);
      WithoutMembers(items, ItemId, id);
      forall k | 0 <= k < |r| ensures r[k].id < bound {
        assert r[k] in items;
      }
      if last.id != id {
        assert r == rest + [last];
        WithoutMembers(init, ItemId, id);
        forall a | 0 <= a < |rest| ensures rest[a].id != last.id {
          assert rest[a] in init;
          var q :| 0 <= q < |init| && init[q] == rest[a];
          assert items[q] == rest[a];
        }
      }
    }
  }
}

/**
 * The `/predict` endpoint: it checks the upload's extension, saves the upload
 * to a temporary file, converts it to PNG, runs inference, asks for the
 * report and answers with one JSON body, or with an HTTP error naming the
 * first step that failed. The steps it calls (saving, conversion, reading the
 * PNG's size, inference, the report) are given as their outcomes; the
 * directories on disk are a set of paths.
 */
module Routes {
  import opened Wrappers
  import opened Text
  import opened Detection

  const AllowedExtensions := ["dcm", "rvg"]
  const DicomExtensions := ["dcm", "rvg"]
  const ImageExtensions := ["png", "jpg", "jpeg"]
  const InvalidTypeDetail := "Invalid file type. Only .dcm, .rvg files are allowed."
  const SaveFailedPrefix := "Could not save file: "
  const ConvertFailedPrefix := "Could not convert DICOM to PNG: "
  const InferenceFailedPrefix := "Error during image analysis: "
  const ReportFailedPrefix := "Error generating diagnostic report: "
  const StaticUrlPrefix := "/static/"

  /** Python `filename.split(".")[-1].lower()`: the text after the last dot, lower-cased. */
  function ExtensionOf(filename: string): (e: string)
    ensures |e| <= |filename|
    ensures '.' !in e
  {
    var tail := AfterLast(filename, '.');
    assert forall i :: 0 <= i < |tail| ==> LowerChar(tail[i]) != '.';
    Lower(tail)
  }

  /** The extension check that opens the endpoint. */
  predicate Accepted(filename: string)
  {
    ExtensionOf(filename) in AllowedExtensions
  }

  /** A name `stem.ext` whose last part has no dot has extension `ext`, lower-cased. */
  lemma ExtensionOfDotted(stem: string, ext: string)
    requires '.' !in ext
    ensures ExtensionOf(stem + "." + ext) == Lower(ext)
  {
    var name := stem + "." + ext;
    var tail := AfterLast(name, '.');
    assert name[|name| - |ext|..] == ext;
    assert name[|stem|] == '.';
    assert |tail| == |ext|;
  }

  /** A name without a dot is its own extension, lower-cased. */
  lemma ExtensionOfUndotted(name: string)
    requires '.' !in name
    ensures ExtensionOf(name) == Lower(name)
  {
    var tail := AfterLast(name, '.');
  }

  /** `os.path.basename`: the text after the last '/'. */
  function Basename(path: string): (b: string)
    ensures |b| <= |path| && path[|path| - |b|..] == b
    ensures '/' !in b
    ensures |b| == |path| || path[|path| - |b| - 1] == '/'
  {
    AfterLast(path, '/')
  }

  function TempName(uuid: string, filename: string): string
  {
    "temp/" + uuid + "_" + filename
  }

  /** Saving the upload: it worked, the file could not be opened, or copying into it failed. */
  datatype SaveResult = Saved | OpenFailed(message: string) | CopyFailed(message: string)

  /** The JSON body, with exactly the four keys the endpoint sends, or an HTTP error. */
  datatype Response =
    | Json(predictions: seq<Prediction>, pngUrl: Option<string>, report: string, imageDimensions: Option<Dims>)
    | HttpError(status: int, detail: string)

  /** The answer once the upload is saved: conversion, inference and the report, in that order. */
  function RespondSaved(convert: Outcome<string>, dims: Option<Dims>, infer: Outcome<seq<Prediction>>,
                        report: Outcome<string>): (r: Response)
    ensures r.HttpError? ==> r.status == 500
    ensures convert.Raised? ==> r == HttpError(500, ConvertFailedPrefix + convert.message)
    ensures convert.Done? && infer.Raised? ==> r == HttpError(500, InferenceFailedPrefix + infer.message)
    ensures convert.Done? && infer.Done? && report.Raised? ==> r == HttpError(500, ReportFailedPrefix + report.message)
    ensures r.Json? <==> convert.Done? && infer.Done? && report.Done?
  {
    if convert.Raised? then HttpError(500, ConvertFailedPrefix + convert.message)
    else if infer.Raised? then HttpError(500, InferenceFailedPrefix + infer.message)
    else if report.Raised? then HttpError(500, ReportFailedPrefix + report.message)
    else Json(infer.value, Some(StaticUrlPrefix + Basename(convert.value)), report.value, dims)
  }

  /** The endpoint's answer: the first failing step decides the error. */
  function Respond(filename: string, save: SaveResult, convert: Outcome<string>, dims: Option<Dims>,
                   infer: Outcome<seq<Prediction>>, report: Outcome<string>): (r: Response)
    ensures r.HttpError? ==> r.status == 400 || r.status == 500
    ensures r.HttpError? && r.status == 400 <==> !Accepted(filename)
    ensures Accepted(filename) && !save.Saved? ==> r == HttpError(500, SaveFailedPrefix + save.message)
    ensures Accepted(filename) && save.Saved? && convert.Raised? ==>
      r == HttpError(500, ConvertFailedPrefix + convert.message)
    ensures Accepted(filename) && save.Saved? && convert.Done? && infer.Raised? ==>
      r == HttpError(500, InferenceFailedPrefix + infer.message)
    ensures Accepted(filename) && save.Saved? && convert.Done? && infer.Done? && report.Raised? ==>
      r == HttpError(500, ReportFailedPrefix + report.message)
  {
    if !Accepted(filename) then HttpError(400, InvalidTypeDetail)
    else if !save.Saved? then HttpError(500, SaveFailedPrefix + save.message)
    else RespondSaved(convert, dims, infer, report)
  }

  /** Whether the endpoint wrote the temporary copy of the upload. */
  predicate TempWritten(filename: string, save: SaveResult)
  {
    Accepted(filename) && !save.OpenFailed?
  }

  /**
   * Whether the temporary copy is still on disk when the endpoint answers:
   * only when copying into it failed, or when inference failed after the
   * conversion (that error path has no clean-up).
   */
  predicate TempLeft(filename: string, save: SaveResult, convert: Outcome<string>, infer: Outcome<seq<Prediction>>)
  {
    Accepted(filename) && (save.CopyFailed? || (save.Saved? && convert.Done? && infer.Raised?))
  }

  /** The PNG the conversion wrote, if it ran and succeeded. */
  function Converted(filename: string, save: SaveResult, convert: Outcome<string>): Option<string>
  {
    if Accepted(filename) && save.Saved? && convert.Done? then Some(convert.value) else None
  }

  /** The server's disk: the temporary directory and the static directory, as sets of paths. */
  datatype Disk = Disk(tempFiles: set<string>, staticFiles: set<string>)

  /**
   * The `/predict` handler for an upload named `filename` on `disk`; `uuid`
   * is the fresh identifier of its temporary copy, and `save`, `convert`,
   * `dims`, `infer` and `report` are what the called steps give back.
   * `after` is the disk when the answer is sent.
   */
  method Predict(disk: Disk, filename: string, uuid: string, save: SaveResult, convert: Outcome<string>, dims: Option<Dims>,
                 infer: Outcome<seq<Prediction>>, report: Outcome<string>) returns (response: Response, after: Disk)
    ensures response == Respond(filename, save, convert, dims, infer, report)
    ensures after.tempFiles ==
      if TempLeft(filename, save, convert, infer) then disk.tempFiles + {TempName(uuid, filename)}
      else if TempWritten(filename, save) then disk.tempFiles - {TempName(uuid, filename)}
      else disk.tempFiles
    ensures after.staticFiles ==
      if Converted(filename, save, convert).Some? then disk.staticFiles + {Converted(filename, save, convert).value}
      else disk.staticFiles
  {
    if !Accepted(filename) {
      return HttpError(400, InvalidTypeDetail), disk;
    }
    var temp := TempName(uuid, filename);
    match save {
      case OpenFailed(message) =>
        return HttpError(500, SaveFailedPrefix + message), disk;
      case CopyFailed(message) =>
        return HttpError(500, SaveFailedPrefix + message), disk.(tempFiles := disk.tempFiles + {temp});
      case Saved =>
    }
    // Both lists are ["dcm", "rvg"], so every upload that got here is converted.
    var extension := ExtensionOf(filename);
    assert extension in DicomExtensions by {
      assert DicomExtensions == AllowedExtensions;
    }
    if extension in DicomExtensions {
      response, after := AnalyzeSaved(disk.(tempFiles := disk.tempFiles + {temp}), temp, convert, dims, infer, report);
    } else if extension in ImageExtensions {
      assert false;
    }
  }

  /**
   * The part of the handler after the upload was saved at `temp`: convert it,
   * run inference on the PNG, ask for the report, and remove the temporary
   * copy on every path except a failed inference.
   */
  method AnalyzeSaved(disk: Disk, temp: string, convert: Outcome<string>, dims: Option<Dims>,
                      infer: Outcome<seq<Prediction>>, report: Outcome<string>) returns (response: Response, after: Disk)
    ensures response == RespondSaved(convert, dims, infer, report)
    ensures after.tempFiles == if convert.Done? && infer.Raised? then disk.tempFiles else disk.tempFiles - {temp}
    ensures after.staticFiles == if convert.Done? then disk.staticFiles + {convert.value} else disk.staticFiles
  {
    var tempFiles, staticFiles := disk.tempFiles, disk.staticFiles;
    var pngUrl: Option<string> := None;
    var imageDimensions: Option<Dims> := None;
    match convert {
      case Raised(message) =>
        // `os.remove` runs only when the path exists; removing an absent path changes nothing.
        tempFiles := tempFiles - {temp};
        return HttpError(500, ConvertFailedPrefix + message), Disk(tempFiles, staticFiles);
      case Done(pngPath) =>
        staticFiles := staticFiles + {pngPath};
        pngUrl := Some(StaticUrlPrefix + Basename(pngPath));
        imageDimensions := dims;
    }

    var predictions: seq<Prediction>;
    match infer {
      case Raised(message) =>
        return HttpError(500, InferenceFailedPrefix + message), Disk(tempFiles, staticFiles);
      case Done(found) =>
        predictions := found;
    }

    var diagnosticReport: string;
    match report {
      case Raised(message) =>
        tempFiles := tempFiles - {temp};
        return HttpError(500, ReportFailedPrefix + message), Disk(tempFiles, staticFiles);
      case Done(text) =>
        diagnosticReport := text;
    }
    tempFiles := tempFiles - {temp};
    return Json(predictions, pngUrl, diagnosticReport, imageDimensions), Disk(tempFiles, staticFiles);
  }

  /** Only the extension check answers 400, and it comes before anything is written. */
  lemma RejectedBeforeSaving(filename: string, save: SaveResult, convert: Outcome<string>, dims: Option<Dims>,
                             infer: Outcome<seq<Prediction>>, report: Outcome<string>)
    ensures var r := Respond(filename, save, convert, dims, infer, report);
      (r.HttpError? && r.status == 400) <==> !Accepted(filename)
    ensures !Accepted(filename) ==>
      && Respond(filename, save, convert, dims, infer, report) == HttpError(400, InvalidTypeDetail)
      && !TempWritten(filename, save) && Converted(filename, save, convert).None?
  {
  }

  /**
   * Every answer is the JSON body or an error with status 400 or 500; the
   * body comes exactly when every step succeeded, and then carries the
   * inference's predictions, the report, the PNG's size and a URL under
   * `/static/` naming the converted file.
   */
  lemma SuccessExactlyWhenAllStepsSucceed(filename: string, save: SaveResult, convert: Outcome<string>, dims: Option<Dims>,
                                          infer: Outcome<seq<Prediction>>, report: Outcome<string>)
    ensures var r := Respond(filename, save, convert, dims, infer, report);
      && (r.HttpError? ==> r.status == 400 || r.status == 500)
      && (r.Json? <==> Accepted(filename) && save.Saved? && convert.Done? && infer.Done? && report.Done?)
      && (r.Json? ==> r.predictions == infer.value && r.report == report.value && r.imageDimensions == dims &&
                      r.pngUrl.Some? && StartsWith(r.pngUrl.value, StaticUrlPrefix) &&
                      r.pngUrl.value[|StaticUrlPrefix|..] == Basename(convert.value))
  {
  }

  /**
   * A successful answer leaves no temporary copy behind and keeps the PNG it
   * links to; a temporary copy is left behind only by an answer of 500 that
   * reports a failed save or a failed analysis.
   */
  lemma CleanupMatchesResponse(filename: string, save: SaveResult, convert: Outcome<string>, dims: Option<Dims>,
                               infer: Outcome<seq<Prediction>>, report: Outcome<string>)
    ensures var r := Respond(filename, save, convert, dims, infer, report);
      r.Json? ==> TempWritten(filename, save) && !TempLeft(filename, save, convert, infer) &&
                  Converted(filename, save, convert) == Some(convert.value)
    ensures var r := Respond(filename, save, convert, dims, infer, report);
      TempLeft(filename, save, convert, infer) ==>
        && r.HttpError? && r.status == 500
        && (StartsWith(r.detail, SaveFailedPrefix) || StartsWith(r.detail, InferenceFailedPrefix))
  {
    var r := Respond(filename, save, convert, dims, infer, report);
    if TempLeft(filename, save, convert, infer) {
      if save.CopyFailed? {
        assert r.detail == SaveFailedPrefix + save.message;
      } else {
        assert r.detail == InferenceFailedPrefix + infer.message;
      }
    }
  }
}

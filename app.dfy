/**
 * The page controller: the list of selected files, the disabled state of the
 * convert and clear buttons, whether the preview area is shown, and the
 * operations the user interface triggers on them.
 */
module App {
  import opened Wrappers
  import opened Collection
  import opened PageLayout
  import opened PdfWriter
  import opened Conversion

  datatype Severity = Success | Error | Info

  /** The notifications the operations raise. */
  datatype Notice = NoValidImages | ImagesAdded(count: nat) | AllCleared | PdfCreated | PdfFailed
  {
    /** The kind passed to the notification: errors for a rejected batch and a failed conversion, information for a clear. */
    function Severity(): (r: Severity)
      ensures r == Error <==> NoValidImages? || PdfFailed?
      ensures r == Success <==> ImagesAdded? || PdfCreated?
      ensures r == Info <==> AllCleared?
    {
      match this
      case NoValidImages => Error
      case ImagesAdded(_) => Success
      case AllCleared => Info
      case PdfCreated => Success
      case PdfFailed => Error
    }
  }

  /** Whether an entry with the identity of `file` is in `list`, scanning from the front and stopping at the first match. */
  method ContainsIdentity(list: seq<SelectedFile>, file: SelectedFile) returns (found: bool)
    ensures found <==> Present(list, file)
  {
    var k := 0;
    while k < |list|
      invariant 0 <= k <= |list|
      invariant forall j :: 0 <= j < k ==> !SameIdentity(list[j], file)
    {
      if SameIdentity(list[k], file) {
        return true;
      }
      k := k + 1;
    }
    return false;
  }

  class Controller {
    var selectedFiles: seq<SelectedFile>
    var convertDisabled: bool
    var clearDisabled: bool
    var previewVisible: bool
    /** The convert button shows its progress label. */
    var converting: bool

    /** The controls agree with the list: both buttons enabled and the preview shown exactly when it is non-empty. */
    ghost predicate ControlsMatch()
      reads this
    {
      convertDisabled == (selectedFiles == []) && clearDisabled == (selectedFiles == [])
      && previewVisible == (selectedFiles != []) && !converting
    }

    ghost predicate Valid()
      reads this
    {
      Unique(selectedFiles) && AllImages(selectedFiles) && ControlsMatch()
    }

    /** The page as loaded: no files, both buttons disabled, the preview hidden. */
    constructor ()
      ensures Valid() && selectedFiles == []
    {
      selectedFiles := [];
      convertDisabled, clearDisabled := true, true;
      previewVisible := false;
      converting := false;
    }

    /** Shows the preview area exactly when there are files; the per-file thumbnails are not modelled. */
    method UpdateImagePreview()
      modifies this`previewVisible
      ensures previewVisible == (selectedFiles != [])
    {
      previewVisible := |selectedFiles| > 0;
    }

    method UpdateButtonStates()
      modifies this`convertDisabled, this`clearDisabled
      ensures convertDisabled == (selectedFiles == []) && clearDisabled == (selectedFiles == [])
    {
      if |selectedFiles| > 0 {
        convertDisabled := false;
        clearDisabled := false;
      } else {
        convertDisabled := true;
        clearDisabled := true;
      }
    }

    /** The `forEach` of the add operation: each image file is pushed unless its identity is already in the list. */
    method AppendImages(imageFiles: seq<SelectedFile>)
      modifies this`selectedFiles
      ensures selectedFiles == AppendNew(old(selectedFiles), imageFiles)
    {
      var i := 0;
      while i < |imageFiles|
        invariant 0 <= i <= |imageFiles|
        invariant selectedFiles == AppendNew(old(selectedFiles), imageFiles[..i])
      {
        var file := imageFiles[i];
        AppendNewStep(old(selectedFiles), imageFiles, i);
        var fileExists := ContainsIdentity(selectedFiles, file);
        if !fileExists {
          selectedFiles := selectedFiles + [file];
        }
        i := i + 1;
      }
      assert imageFiles[..i] == imageFiles;
    }

    /**
     * Adds the image files among `files` that are not yet present. An empty
     * input does nothing; an input without images only raises an error.
     * The success notice counts every image file passed in, duplicates included.
     */
    method ProcessFiles(files: seq<SelectedFile>) returns (notice: Option<Notice>)
      requires Valid()
      modifies this
      ensures Valid()
      ensures selectedFiles == AppendNew(old(selectedFiles), ImageFiles(files))
      ensures files == [] ==> notice == None && unchanged(this)
      ensures files != [] && ImageFiles(files) == [] ==> notice == Some(NoValidImages) && unchanged(this)
      ensures ImageFiles(files) != [] ==> notice == Some(ImagesAdded(|ImageFiles(files)|))
    {
      if |files| == 0 {
        return None;
      }
      var imageFiles := ImageFiles(files);
      if |imageFiles| == 0 {
        return Some(NoValidImages);
      }
      AppendImages(imageFiles);
      AppendNewUnique(old(selectedFiles), imageFiles);
      AppendNewAllImages(old(selectedFiles), imageFiles);
      UpdateImagePreview();
      UpdateButtonStates();
      return Some(ImagesAdded(|imageFiles|));
    }

    /** `splice(index, 1)` on the list, then the controls are refreshed; no notification. */
    method RemoveImage(index: int)
      requires Valid()
      modifies this
      ensures Valid()
      ensures selectedFiles == SpliceOne(old(selectedFiles), index)
    {
      SpliceOnePreserves(selectedFiles, index);
      selectedFiles := SpliceOne(selectedFiles, index);
      UpdateImagePreview();
      UpdateButtonStates();
    }

    method ClearAllImages() returns (notice: Notice)
      requires Valid()
      modifies this
      ensures Valid()
      ensures selectedFiles == [] && convertDisabled && clearDisabled && !previewVisible
      ensures notice == AllCleared
    {
      selectedFiles := [];
      UpdateImagePreview();
      UpdateButtonStates();
      return AllCleared;
    }

    /**
     * Builds the PDF, one page per file in list order, and saves it. `dims`
     * holds each file's decoded size; `setupFails` stands for the writer
     * failing to start, which is caught and reported. An empty list does
     * nothing.
     */
    method ConvertToPdf(dims: seq<Dimensions>, pageWidth: real, pageHeight: real, setupFails: bool)
      returns (pdf: Document?, notice: Option<Notice>)
      requires Valid() && WellFormedJob(selectedFiles, dims, pageWidth, pageHeight)
      modifies this
      ensures Valid() && selectedFiles == old(selectedFiles)
      ensures selectedFiles == [] ==> pdf == null && notice == None && unchanged(this)
      ensures selectedFiles != [] && setupFails ==> pdf == null && notice == Some(PdfFailed)
      ensures selectedFiles != [] && !setupFails ==>
        pdf != null && fresh(pdf) && pdf.Valid() && notice == Some(PdfCreated)
        && pdf.calls == ConversionCalls(Placements(selectedFiles, dims, pageWidth, pageHeight, |selectedFiles|))
        && pdf.pages == OnePerPage(Placements(selectedFiles, dims, pageWidth, pageHeight, |selectedFiles|))
        && pdf.savedAs == Some(OutputFileName)
    {
      if |selectedFiles| == 0 {
        return null, None;
      }
      convertDisabled := true;
      converting := true;
      if setupFails {
        convertDisabled := false;
        converting := false;
        return null, Some(PdfFailed);
      }
      pdf := new Document(pageWidth, pageHeight);
      ProcessImages(pdf, selectedFiles, dims);
      convertDisabled := false;
      converting := false;
      return pdf, Some(PdfCreated);
    }
  }
}

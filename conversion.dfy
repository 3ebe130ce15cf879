/**
 * The page sequence of the conversion: for each image in list order, a new
 * page unless it is the first, then the image drawn at its fit-to-page
 * layout; finally the document is saved under a fixed name.
 */
module Conversion {
  import opened Collection
  import opened PageLayout
  import opened Wrappers
  import opened PdfWriter

  /** The name of the downloaded file. */
  const OutputFileName: string := "converted_images.pdf"

  /** The format hint passed with every image, whatever its real type. */
  const ImageFormat: string := "JPEG"

  /** The intrinsic size of a decoded image. */
  datatype Dimensions = Dimensions(width: real, height: real)

  /** One decoded size per file, all positive, and a page of positive size. */
  predicate WellFormedJob(files: seq<SelectedFile>, dims: seq<Dimensions>, pageWidth: real, pageHeight: real) {
    |dims| == |files| && pageWidth > 0.0 && pageHeight > 0.0
    && forall i :: 0 <= i < |dims| ==> dims[i].width > 0.0 && dims[i].height > 0.0
  }

  /** The images the conversion draws for the first `n` files, each at its fit-to-page layout. */
  function Placements(files: seq<SelectedFile>, dims: seq<Dimensions>, pageWidth: real, pageHeight: real, n: nat): (r: seq<Placement>)
    requires WellFormedJob(files, dims, pageWidth, pageHeight) && n <= |files|
    ensures |r| == n
    ensures forall i :: 0 <= i < n ==>
      r[i] == Placement(files[i], ImageFormat, FitToPage(dims[i].width, dims[i].height, pageWidth, pageHeight))
  {
    if n == 0 then []
    else
      Placements(files, dims, pageWidth, pageHeight, n - 1)
        + [Placement(files[n - 1], ImageFormat, FitToPage(dims[n - 1].width, dims[n - 1].height, pageWidth, pageHeight))]
  }

  /** The writer calls that draw `placements`: a page break before every image but the first. */
  function Steps(placements: seq<Placement>): seq<PdfCall>
  {
    if placements == [] then []
    else
      var earlier := placements[..|placements| - 1];
      Steps(earlier)
        + (if earlier != [] then [PdfCall.AddPage] else [])
        + [PdfCall.AddImage(placements[|placements| - 1])]
  }

  /** Drawing one more image: a page break unless it is the first, then the image. */
  lemma StepsSnoc(placements: seq<Placement>, k: nat)
    requires k < |placements|
    ensures Steps(placements[..k + 1])
      == Steps(placements[..k]) + (if k > 0 then [PdfCall.AddPage] else []) + [PdfCall.AddImage(placements[k])]
  {
    assert placements[..k + 1][..k] == placements[..k];
  }

  /** The whole trace of a conversion: every image, then the save. */
  function ConversionCalls(placements: seq<Placement>): seq<PdfCall>
  {
    Steps(placements) + [PdfCall.Save(OutputFileName)]
  }

  /** Reference document: page `i` holds only image `i`. */
  function OnePerPage(placements: seq<Placement>): (pages: seq<seq<Placement>>)
    ensures |pages| == |placements|
    ensures forall i :: 0 <= i < |placements| ==> pages[i] == [placements[i]]
  {
    if placements == [] then []
    else OnePerPage(placements[..|placements| - 1]) + [[placements[|placements| - 1]]]
  }

  /** Drawing a non-empty list of images yields exactly the reference document. */
  lemma {:induction false} StepsRender(placements: seq<Placement>)
    requires placements != []
    ensures Render(Steps(placements)) == OnePerPage(placements)
    decreases |placements|
  {
    var earlier := placements[..|placements| - 1];
    var last := placements[|placements| - 1];
    if earlier == [] {
      assert Steps(placements) == [PdfCall.AddImage(last)];
      RenderFirstImage(last);
    } else {
      StepsRender(earlier);
      assert Steps(placements) == Steps(earlier) + [PdfCall.AddPage] + [PdfCall.AddImage(last)];
      RenderBreakThenImage(Steps(earlier), last);
    }
  }

  /** A conversion of a non-empty list yields one page per image, in list order, and one page break fewer than images. */
  lemma ConversionPages(placements: seq<Placement>)
    requires placements != []
    ensures Render(ConversionCalls(placements)) == OnePerPage(placements)
    ensures PageBreaks(ConversionCalls(placements)) == |placements| - 1
  {
    StepsRender(placements);
    RenderSnoc(Steps(placements), PdfCall.Save(OutputFileName));
  }

  /**
   * The page loop: for each file in order, a new page unless it is the first,
   * then the file's image at its fit-to-page layout; then the save.
   */
  method ProcessImages(pdf: Document, files: seq<SelectedFile>, dims: seq<Dimensions>)
    requires pdf.Valid() && pdf.calls == [] && files != []
    requires WellFormedJob(files, dims, pdf.pageWidth, pdf.pageHeight)
    modifies pdf
    ensures pdf.Valid()
    ensures pdf.calls == ConversionCalls(Placements(files, dims, pdf.pageWidth, pdf.pageHeight, |files|))
    ensures pdf.pages == OnePerPage(Placements(files, dims, pdf.pageWidth, pdf.pageHeight, |files|))
    ensures pdf.savedAs == Some(OutputFileName)
  {
    ghost var placements := Placements(files, dims, pdf.pageWidth, pdf.pageHeight, |files|);
    var currentPage := 0;
    var index := 0;
    while index < |files|
      invariant 0 <= index <= |files| && currentPage == index
      invariant pdf.Valid()
      invariant pdf.calls == Steps(placements[..index])
    {
      if currentPage > 0 {
        pdf.AddPage();
      }
      var layout := FitToPage(dims[index].width, dims[index].height, pdf.pageWidth, pdf.pageHeight);
      pdf.AddImage(files[index], ImageFormat, layout);
      assert placements[index] == Placement(files[index], ImageFormat, layout);
      StepsSnoc(placements, index);
      currentPage := currentPage + 1;
      index := index + 1;
    }
    assert placements[..index] == placements;
    pdf.Save(OutputFileName);
    ConversionPages(placements);
  }
}

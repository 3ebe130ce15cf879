/**
 * The external PDF writer, reduced to what the conversion observes: a
 * document that starts with one blank page, `AddPage` appends a blank page
 * and makes it current, `AddImage` draws on the current (last) page, and
 * `Save` records the download name. Every call is also kept in a ghost trace,
 * and `Render` gives the pages a trace produces.
 */
module PdfWriter {
  import opened Wrappers
  import opened Collection
  import opened PageLayout

  /** One image drawn on a page: the file's data, the format hint passed to the writer, and where it goes. */
  datatype Placement = Placement(file: SelectedFile, format: string, layout: Layout)

  /** The writer calls the conversion makes, in order. */
  datatype PdfCall = AddPage | AddImage(placement: Placement) | Save(filename: string)

  /** How many `AddPage` calls a trace holds. */
  function PageBreaks(calls: seq<PdfCall>): nat
  {
    if calls == [] then 0
    else PageBreaks(calls[..|calls| - 1]) + (if calls[|calls| - 1].AddPage? then 1 else 0)
  }

  /** The pages after one more call: a page break appends a blank page, an image goes on the last page, a save changes none. */
  function Apply(pages: seq<seq<Placement>>, call: PdfCall): (r: seq<seq<Placement>>)
    requires |pages| >= 1
    ensures |r| == |pages| + (if call.AddPage? then 1 else 0)
    ensures r[..|pages| - 1] == pages[..|pages| - 1]
    ensures call.AddImage? ==> r[|pages| - 1] == pages[|pages| - 1] + [call.placement]
    ensures !call.AddImage? ==> r[..|pages|] == pages
    ensures call.AddPage? ==> r[|pages|] == []
  {
    match call
    case AddPage => pages + [[]]
    case AddImage(p) => pages[..|pages| - 1] + [pages[|pages| - 1] + [p]]
    case Save(_) => pages
  }

  /** The pages of a fresh document after the calls of `calls`, each page as the images drawn on it in order. */
  function Render(calls: seq<PdfCall>): (pages: seq<seq<Placement>>)
    ensures |pages| == 1 + PageBreaks(calls)
  {
    if calls == [] then [[]]
    else Apply(Render(calls[..|calls| - 1]), calls[|calls| - 1])
  }

  lemma RenderSnoc(calls: seq<PdfCall>, call: PdfCall)
    ensures Render(calls + [call]) == Apply(Render(calls), call)
  {
  }

  /** A fresh document with one image drawn has that image alone on its one page. */
  lemma RenderFirstImage(p: Placement)
    ensures Render([PdfCall.AddImage(p)]) == [[p]]
  {
    RenderSnoc([], PdfCall.AddImage(p));
    var blank: seq<seq<Placement>> := [[]];
    assert blank[..0] == [];
    assert blank[0] + [p] == [p];
  }

  /** A page break followed by an image adds one page holding only that image. */
  lemma RenderBreakThenImage(calls: seq<PdfCall>, p: Placement)
    ensures Render(calls + [PdfCall.AddPage] + [PdfCall.AddImage(p)]) == Render(calls) + [[p]]
  {
    var before := Render(calls);
    RenderSnoc(calls, PdfCall.AddPage);
    RenderSnoc(calls + [PdfCall.AddPage], PdfCall.AddImage(p));
    var broken := before + [[]];
    assert broken[..|before|] == before;
    assert broken[|before|] + [p] == [p];
  }

  class Document {
    const pageWidth: real
    const pageHeight: real
    var pages: seq<seq<Placement>>
    var savedAs: Option<string>
    ghost var calls: seq<PdfCall>

    ghost predicate Valid()
      reads this
    {
      pageWidth > 0.0 && pageHeight > 0.0 && pages == Render(calls)
    }

    /** A new document of the given page size, holding one blank page. */
    constructor (pageWidth: real, pageHeight: real)
      requires pageWidth > 0.0 && pageHeight > 0.0
      ensures Valid()
      ensures this.pageWidth == pageWidth && this.pageHeight == pageHeight
      ensures calls == [] && pages == [[]] && savedAs == None
    {
      this.pageWidth := pageWidth;
      this.pageHeight := pageHeight;
      pages := [[]];
      savedAs := None;
      calls := [];
    }

    method AddPage()
      requires Valid()
      modifies this
      ensures Valid()
      ensures calls == old(calls) + [PdfCall.AddPage]
      ensures pages == old(pages) + [[]] && savedAs == old(savedAs)
    {
      RenderSnoc(calls, PdfCall.AddPage);
      calls := calls + [PdfCall.AddPage];
      pages := pages + [[]];
    }

    method AddImage(file: SelectedFile, format: string, layout: Layout)
      requires Valid()
      modifies this
      ensures Valid()
      ensures calls == old(calls) + [PdfCall.AddImage(Placement(file, format, layout))]
      ensures |pages| == |old(pages)| && pages[..|pages| - 1] == old(pages)[..|pages| - 1]
      ensures pages[|pages| - 1] == old(pages)[|pages| - 1] + [Placement(file, format, layout)]
      ensures savedAs == old(savedAs)
    {
      RenderSnoc(calls, PdfCall.AddImage(Placement(file, format, layout)));
      calls := calls + [PdfCall.AddImage(Placement(file, format, layout))];
      pages := pages[..|pages| - 1] + [pages[|pages| - 1] + [Placement(file, format, layout)]];
    }

    method Save(filename: string)
      requires Valid()
      modifies this
      ensures Valid()
      ensures calls == old(calls) + [PdfCall.Save(filename)]
      ensures pages == old(pages) && savedAs == Some(filename)
    {
      RenderSnoc(calls, PdfCall.Save(filename));
      calls := calls + [PdfCall.Save(filename)];
      savedAs := Some(filename);
    }
  }
}

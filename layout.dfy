/**
 * Fit-to-page layout: an image of intrinsic size imgWidth x imgHeight is
 * scaled, keeping its aspect ratio, so that it fills the page width when it
 * is wider than tall and the page height otherwise, and is then centred.
 * Exact real arithmetic; the browser's double rounding is not modelled.
 */
module PageLayout {

  /** Where an image is drawn on a page: top-left offset and drawn size. */
  datatype Layout = Layout(x: real, y: real, width: real, height: real)

  function FitToPage(imgWidth: real, imgHeight: real, pageWidth: real, pageHeight: real): (l: Layout)
    requires imgWidth > 0.0 && imgHeight > 0.0 && pageWidth > 0.0 && pageHeight > 0.0
    ensures imgWidth > imgHeight ==> l.width == pageWidth
    ensures imgWidth <= imgHeight ==> l.height == pageHeight
    ensures l.width * imgHeight == l.height * imgWidth
    ensures 2.0 * l.x + l.width == pageWidth && 2.0 * l.y + l.height == pageHeight
    ensures l.width > 0.0 && l.height > 0.0
  {
    var finalWidth := if imgWidth > imgHeight then pageWidth else (imgWidth * pageHeight) / imgHeight;
    var finalHeight := if imgWidth > imgHeight then (imgHeight * pageWidth) / imgWidth else pageHeight;
    Layout((pageWidth - finalWidth) / 2.0, (pageHeight - finalHeight) / 2.0, finalWidth, finalHeight)
  }

  /** The layout is the only one that fills the chosen dimension, keeps the aspect ratio and is centred. */
  lemma FitToPageUnique(imgWidth: real, imgHeight: real, pageWidth: real, pageHeight: real, l: Layout)
    requires imgWidth > 0.0 && imgHeight > 0.0 && pageWidth > 0.0 && pageHeight > 0.0
    requires imgWidth > imgHeight ==> l.width == pageWidth
    requires imgWidth <= imgHeight ==> l.height == pageHeight
    requires l.width * imgHeight == l.height * imgWidth
    requires 2.0 * l.x + l.width == pageWidth && 2.0 * l.y + l.height == pageHeight
    ensures l == FitToPage(imgWidth, imgHeight, pageWidth, pageHeight)
  {
  }

  /** The dimension that fills the page is the larger of the two drawn dimensions. */
  lemma FilledDimensionDominates(imgWidth: real, imgHeight: real, pageWidth: real, pageHeight: real)
    requires imgWidth > 0.0 && imgHeight > 0.0 && pageWidth > 0.0 && pageHeight > 0.0
    ensures var l := FitToPage(imgWidth, imgHeight, pageWidth, pageHeight);
      (imgWidth > imgHeight ==> l.height < l.width) && (imgWidth <= imgHeight ==> l.width <= l.height)
  {
    var l := FitToPage(imgWidth, imgHeight, pageWidth, pageHeight);
    if imgWidth > imgHeight {
      assert l.height * imgWidth == l.width * imgHeight < l.width * imgWidth;
    } else {
      var ratio := imgWidth / imgHeight;
      assert ratio <= 1.0;
      assert l.width == ratio * pageHeight;
      assert ratio * pageHeight <= 1.0 * pageHeight;
    }
  }

  /**
   * The offsets are not clamped: the horizontal offset is negative exactly
   * when the scaled width overruns the page, which for an image that is not
   * wider than tall happens exactly when it is wider, relative to its height,
   * than the page.
   */
  lemma PortraitOverflow(imgWidth: real, imgHeight: real, pageWidth: real, pageHeight: real)
    requires imgWidth > 0.0 && imgHeight > 0.0 && pageWidth > 0.0 && pageHeight > 0.0
    requires imgWidth <= imgHeight
    ensures FitToPage(imgWidth, imgHeight, pageWidth, pageHeight).x < 0.0
      <==> imgWidth * pageHeight > pageWidth * imgHeight
  {
  }

  /** On a page at least as tall as wide, an image wider than tall always lies wholly on the page. */
  lemma LandscapeFitsTallPage(imgWidth: real, imgHeight: real, pageWidth: real, pageHeight: real)
    requires imgWidth > 0.0 && imgHeight > 0.0 && pageWidth > 0.0 && pageHeight > 0.0
    requires imgWidth > imgHeight && pageWidth <= pageHeight
    ensures var l := FitToPage(imgWidth, imgHeight, pageWidth, pageHeight);
      l.x == 0.0 && 0.0 < l.y && l.height < pageHeight
  {
    var l := FitToPage(imgWidth, imgHeight, pageWidth, pageHeight);
    assert l.height * imgWidth == imgHeight * pageWidth;
    var gap := pageWidth - l.height;
    assert gap * imgWidth == pageWidth * (imgWidth - imgHeight);
    assert pageWidth * (imgWidth - imgHeight) > 0.0;
    assert l.height < pageWidth <= pageHeight;
  }

  /** An 800 x 600 image on a 210 x 297 page: full width, centred vertically. */
  lemma LandscapeExample()
    ensures FitToPage(800.0, 600.0, 210.0, 297.0) == Layout(0.0, 69.75, 210.0, 157.5)
  {
  }

  /** A 600 x 800 image on a 210 x 297 page: full height, and wider than the page, so the x offset is negative. */
  lemma PortraitExample()
    ensures FitToPage(600.0, 800.0, 210.0, 297.0) == Layout(-6.375, 0.0, 222.75, 297.0)
  {
  }
}

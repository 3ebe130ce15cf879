# Image to PDF converter — a verified model of its core

The converter is a single browser page. The user drops or picks image files.
These are staged in a list that is de-duplicated by (name, size, last-modified)
and kept in insertion order. The user can remove a file by its position or
clear the whole list. Converting writes one PDF page per staged image, in list
order. Each image is scaled to fill the page width when it is wider than tall,
and the page height otherwise, keeping its aspect ratio, and is centred on the
page.

This project models that core in Dafny:

- `Collection` (collection.dfy) holds the file record and the identity rule.
  It also defines the image-type filter and the specification functions of
  "append the new files" (`AppendNew`, with an independent reference
  `NewArrivals`) and of JavaScript's `splice(index, 1)` (`SpliceOne`), with
  their lemmas.
- `PageLayout` (layout.dfy) holds the fit-to-page arithmetic over exact reals.
- `PdfWriter` (pdf_writer.dfy) models the external PDF writer as a class. It
  keeps the document's pages, the saved file name and a ghost trace of calls.
  `Render` gives the pages that any trace of calls produces.
- `Conversion` (conversion.dfy) holds the specification of the page loop: the
  trace it must produce and the lemma that this trace renders as one page per
  file, in order.
- `App` (app.dfy) holds the `Controller` class. Its fields are the list, the
  disabled state of the convert and clear buttons, the preview visibility and
  the busy label. Its methods are `ProcessFiles`, `RemoveImage`,
  `ClearAllImages`, `UpdateButtonStates`, `UpdateImagePreview` and
  `ConvertToPdf`. `ProcessFiles`, `RemoveImage`, `ClearAllImages` and
  `ConvertToPdf` keep the invariant `Valid()`: no two entries
  share an identity, every entry has an `image/` type, and both buttons are
  enabled and the preview shown exactly when the list is non-empty.

Two behaviours of the code are kept as written:

- Removal is JavaScript `splice(index, 1)`. So a negative index counts from
  the end, and an index past the end removes nothing.
- The success notice after adding counts every image file passed in,
  duplicates included (`ImagesAdded(|ImageFiles(files)|)`).

## Model

| member | source | states |
|---|---|---|
| `Collection.ImageFiles` | app.js:53 | the kept candidates are exactly those of the input whose type starts with `image/`; never more than the input |
| `Collection.ImageFilesCounts` | app.js:53 | each image file is kept as often as it occurs in the input, duplicates included, and no other file is kept |
| `Collection.ImageFilesAppend` | app.js:53 | the filter keeps input order: the images of `a + b` are the images of `a` followed by those of `b` |
| `Collection.AppendNew` | app.js:61-72 | the old list is a prefix of the result; at most one entry is added per candidate; every added entry is one of the candidates |
| `Collection.AppendNewPresent` | app.js:61-72 | after appending, an identity is present exactly when it was in the old list or among the candidates |
| `Collection.AppendNewUnique` | app.js:61-72 | appending keeps the list free of two entries with the same (name, size, lastModified), including duplicates within one batch |
| `Collection.AppendNewAllImages` | app.js:53-72 | appending image files to a list of images leaves only images in the list |
| `Collection.AppendNewIsPrefixPlusArrivals` | app.js:61-72 | the result is the old list followed by exactly the candidates that are new to the list and to the earlier candidates, in input order |
| `Collection.AppendDistinctNew` | app.js:61-72 | pairwise distinct candidates that are all new are appended one for one, in input order |
| `Collection.AppendExistingIsNoOp` | app.js:63-71 | candidates whose identities are all present leave the list unchanged |
| `Collection.SpliceOne` | app.js:123-124 | for `0 <= i < n` the result is `old[..i] + old[i+1..]`; an index at or past the end changes nothing; a negative index removes counting from the end, clamped at the front; no entry is invented |
| `Collection.SpliceOnePreserves` | app.js:123-124 | removal at any index keeps the list duplicate-free and all images |
| `PageLayout.FitToPage` | app.js:188-207 | a landscape image gets the page width and any other image the page height; `finalWidth * imgHeight == finalHeight * imgWidth`; `2*x + finalWidth == pageWidth` and `2*y + finalHeight == pageHeight`; both sizes positive |
| `PageLayout.FitToPageUnique` | app.js:195-207 | those properties determine the layout completely |
| `PageLayout.FilledDimensionDominates` | app.js:195-203 | the filled dimension is the larger drawn dimension |
| `PageLayout.PortraitOverflow` | app.js:199-207 | offsets are not clamped: for an image not wider than tall, `x < 0` exactly when `imgWidth * pageHeight > pageWidth * imgHeight` |
| `PageLayout.LandscapeFitsTallPage` | app.js:195-207 | on a page at least as tall as wide, an image wider than tall lies wholly on the page (`x == 0`, `0 < y`) |
| `PageLayout.LandscapeExample` | app.js:195-207 | 800 x 600 on a 210 x 297 page gives width 210, height 157.5, offsets 0 and 69.75 |
| `PageLayout.PortraitExample` | app.js:199-207 | 600 x 800 on a 210 x 297 page gives height 297, width 222.75, offsets -6.375 and 0 |
| `PdfWriter.Apply` | app.js:162-209 | one writer call adds a page exactly when it is a page break, and that page is blank; an image is appended to the last page and every earlier page is unchanged; a page break or a save leaves all existing pages unchanged |
| `PdfWriter.Render` | app.js:178-209 | a document has one page more than the page breaks in its call trace |
| `PdfWriter.RenderFirstImage` | app.js:179-209 | the first image of a fresh document is alone on its one page (no page break before it) |
| `PdfWriter.RenderBreakThenImage` | app.js:179-209 | a page break followed by an image adds exactly one page holding only that image, leaving earlier pages as they were |
| `PdfWriter.Document.constructor` | app.js:155-156 | a new document has one blank page, no calls and is not saved |
| `PdfWriter.Document.AddPage` | app.js:179-181 | appends a blank page and records the call |
| `PdfWriter.Document.AddImage` | app.js:209 | draws the image on the last page only and records the call |
| `PdfWriter.Document.Save` | app.js:162 | records the file name; pages unchanged |
| `Conversion.Placements` | app.js:188-209 | image `i` is drawn from file `i` with format hint `JPEG` at the fit-to-page layout of its decoded size; one image per file |
| `Conversion.OnePerPage` | app.js:159-213 | the reference document has one page per image, page `i` holding only image `i` |
| `Conversion.StepsRender` | app.js:159-213 | drawing a non-empty list of images in the source's order gives exactly the reference document: one page per image, in order |
| `Conversion.ConversionPages` | app.js:159-221 | a whole conversion, save included, has one page per image in list order and one page break fewer than images |
| `Conversion.ProcessImages` | app.js:157-221 | the page loop issues exactly the conversion trace: per file in order a page break unless it is the first, then the file's image at its fit-to-page layout, then the save under `converted_images.pdf`; the document ends as the reference document |
| `App.Notice.Severity` | app.js:56-225 | the rejected batch and the failed conversion are errors, the added images and the created PDF are successes, and the cleared list is information |
| `App.ContainsIdentity` | app.js:63-67 | the scan answers true exactly when an entry with the same (name, size, lastModified) is in the list |
| `App.Controller.constructor` | app.js:11 | the page starts with an empty list and consistent controls |
| `App.Controller.UpdateImagePreview` | app.js:82-92 | the preview area is shown exactly when the list is non-empty |
| `App.Controller.UpdateButtonStates` | app.js:129-137 | both buttons are disabled exactly when the list is empty |
| `App.Controller.AppendImages` | app.js:61-72 | the list after the push loop is `AppendNew(old list, image files)` |
| `App.Controller.ProcessFiles` | app.js:49-80 | the new list is `AppendNew(old list, image files of the input)`; an empty input changes nothing and gives no notice; an input without images changes nothing and gives an error; otherwise the notice counts every image passed in; the invariant is kept |
| `App.Controller.RemoveImage` | app.js:123-127 | the new list is `splice(index, 1)` of the old; the invariant is kept |
| `App.Controller.ClearAllImages` | app.js:139-144 | the list is empty, both buttons are disabled, the preview is hidden, and an informational notice is raised |
| `App.Controller.ConvertToPdf` | app.js:146-232 | an empty list does nothing. A writer that fails to start is reported and the controls restored. Otherwise a fresh document gets exactly the conversion trace: one page per file in list order, each holding that file's fit-to-page image, saved as `converted_images.pdf`. The list is unchanged and the invariant kept. |

## Left out

- DOM work (app.js:3-47, app.js:94-121, app.js:235-367). This covers element lookup, drag highlighting, thumbnail items and the notification elements with their styling and timers. Only the preview's visibility and the buttons' disabled state are modelled.
- Notification text: notices are a datatype with a severity, not the message strings.
- Asynchrony (FileReader, `Image.onload`, the 500 ms `setTimeout`). The page loop is a sequential loop. Each file's decoded size is a parameter (`dims`), one per file. The model does not capture a list change while a conversion is under way.
- The model claims no order for the preview thumbnails, which appear in whatever order the file reads finish.
- App.Controller.ConvertToPdf: requires both decoded sides positive. The source has no zero guard: a 0 x 0 image gives a 0/0 (NaN) layout, and an image with one zero side gets a zero-width or zero-height layout. Neither case is modelled. It also does not model an error in a file read or image decode, which the source leaves unhandled.
- App.Controller.ConvertToPdf: the failure of the writer's construction, caught at app.js:223-230, is a boolean parameter. Other synchronous throws inside the `try` are not distinguished.
- The writer's page size is a parameter. The writer's default page format and its units are not part of this model. PDF serialisation, image embedding and the format hint's effect are also left out.
- IEEE double rounding: the layout uses exact reals.
- App.Controller.constructor: the buttons' initial disabled state and the hidden preview come from the page markup. That markup is not part of this model, so the constructor sets them to match the empty list.
- Removal through a stale preview index (a thumbnail's remove button captures its position at render time): the model removes by whatever index it is given.

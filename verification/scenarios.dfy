/**
 * Concrete calls: example scenarios of the converter and the edge cases
 * of its name handling.
 */
module Scenarios {
  import opened Wrappers
  import opened JsStrings
  import opened FileNames
  import opened FolderScan
  import opened Converter

  /** A drive on which every external step succeeds and the new file gets `newId`. */
  function Healthy(folderId: string, files: seq<FileRec>, newId: string): Drive
  {
    Drive(map[folderId := files], true, true, _ => true, true, Some(newId))
  }

  /** A dotted name keeps its inner dots when stripped: `a.b.pdf` becomes `a.b`. */
  lemma StripKeepsInnerDots()
    ensures StripExtension("a.b.pdf") == "a.b"
  {
    StripAppendedExtension("a.b", "pdf");
    assert "a.b" + "." + "pdf" == "a.b.pdf";
  }

  /** A name that is only an extension strips to the empty string. */
  lemma StripHiddenName()
    ensures StripExtension(".hidden") == ""
  {
    StripAppendedExtension("", "hidden");
    assert "" + "." + "hidden" == ".hidden";
  }

  /** A trailing dot is not an extension: `x.` is kept whole. */
  lemma StripTrailingDot()
    ensures StripExtension("x.") == "x."
  {
  }

  /** A `/` after the last dot blocks the match: `v1.0/notes` is kept whole. */
  lemma StripSlashAfterDot()
    ensures StripExtension("v1.0/notes") == "v1.0/notes"
  {
    var s := "v1.0/notes";
    forall k: nat ensures !ExtensionAt(s, k) {
      if ExtensionAt(s, k) {
        assert IsStop(s[4]);
      }
    }
  }

  /** `invoice.pdf` strips to `invoice`. */
  lemma InvoiceStripped()
    ensures StripExtension("invoice.pdf") == "invoice"
  {
    StripAppendedExtension("invoice", "pdf");
    assert "invoice" + "." + "pdf" == "invoice.pdf";
  }

  /** `invoice.pdf` is cut to `invoice` at its first dot. */
  lemma InvoiceFirstPiece()
    ensures FirstPiece("invoice.pdf", '.') == "invoice"
  {
  }

  /** Without `"JPEG"` the image for `invoice.pdf` is named `invoice.png`. */
  lemma InvoicePngName()
    ensures OutputName("invoice.pdf", Undefined) == "invoice.png"
  {
    InvoiceFirstPiece();
    assert "invoice" + ".png" == "invoice.png";
  }

  /** With `"JPEG"` the image for `invoice.pdf` is named `invoice.jpg`. */
  lemma InvoiceJpgName()
    ensures OutputName("invoice.pdf", Text("JPEG")) == "invoice.jpg"
  {
    InvoiceFirstPiece();
    assert "invoice" + ".jpg" == "invoice.jpg";
  }

  /** The folder of the invoice scenarios: a PDF and a text file with the same base name. */
  function InvoiceFolder(): seq<FileRec>
  {
    [FileRec("pdf-1", "invoice.pdf", PdfMime), FileRec("txt-1", "invoice.txt", "text/plain")]
  }

  /** The PDF, not the text file, is the match for `invoice`. */
  lemma InvoiceFound()
    ensures FirstMatchAt(InvoiceFolder(), "invoice", 0)
  {
    InvoiceStripped();
  }

  /** Without a format, the invoice PDF becomes a new file `invoice.png`. */
  lemma InvoiceAsPng()
    ensures Convert(Healthy("F", InvoiceFolder(), "X"), "F", "invoice", Undefined)
            == Run(Some("X"), Some(PreviewUrl("pdf-1")), Some(Upload("invoice.png", AsFetched)))
  {
    InvoicePngName();
    InvoiceFound();
    ConvertSucceeds(Healthy("F", InvoiceFolder(), "X"), "F", "invoice", Undefined, 0, "X");
  }

  /** With `"JPEG"`, the invoice PDF becomes a new JPEG file `invoice.jpg`. */
  lemma InvoiceAsJpeg()
    ensures Convert(Healthy("F", InvoiceFolder(), "Y"), "F", "invoice", Text("JPEG"))
            == Run(Some("Y"), Some(PreviewUrl("pdf-1")), Some(Upload("invoice.jpg", Jpeg)))
  {
    InvoiceJpgName();
    InvoiceFound();
    ConvertSucceeds(Healthy("F", InvoiceFolder(), "Y"), "F", "invoice", Text("JPEG"), 0, "Y");
  }

  /** The folder holds only `report.docx`: `null`, no request and no new file. */
  lemma ReportNotFound()
    ensures var files := [FileRec("doc-1", "report.docx", "application/vnd.openxmlformats-officedocument.wordprocessingml.document")];
            Convert(Healthy("F", files, "X"), "F", "report", Undefined) == Nothing
  {
  }

  /** A folder id `getFolderById` cannot open yields `null`, not an exception. */
  lemma UnknownFolderIsNull(files: seq<FileRec>)
    ensures Convert(Healthy("F", files, "X"), "G", "report", Undefined) == Nothing
  {
  }

  /** The fetch of the preview fails: the request was made, but the call
      returns `null` and creates nothing. */
  lemma FetchFailureIsNull()
    ensures var files := [FileRec("pdf-1", "invoice.pdf", PdfMime)];
            var drive := Drive(map["F" := files], true, true, _ => false, true, Some("X"));
            Convert(drive, "F", "invoice", Text("PNG")) == Run(None, Some(PreviewUrl("pdf-1")), None)
  {
    InvoiceStripped();
    var files := [FileRec("pdf-1", "invoice.pdf", PdfMime)];
    var drive := Drive(map["F" := files], true, true, _ => false, true, Some("X"));
    assert FirstMatchAt(files, "invoice", 0);
    ConvertFetchFails(drive, "F", "invoice", Text("PNG"), 0);
  }

  /** `a.b.pdf` matches the title `a.b`, but the image is named `a.png`: the
      output name is cut at the first dot, not at the extension. */
  lemma DottedTitleLosesTail()
    ensures var files := [FileRec("pdf-2", "a.b.pdf", PdfMime)];
            Convert(Healthy("F", files, "X"), "F", "a.b", Undefined).upload == Some(Upload("a.png", AsFetched))
  {
    StripKeepsInnerDots();
    FirstPieceOfJoined("a", '.', "b.pdf");
    assert "a" + ['.'] + "b.pdf" == "a.b.pdf";
    assert "a" + ".png" == "a.png";
    var files := [FileRec("pdf-2", "a.b.pdf", PdfMime)];
    assert FirstMatchAt(files, "a.b", 0);
    ConvertSucceeds(Healthy("F", files, "X"), "F", "a.b", Undefined, 0, "X");
  }

  /** The first match has an empty id: the scan stops there and the call
      returns `null`, although a later file also matches. */
  lemma EmptyIdIsNotFound()
    ensures var files := [FileRec("", "invoice.pdf", PdfMime), FileRec("pdf-2", "invoice.pdf", PdfMime)];
            Convert(Healthy("F", files, "X"), "F", "invoice", Undefined) == Nothing
  {
    InvoiceStripped();
  }
}

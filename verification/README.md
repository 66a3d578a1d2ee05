# PDF-to-image converter, modelled in Dafny

The repository holds two Google Apps Script functions, `convertirPDFAImagen`
(Spanish) and `convertPDFToImage` (English), that do the same thing: look in a
Drive folder for the first PDF whose name without its extension equals a
title, fetch the file's thumbnail preview, optionally re-encode it as JPEG,
and save it as a new Drive file whose id is returned. Every failure, and
"not found", is reported as `null`.

This project models the part of that code that is pure logic, and proves
what it does:

- `JsStrings` — the JavaScript built-ins the code leans on: `split(".")[0]`,
  `indexOf`, and `replace` with a string pattern (first occurrence only).
- `FileNames` — the extension strip `name.replace(/\.[^/.]+$/, '')`, the
  format branch (`outputFormat === "JPEG"`: re-encode as JPEG, or keep the
  fetched preview as it is), and the output name
  `name.split(".")[0] + ".png"`, rewritten to `.jpg` for JPEG.
- `FolderScan` — the file record `(id, name, mime)` and the first-match
  search loop, both as a recursive function and as the `while … break` loop.
- `Converter` — the thumbnail URL, the whole pipeline with the Google
  services replaced by a record of their outcomes (`Drive`), and the two
  entry points with their own default for `outputFormat`.
- `Equivalence` — the two entry points behave identically, including with
  their different defaults (`undefined` and `"PNG"`).
- `Scenarios` — concrete calls: example scenarios (an invoice PDF next to a
  text file of the same name, a folder holding only a Word document, a failed
  fetch) and the name edge cases (`a.b.pdf`, `.hidden`, `x.`, a `/` after the last dot,
  an empty file id).

A call's observable behaviour is a `Run`: the returned value (`None` is
`null`), the preview URL passed to `fetch`, if `fetch` was called, and the
file created, if any (its name, and whether its content is the fetched
preview as is or re-encoded as JPEG).

The code and its doc comment disagree about a folder id `getFolderById`
cannot open: the comment (line 16 of both files) says the function throws,
but the call sits inside the `try`, so the exception is caught and the
function returns `null`. The model follows the code (`UnknownFolderIsNull`).

## Model

| member | source | states |
|---|---|---|
| JsStrings.Split | convertirPDFAImagen.js:57 | `split(".")` gives at least one piece, no piece contains the separator, and joining the pieces with it gives the name back |
| JsStrings.FirstPiece | convertirPDFAImagen.js:57 | `split(".")[0]` is a dot-free prefix of the name, followed by a dot unless it is the whole name |
| JsStrings.FirstPieceOfJoined | convertPDFToImage.js:57 | round trip: for a dot-free `p`, `(p + "." + rest).split(".")[0]` is `p` |
| JsStrings.IndexOf | convertirPDFAImagen.js:60 | the index found is an occurrence of the pattern and no earlier index is; `None` exactly when the pattern never occurs |
| JsStrings.ReplaceFirst | convertirPDFAImagen.js:60 | `replace` with a string pattern returns the string unchanged when the pattern occurs nowhere |
| JsStrings.ReplaceFirstAt | convertirPDFAImagen.js:60 | `replace` with a string pattern splices the replacement in at the first occurrence only |
| FileNames.TailRun | convertirPDFAImagen.js:35 | the longest suffix of characters `[^/.]` accepts: all of it is accepted and the character before it is `.` or `/` |
| FileNames.ExtensionStart | convertirPDFAImagen.js:35 | the regex `\.[^/.]+$` matches at the index returned, and matches nowhere when `None` is returned |
| FileNames.ExtensionAtUnique | convertirPDFAImagen.js:35 | the extension pattern matches a name in at most one place, so the regex match is well defined |
| FileNames.StripExtension | convertirPDFAImagen.js:35 | the stripped name is the text before the matched `.ext`, and the whole name when the pattern matches nowhere |
| FileNames.StripExtensionShape | convertPDFToImage.js:35 | stripping either keeps the name or removes exactly a final `.` plus a non-empty run without `.` or `/` |
| FileNames.StripAppendedExtension | convertPDFToImage.js:35 | round trip: stripping `base + "." + ext`, with `ext` non-empty and free of `.` and `/`, gives `base` |
| FileNames.ResolveFormat | convertirPDFAImagen.js:58 | the JPEG branch is taken exactly when the argument is the string `"JPEG"`; every other value keeps the fetched blob |
| FileNames.OutputName | convertirPDFAImagen.js:57-61 | the output name is the text before the name's first dot plus `.jpg` for exactly `"JPEG"`, and plus `.png` for every other argument |
| FileNames.JpegReplaceHitsSuffix | convertirPDFAImagen.js:60 | `replace(".png", ".jpg")` rewrites the appended suffix and nothing else, because the prefix holds no dot |
| FileNames.OutputNameShape | convertPDFToImage.js:57-61 | the output name, stated without `split`: a dot-free prefix of the original name, cut at its first dot, then `.jpg` or `.png` |
| FolderScan.FindFirst | convertirPDFAImagen.js:33-43 | the index returned holds a PDF whose stripped name is the title and no earlier file does; `None` exactly when no file does |
| FolderScan.FirstMatchUnique | convertPDFToImage.js:39-41 | the first match is unique, so the scan's stop is determined by the files and the title |
| FolderScan.ScanFolder | convertirPDFAImagen.js:30-43 | the loop leaves `fileId` null exactly when no file matches, and otherwise the id of the first matching file |
| Converter.PreviewUrl | convertirPDFAImagen.js:52 | the preview URL is `https://drive.google.com/thumbnail?id=`, the file id, then `&sz=w1000` |
| Converter.UrlRoundTrip | convertirPDFAImagen.js:52 | the file id can be read back out of its preview URL |
| Converter.PreviewUrlInjective | convertPDFToImage.js:52 | different file ids give different preview URLs |
| Converter.Falsy | convertirPDFAImagen.js:46 | `!fileId` holds exactly for `null` and the empty string |
| Converter.Convert | convertirPDFAImagen.js:26-69 | a file is created exactly when an id is returned, and that id is the one `createFile` gave; an unopenable folder, no match or an empty id give `null` with no request and no file; any request is for the first match's preview; any file created is named per the format argument and is re-encoded as JPEG exactly for `"JPEG"` |
| Converter.ConvertSucceeds | convertirPDFAImagen.js:51-65 | when the first match has a non-empty id and every service succeeds, the call requests its preview, creates one file with the output name, re-encoded as JPEG exactly for `"JPEG"`, and returns the new id |
| Converter.ConvertFetchFails | convertPDFToImage.js:53-69 | a failed fetch is caught: the preview was requested, no file is created, and `null` is returned |
| Converter.ConvertTokenFails | convertirPDFAImagen.js:53-54 | a failing `getOAuthToken()` is caught before `fetch` is called: no request, no file, `null` |
| Converter.ConvertirPDFAImagen | convertirPDFAImagen.js:26-70 | returns an id exactly when the folder opens, its first matching PDF has a non-empty id and every later step succeeds; the id is the created file's |
| Converter.ConvertPDFToImage | convertPDFToImage.js:26-70 | the same promise for the English entry point, whose default format is `"PNG"` |
| Equivalence.NonJpegArgumentsAgree | convertPDFToImage.js:57-61 | any two format arguments other than exactly `"JPEG"` give the same return value, request and created file, and that file holds the fetched preview without re-encoding |
| Equivalence.VariantsAgree | convertPDFToImage.js:26-70 | with the same arguments the two entry points return the same value |
| Equivalence.DefaultsAgree | convertPDFToImage.js:26 | called without a format, the `undefined` and `"PNG"` defaults give the same call |
| Scenarios.StripKeepsInnerDots | convertirPDFAImagen.js:35 | `a.b.pdf` strips to `a.b` |
| Scenarios.StripHiddenName | convertirPDFAImagen.js:35 | `.hidden` strips to the empty string |
| Scenarios.StripTrailingDot | convertirPDFAImagen.js:35 | `x.` is left unchanged |
| Scenarios.StripSlashAfterDot | convertirPDFAImagen.js:35 | a `/` after the last dot blocks the match: `v1.0/notes` is left unchanged |
| Scenarios.InvoiceAsPng | convertirPDFAImagen.js:33-65 | with `invoice.pdf` and `invoice.txt` in the folder, the PDF is used and the new file, holding the fetched preview, is `invoice.png` |
| Scenarios.InvoiceAsJpeg | convertPDFToImage.js:57-65 | asked for `"JPEG"`, the same folder yields a JPEG file `invoice.jpg` |
| Scenarios.ReportNotFound | convertirPDFAImagen.js:46-49 | a folder holding only `report.docx` gives `null`, no request and no file |
| Scenarios.UnknownFolderIsNull | convertirPDFAImagen.js:27-28 | a folder id that cannot be opened gives `null`, not an exception |
| Scenarios.FetchFailureIsNull | convertPDFToImage.js:53-69 | a failed preview fetch gives `null` and creates nothing |
| Scenarios.DottedTitleLosesTail | convertirPDFAImagen.js:57 | `a.b.pdf` matches the title `a.b`, yet the new file is named `a.png` |
| Scenarios.EmptyIdIsNotFound | convertirPDFAImagen.js:46 | a first match with an empty id counts as not found, even when a later file also matches |

## Left out

- The Google services (`DriveApp`, `UrlFetchApp`, `ScriptApp.getOAuthToken`) are foreign calls; their outcomes for one call are the fields of `Drive`: the listings of the folders that can be opened, and whether the lookup, the OAuth token request, the fetch of a given URL, the JPEG re-encoding and the upload succeed, the last with the new file's id.
- The bearer token's value and the request headers are not modelled; only whether obtaining the token succeeds, and the URL passed to `fetch`.
- Image content is opaque: the fetched blob and its `getAs("image/jpeg")` re-encoding are reduced to whether they succeed and a tag on the created file. The tag `AsFetched` means the thumbnail bytes exactly as the endpoint returned them, saved under a `.png` name; the code never encodes anything as PNG, so the model does not claim the file is a PNG image.
- `Logger.log` messages are side effects with no bearing on the result and are left out, so the two files' different log texts do not appear.
- The order in which Drive enumerates a folder is host-defined; the model takes the listing as a sequence in that order.
- `getFileById` is assumed to return the file the scan found (Drive ids are unique), so the output name is taken from that file's record.
- Calls are not idempotent (each success creates another file); that is a property of the storage service, so repeated calls are not modelled.
- `outputFormat` is modelled as `undefined` or a string; any other JavaScript value fails `=== "JPEG"` exactly as `undefined` does.
- An exception thrown while iterating the folder listing (`hasNext`/`next`) is not modelled separately; it would be caught like the others.

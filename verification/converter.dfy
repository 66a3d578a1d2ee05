/**
 * The conversion pipeline shared by `convertirPDFAImagen` and
 * `convertPDFToImage`: scan the folder, stop when nothing (or an empty id)
 * was found, build the thumbnail URL, fetch it, pick the output name and
 * format, upload, and turn every caught exception into `null`.
 *
 * The Google services are not modelled; `Drive` records, for one call,
 * which of them succeed and what they return.
 */
module Converter {
  import opened Wrappers
  import opened JsStrings
  import opened FileNames
  import opened FolderScan

  /** The fixed text around the file id in the thumbnail URL. */
  const ThumbnailPrefix: string := "https://drive.google.com/thumbnail?id="
  const ThumbnailSuffix: string := "&sz=w1000"

  /** The preview URL requested for the file with id `fileId`. */
  function PreviewUrl(fileId: string): (url: string)
    ensures |url| == |ThumbnailPrefix| + |fileId| + |ThumbnailSuffix|
    ensures url[..|ThumbnailPrefix|] == ThumbnailPrefix
    ensures url[|ThumbnailPrefix|..|ThumbnailPrefix| + |fileId|] == fileId
    ensures url[|ThumbnailPrefix| + |fileId|..] == ThumbnailSuffix
  {
    ThumbnailPrefix + fileId + ThumbnailSuffix
  }

  /** Reads the file id back out of a thumbnail URL; `None` for any other text. */
  function UrlFileId(url: string): (r: Option<string>)
  {
    var lo := |ThumbnailPrefix|;
    if |url| >= lo + |ThumbnailSuffix|
       && url[..lo] == ThumbnailPrefix
       && url[|url| - |ThumbnailSuffix|..] == ThumbnailSuffix
    then Some(url[lo..|url| - |ThumbnailSuffix|])
    else None
  }

  /** Round trip: the id can be recovered from its preview URL. */
  lemma UrlRoundTrip(fileId: string)
    ensures UrlFileId(PreviewUrl(fileId)) == Some(fileId)
  {
  }

  /** Distinct files are fetched from distinct URLs. */
  lemma PreviewUrlInjective(a: string, b: string)
    requires PreviewUrl(a) == PreviewUrl(b)
    ensures a == b
  {
  }

  /** The outcomes of the external calls for one invocation.
      - `folders`: the listing of every folder `getFolderById` can open; any other id throws.
      - `lookupOk`: `getFileById` on the found id succeeds (it returns the file the scan found).
      - `tokenOk`: `ScriptApp.getOAuthToken()` succeeds; it runs while the fetch's
        arguments are built, so when it throws no request is made.
      - `fetchOk`: whether the authorised `fetch` of a URL, and `getBlob` on its response, succeed.
      - `jpegOk`: whether re-encoding the blob with `getAs("image/jpeg")` succeeds.
      - `created`: the id `createFile` gives the new file, or `None` when it throws. */
  datatype Drive = Drive(
    folders: map<string, seq<FileRec>>,
    lookupOk: bool,
    tokenOk: bool,
    fetchOk: string -> bool,
    jpegOk: bool,
    created: Option<string>)

  /** The file the call creates: its name and whether its content is the
      fetched preview as is or that preview re-encoded as JPEG. */
  datatype Upload = Upload(name: string, format: ImageFormat)

  /** What one call does: the value it returns (`None` is `null`), the URL it
      passed to `fetch`, if `fetch` was called, and the file it created, if any. */
  datatype Run = Run(result: Option<string>, request: Option<string>, upload: Option<Upload>)

  /** The "not found" and "error caught" outcome: `null`, and no file created. */
  const Nothing: Run := Run(None, None, None)

  /** `!fileId` holds for `null` and for the empty string. */
  function Falsy(fileId: Option<string>): (b: bool)
    ensures b <==> (fileId == None || fileId == Some(""))
  {
    fileId.None? || fileId.value == ""
  }

  /** The body of either entry point, for the folder `folderId`, the title and the format argument. */
  function Convert(drive: Drive, folderId: string, title: string, fmt: FormatArg): (run: Run)
    ensures run.result.Some? <==> run.upload.Some?
    ensures run.result.Some? ==> run.result == drive.created
    ensures folderId !in drive.folders ==> run == Nothing
    ensures folderId in drive.folders && Falsy(FoundId(drive.folders[folderId], title)) ==> run == Nothing
    ensures run.request.Some? ==>
              && folderId in drive.folders
              && exists i: nat :: FirstMatchAt(drive.folders[folderId], title, i)
                                  && drive.folders[folderId][i].id != ""
                                  && run.request.value == PreviewUrl(drive.folders[folderId][i].id)
    ensures run.upload.Some? ==>
              && run.request.Some?
              && folderId in drive.folders
              && exists i: nat :: FirstMatchAt(drive.folders[folderId], title, i)
                                  && run.upload.value == Upload(OutputName(drive.folders[folderId][i].name, fmt), ResolveFormat(fmt))
  {
    if folderId !in drive.folders then Nothing
    else
      var files := drive.folders[folderId];
      match FindFirst(files, title)
      case None => Nothing
      case Some(i) =>
        var f := files[i];
        if f.id == "" || !drive.lookupOk then Nothing
        else
          var url := PreviewUrl(f.id);
          if !drive.tokenOk then Nothing
          else if !drive.fetchOk(url) then Run(None, Some(url), None)
          else
            var name := OutputName(f.name, fmt);
            var format := ResolveFormat(fmt);
            if format == Jpeg && !drive.jpegOk then Run(None, Some(url), None)
            else
              match drive.created
              case None => Run(None, Some(url), None)
              case Some(newId) => Run(Some(newId), Some(url), Some(Upload(name, format)))
  }

  /** The success path: once the first match has a non-empty id and every
      external step succeeds, the call requests that file's preview, creates
      one file named and encoded per the format argument, and returns its id. */
  lemma ConvertSucceeds(drive: Drive, folderId: string, title: string, fmt: FormatArg, i: nat, newId: string)
    requires folderId in drive.folders
    requires FirstMatchAt(drive.folders[folderId], title, i)
    requires drive.folders[folderId][i].id != ""
    requires drive.lookupOk && drive.tokenOk && drive.fetchOk(PreviewUrl(drive.folders[folderId][i].id))
    requires fmt == Text("JPEG") ==> drive.jpegOk
    requires drive.created == Some(newId)
    ensures var f := drive.folders[folderId][i];
            Convert(drive, folderId, title, fmt)
            == Run(Some(newId), Some(PreviewUrl(f.id)), Some(Upload(OutputName(f.name, fmt), ResolveFormat(fmt))))
  {
  }

  /** A failed fetch: the preview was requested, nothing was created, `null` is returned. */
  lemma ConvertFetchFails(drive: Drive, folderId: string, title: string, fmt: FormatArg, i: nat)
    requires folderId in drive.folders
    requires FirstMatchAt(drive.folders[folderId], title, i)
    requires drive.folders[folderId][i].id != "" && drive.lookupOk && drive.tokenOk
    requires !drive.fetchOk(PreviewUrl(drive.folders[folderId][i].id))
    ensures Convert(drive, folderId, title, fmt)
            == Run(None, Some(PreviewUrl(drive.folders[folderId][i].id)), None)
  {
  }

  /** A failed token request: it happens before `fetch` is called, so no
      request is made, nothing is created, and `null` is returned. */
  lemma ConvertTokenFails(drive: Drive, folderId: string, title: string, fmt: FormatArg)
    requires !drive.tokenOk
    ensures Convert(drive, folderId, title, fmt) == Nothing
  {
  }

  /** When a call returns an id: the folder opened, its first matching PDF has
      a non-empty id, and every later step succeeded. */
  ghost predicate Succeeds(drive: Drive, folderId: string, title: string, fmt: FormatArg)
  {
    && folderId in drive.folders
    && exists i: nat :: FirstMatchAt(drive.folders[folderId], title, i)
                        && drive.folders[folderId][i].id != ""
                        && drive.lookupOk
                        && drive.tokenOk
                        && drive.fetchOk(PreviewUrl(drive.folders[folderId][i].id))
                        && (fmt == Text("JPEG") ==> drive.jpegOk)
                        && drive.created.Some?
  }

  /** `convertirPDFAImagen(folderImageId, titulo, outputFormat = undefined)`. */
  function ConvertirPDFAImagen(drive: Drive, folderImageId: string, titulo: string,
                               outputFormat: FormatArg := Undefined): (r: Option<string>)
    ensures r.Some? <==> Succeeds(drive, folderImageId, titulo, outputFormat)
    ensures r.Some? ==> r == drive.created
  {
    Convert(drive, folderImageId, titulo, outputFormat).result
  }

  /** `convertPDFToImage(folderImageId, title, outputFormat = "PNG")`. */
  function ConvertPDFToImage(drive: Drive, folderImageId: string, title: string,
                             outputFormat: FormatArg := Text("PNG")): (r: Option<string>)
    ensures r.Some? <==> Succeeds(drive, folderImageId, title, outputFormat)
    ensures r.Some? ==> r == drive.created
  {
    Convert(drive, folderImageId, title, outputFormat).result
  }
}

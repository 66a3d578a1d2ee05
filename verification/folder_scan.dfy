/**
 * The search loop of the converter: walk the folder's files in enumeration
 * order and stop at the first PDF whose name, without its extension, equals
 * the requested title.
 */
module FolderScan {
  import opened Wrappers
  import opened FileNames

  /** What the loop reads from each Drive file: `getId()`, `getName()`, `getMimeType()`. */
  datatype FileRec = FileRec(id: string, name: string, mime: string)

  /** The only MIME type in the list of accepted types. */
  const PdfMime: string := "application/pdf"

  /** The loop's condition: the MIME type is in the accepted list and the
      extension-stripped name is exactly the title. */
  predicate Matches(f: FileRec, title: string)
  {
    f.mime == PdfMime && StripExtension(f.name) == title
  }

  /** Index `i` is where the scan stops: file `i` matches and no earlier file does. */
  predicate FirstMatchAt(files: seq<FileRec>, title: string, i: nat)
  {
    && i < |files|
    && Matches(files[i], title)
    && forall j :: 0 <= j < i ==> !Matches(files[j], title)
  }

  /** The position of the first matching file, or `None` when no file matches. */
  function FindFirst(files: seq<FileRec>, title: string): (r: Option<nat>)
    ensures r.Some? ==> FirstMatchAt(files, title, r.value)
    ensures r.None? <==> forall j :: 0 <= j < |files| ==> !Matches(files[j], title)
  {
    if |files| == 0 then None
    else if Matches(files[0], title) then Some(0)
    else
      match FindFirst(files[1..], title)
      case None => None
      case Some(i) => Some(i + 1)
  }

  /** At most one index is the first match. */
  lemma FirstMatchUnique(files: seq<FileRec>, title: string, a: nat, b: nat)
    requires FirstMatchAt(files, title, a) && FirstMatchAt(files, title, b)
    ensures a == b
  {
  }

  /** The `fileId` the loop leaves behind: the id of the first match, or `null`. */
  function FoundId(files: seq<FileRec>, title: string): Option<string>
  {
    match FindFirst(files, title)
    case None => None
    case Some(i) => Some(files[i].id)
  }

  /** The `while (hasNext()) { … break; }` loop itself, starting from `fileId = null`. */
  method ScanFolder(files: seq<FileRec>, title: string) returns (fileId: Option<string>)
    ensures fileId.None? <==> forall j :: 0 <= j < |files| ==> !Matches(files[j], title)
    ensures forall i: nat :: FirstMatchAt(files, title, i) ==> fileId == Some(files[i].id)
    ensures fileId == FoundId(files, title)
  {
    fileId := None;
    var k := 0;
    while k < |files|
      invariant 0 <= k <= |files|
      invariant forall j :: 0 <= j < k ==> !Matches(files[j], title)
      invariant fileId.None?
    {
      var f := files[k];
      if f.mime == PdfMime && StripExtension(f.name) == title {
        fileId := Some(f.id);
        break;
      }
      k := k + 1;
    }
    if fileId.Some? {
      FirstMatchUnique(files, title, k, FindFirst(files, title).value);
    }
  }
}

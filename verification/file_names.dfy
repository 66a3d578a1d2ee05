/**
 * The pure file-name logic of the converter: removing a file's extension
 * with the regular expression `/\.[^/.]+$/` before comparing it with the
 * requested title, and deriving the name of the image file it uploads.
 */
module FileNames {
  import opened Wrappers
  import opened JsStrings

  /** A character the class `[^/.]` does not accept. */
  predicate IsStop(ch: char)
  {
    ch == '.' || ch == '/'
  }

  /** The regular expression `\.[^/.]+$` matches `s` starting at index `k`:
      a dot, then at least one character, none of them `.` or `/`, up to the
      end of the string. */
  predicate ExtensionAt(s: string, k: nat)
  {
    && k + 1 < |s|
    && s[k] == '.'
    && forall j :: k < j < |s| ==> !IsStop(s[j])
  }

  /** Length of the longest suffix of `s` made only of characters that `[^/.]` accepts. */
  function TailRun(s: string): (n: nat)
    ensures n <= |s|
    ensures forall j :: |s| - n <= j < |s| ==> !IsStop(s[j])
    ensures n < |s| ==> IsStop(s[|s| - n - 1])
  {
    if |s| == 0 || IsStop(s[|s| - 1]) then 0
    else 1 + TailRun(s[..|s| - 1])
  }

  /** Where the extension pattern matches, if it matches at all. The match must
      end at the end of the string and its character run cannot contain a dot,
      so the only candidate is the dot just before the maximal tail run. */
  function ExtensionStart(s: string): (r: Option<nat>)
    ensures r.Some? ==> ExtensionAt(s, r.value)
    ensures r.None? ==> forall k: nat :: !ExtensionAt(s, k)
  {
    var n := TailRun(s);
    if 0 < n < |s| && s[|s| - n - 1] == '.' then
      Some(|s| - n - 1)
    else
      None
  }

  /** The pattern matches a string in at most one place. */
  lemma ExtensionAtUnique(s: string, a: nat, b: nat)
    requires ExtensionAt(s, a) && ExtensionAt(s, b)
    ensures a == b
  {
  }

  /** `name.replace(/\.[^/.]+$/, '')`: drops a final `.ext` when `ext` is
      non-empty and holds neither `.` nor `/`; otherwise `name` is kept whole. */
  function StripExtension(name: string): (r: string)
    ensures forall k: nat :: ExtensionAt(name, k) ==> r == name[..k]
    ensures (forall k: nat :: !ExtensionAt(name, k)) ==> r == name
  {
    match ExtensionStart(name)
    case Some(k) =>
      forall k' | ExtensionAt(name, k') ensures k' == k {
        ExtensionAtUnique(name, k, k');
      }
      name[..k]
    case None => name
  }

  /** Round trip: stripping the extension just appended to a base name gives the base back. */
  lemma StripAppendedExtension(base: string, ext: string)
    requires |ext| > 0
    requires forall j :: 0 <= j < |ext| ==> !IsStop(ext[j])
    ensures StripExtension(base + "." + ext) == base
  {
    var s := base + "." + ext;
    assert ExtensionAt(s, |base|) by {
      forall j | |base| < j < |s| ensures !IsStop(s[j]) {
        assert s[j] == ext[j - |base| - 1];
      }
    }
    assert s[..|base|] == base;
  }

  /** Stripping either keeps the name or removes exactly a matched extension. */
  lemma StripExtensionShape(name: string)
    ensures StripExtension(name) == name
            || (|StripExtension(name)| < |name| && ExtensionAt(name, |StripExtension(name)|)
                && name[..|StripExtension(name)|] == StripExtension(name))
  {
  }

  /** The value passed as `outputFormat`: JavaScript `undefined` or a string. */
  datatype FormatArg = Undefined | Text(s: string)

  /** What the uploaded blob holds: the thumbnail bytes exactly as fetched
      (no re-encoding takes place; the file is merely named `.png`), or those
      bytes re-encoded by `getAs("image/jpeg")`. */
  datatype ImageFormat = AsFetched | Jpeg

  /** `outputFormat === "JPEG"` selects JPEG re-encoding; every other value,
      `undefined`, `"PNG"`, `"jpeg"` or `"gif"` alike, keeps the fetched blob. */
  function ResolveFormat(arg: FormatArg): (f: ImageFormat)
    ensures f == Jpeg <==> arg == Text("JPEG")
  {
    if arg == Text("JPEG") then Jpeg else AsFetched
  }

  /** The file-name suffix written for each choice: `.png` for the blob as fetched. */
  function Suffix(f: ImageFormat): string
  {
    match f
    case AsFetched => ".png"
    case Jpeg => ".jpg"
  }

  /** The uploaded image's name: `name.split(".")[0] + ".png"`, and for
      `"JPEG"` that string with its first `".png"` replaced by `".jpg"`. */
  function OutputName(name: string, arg: FormatArg): (r: string)
    ensures r == FirstPiece(name, '.') + Suffix(ResolveFormat(arg))
  {
    var png := FirstPiece(name, '.') + ".png";
    if arg == Text("JPEG") then
      JpegReplaceHitsSuffix(FirstPiece(name, '.'));
      ReplaceFirst(png, ".png", ".jpg")
    else
      png
  }

  /** The first `".png"` in `prefix + ".png"` is the appended one, because the
      prefix holds no dot; so the replacement only rewrites the suffix. */
  lemma JpegReplaceHitsSuffix(prefix: string)
    requires Free(prefix, '.')
    ensures ReplaceFirst(prefix + ".png", ".png", ".jpg") == prefix + ".jpg"
  {
    var s := prefix + ".png";
    assert OccursAt(s, ".png", |prefix|) by {
      assert s[|prefix|..|prefix| + 4] == ".png";
    }
    forall j | 0 <= j < |prefix| ensures !OccursAt(s, ".png", j) {
      assert s[j] == prefix[j] != '.';
    }
    ReplaceFirstAt(s, ".png", ".jpg", |prefix|);
    assert s[..|prefix|] == prefix;
    assert s[|prefix| + 4..] == [];
  }

  /** What the output name is, stated without `split`: a dot-free prefix of the
      original name, cut at its first dot, followed by the format's suffix. */
  lemma OutputNameShape(name: string, arg: FormatArg)
    ensures var r := OutputName(name, arg);
            var n := |r| - 4;
            && |r| >= 4
            && r[n..] == (if arg == Text("JPEG") then ".jpg" else ".png")
            && n <= |name| && r[..n] == name[..n]
            && (forall i :: 0 <= i < n ==> name[i] != '.')
            && (n < |name| ==> name[n] == '.')
  {
  }
}

/**
 * The two entry points differ only in their default `outputFormat`
 * (`undefined` in `convertirPDFAImagen`, `"PNG"` in `convertPDFToImage`)
 * and in log text. These lemmas show that they behave identically.
 */
module Equivalence {
  import opened Wrappers
  import opened FileNames
  import opened Converter

  /** Every format argument other than exactly `"JPEG"` leads to the same call:
      same return value, same request, same created file. */
  lemma NonJpegArgumentsAgree(drive: Drive, folderId: string, title: string, a: FormatArg, b: FormatArg)
    requires a != Text("JPEG") && b != Text("JPEG")
    ensures Convert(drive, folderId, title, a) == Convert(drive, folderId, title, b)
    ensures Convert(drive, folderId, title, a).upload.Some? ==>
              Convert(drive, folderId, title, a).upload.value.format == AsFetched
  {
  }

  /** Called with the same arguments, the two variants return the same value. */
  lemma VariantsAgree(drive: Drive, folderId: string, title: string, fmt: FormatArg)
    ensures ConvertirPDFAImagen(drive, folderId, title, fmt) == ConvertPDFToImage(drive, folderId, title, fmt)
    ensures ConvertirPDFAImagen(drive, folderId, title, fmt).Some? ==>
              ConvertPDFToImage(drive, folderId, title, fmt) == drive.created
  {
  }

  /** Called without a format, the variants agree: the `undefined` default and
      the `"PNG"` default both skip the JPEG branch and create the same file. */
  lemma DefaultsAgree(drive: Drive, folderId: string, title: string)
    ensures ConvertirPDFAImagen(drive, folderId, title) == ConvertPDFToImage(drive, folderId, title)
    ensures Convert(drive, folderId, title, Undefined) == Convert(drive, folderId, title, Text("PNG"))
  {
  }
}

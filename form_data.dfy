/** The multipart form values the API routes read. */
module FormData {

  import opened Outcomes

  newtype byte = x: int | 0 <= x < 256

  /** An uploaded `File`: its MIME type, its bytes, and what `file.text()`
      yields for it (the UTF-8 decoding of the bytes, not modelled here). */
  datatype UploadedFile = UploadedFile(mimeType: string, bytes: seq<byte>, text: string)

  /** A form entry is either a string or a file. */
  datatype FormEntry = TextEntry(value: string) | FileEntry(file: UploadedFile)

  /** `(formData.get(name) as string) || ""` for a field sent as text. */
  function TextOrEmpty(field: Option<string>): (r: string)
    ensures field.Some? ==> r == field.value
    ensures field.None? ==> r == ""
  {
    if field.Some? then field.value else ""
  }

  /** The value of a field when it was sent as a string, else "": the
      `value && typeof value === "string"` test on the resume field. */
  function TextEntryOrEmpty(entry: Option<FormEntry>): (r: string)
    ensures entry.Some? && entry.value.TextEntry? ==> r == entry.value.value
    ensures entry.None? || entry.value.FileEntry? ==> r == ""
  {
    if entry.Some? && entry.value.TextEntry? then entry.value.value else ""
  }

  /** What `await request.formData()` gives: the form, or the exception it
      throws for a body that is not a form, with its `Error` message if any. */
  datatype FormRead<T> = Read(fields: T) | Unreadable(message: Option<string>)

  const UnknownError: string := "Unknown error"

  /** `error instanceof Error ? error.message : "Unknown error"` */
  function ErrorMessage(message: Option<string>): (r: string)
    ensures message.Some? ==> r == message.value
    ensures message.None? ==> r == UnknownError
  {
    if message.Some? then message.value else UnknownError
  }
}

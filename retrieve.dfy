/** The `retrieveData` server action: a point lookup and the shaping of its result. */
module RetrieveAction {
  import opened Js
  import opened ShareStore
  import opened UploadAction

  /** The `type` field of the reply: "text" or "file". */
  datatype Kind = TextKind | FileKind

  /** The object `retrieveData` returns: `{ type, content, fileName, fileUrl }`. */
  datatype Shared = Shared(kind: Kind, content: string, fileName: Option<string>, fileUrl: Option<string>)

  /** The reply built from a stored row. */
  function Shape(row: Row): (s: Shared)
    ensures s.kind == FileKind <==> Truthy(row.fileUrl)
    ensures s.fileUrl.Some? <==> s.kind == FileKind
    ensures s.fileName.Some? <==> s.kind == FileKind
    ensures s.fileUrl.Some? ==> s.fileUrl == row.fileUrl && s.fileUrl.value != ""
    ensures s.fileName.Some? ==> s.fileName.value != ""
    ensures s.fileName.Some? ==> s.fileName == (if Truthy(row.publicId) then row.publicId else Some("file"))
    ensures Truthy(row.text) ==> s.content == row.text.value
    ensures !Truthy(row.text) ==> s.content == ""
  {
    Shared(
      if Truthy(row.fileUrl) then FileKind else TextKind,
      OrElse(row.text, ""),
      if Truthy(row.fileUrl) then Some(OrElse(row.publicId, "file")) else None,
      OrNull(row.fileUrl))
  }

  /**
   * `retrieveData(code)`: null when no row has the code, otherwise the shaped row.
   * There is no clock: the row's `expiresAt` is neither checked nor returned.
   */
  function RetrieveData(rows: map<string, Row>, code: string): (r: Option<Shared>)
    ensures r.None? <==> code !in rows
    ensures r.Some? ==> r.value == Shape(rows[code])
  {
    if code in rows then Some(Shape(rows[code])) else None
  }

  /**
   * A row whose expiry time has passed is still returned, shaped like any present row
   * (the reply never carries `expiresAt`). It holds because `RetrieveData` takes no clock.
   */
  lemma ExpiredRowStillReturned(rows: map<string, Row>, code: string, now: int)
    requires code in rows && rows[code].expiresAt <= now
    ensures RetrieveData(rows, code) == Some(Shape(rows[code]))
  {
  }

  /** Text shared without a file comes back as "text" with the stored text. */
  lemma TextRoundTrip(rows: map<string, Row>, code: string, text: Option<string>, now: int)
    ensures RetrieveData(rows[code := NewRow(text, None, now)], code)
         == Some(Shared(TextKind, if text.Some? then text.value else "", None, None))
  {
  }

  /** An uploaded image comes back as "file" with its URL, named by its public id or "file". */
  lemma ImageRoundTrip(rows: map<string, Row>, code: string, text: Option<string>, blob: Blob, now: int)
    requires blob.secureUrl != ""
    ensures RetrieveData(rows[code := NewRow(text, Some(blob), now)], code)
         == Some(Shared(FileKind, if text.Some? then text.value else "",
                        Some(if blob.publicId != "" then blob.publicId else "file"),
                        Some(blob.secureUrl)))
  {
  }

  /** A file payload that is not an image data URL is dropped: the share reads back as text. */
  lemma NonImageFileDropped(rows: map<string, Row>, code: string, text: Option<string>,
                            fileData: Option<string>, outcome: BlobOutcome, now: int)
    requires !IsImageDataUrl(fileData)
    ensures RetrieveData(rows[code := NewRow(text, UploadedBlob(fileData, outcome), now)], code)
         == Some(Shared(TextKind, if text.Some? then text.value else "", None, None))
  {
  }

  /** Inserting a row under one code leaves the lookup of every other code as it was. */
  lemma InsertLeavesOtherLookups(rows: map<string, Row>, code: string, row: Row, other: string)
    requires other != code
    ensures RetrieveData(rows[code := row], other) == RetrieveData(rows, other)
  {
  }
}

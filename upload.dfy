/** The `uploadData` server action: draw a free share code, upload an image, insert the row. */
module UploadAction {
  import opened Js
  import opened Decimal
  import opened ShareStore

  /** Lifetime of a share record: two hours, in milliseconds. */
  const TwoHoursMs: int := 2 * 60 * 60 * 1000

  const MinCode: int := 1000
  const MaxCode: int := 9999

  /** What the blob store returns for a stored file: `secure_url` and `public_id`. */
  datatype Blob = Blob(secureUrl: string, publicId: string)

  /** The outcome of the blob-store upload call. */
  datatype BlobOutcome = Uploaded(blob: Blob) | UploadFailed(message: string)

  /** The integers from lo to hi, both included. */
  ghost function Interval(lo: int, hi: int): (s: set<int>)
    ensures forall n :: n in s <==> lo <= n <= hi
    decreases hi - lo
  {
    if lo > hi then {} else {lo} + Interval(lo + 1, hi)
  }

  /** The candidates the draw can produce. */
  ghost function CodeRange(): set<int> {
    Interval(MinCode, MaxCode)
  }

  /** Some candidate code is not yet a key of the table. */
  ghost predicate HasFreeCode(rows: map<string, Row>) {
    exists n :: MinCode <= n <= MaxCode && DecimalString(n) !in rows
  }

  /** A code as `uploadData` issues it: four digits, the first not zero. */
  predicate IsIssuedCode(code: string) {
    |code| == 4 && AllDigits(code) && code[0] != '0'
  }

  /** The guard that decides whether the file payload goes to the blob store. */
  predicate IsImageDataUrl(fileData: Option<string>)
    ensures IsImageDataUrl(fileData) <==>
              fileData.Some? && |fileData.value| >= 10 && fileData.value[..10] == "data:image"
  {
    fileData.Some? && fileData.value != "" && "data:image" <= fileData.value
  }

  /** The blob stored with the row: present only after an image was uploaded. */
  function UploadedBlob(fileData: Option<string>, outcome: BlobOutcome): (b: Option<Blob>)
    ensures fileData.None? ==> b.None?
    ensures b.Some? ==> IsImageDataUrl(fileData) && outcome == Uploaded(b.value)
    ensures IsImageDataUrl(fileData) && outcome.Uploaded? ==> b.Some?
  {
    if IsImageDataUrl(fileData) && outcome.Uploaded? then Some(outcome.blob) else None
  }

  /** The row `uploadData` inserts for the given text, blob and clock reading. */
  function NewRow(text: Option<string>, blob: Option<Blob>, now: int): (row: Row)
    ensures row.text.Some? && (Truthy(text) ==> row.text == text) && (!Truthy(text) ==> row.text == Some(""))
    ensures row.fileUrl.Some? <==> blob.Some?
    ensures row.publicId.Some? <==> blob.Some?
    ensures blob.Some? ==> row.fileUrl.value == blob.value.secureUrl && row.publicId.value == blob.value.publicId
    ensures row.expiresAt - now == TwoHoursMs
  {
    Row(
      Some(OrElse(text, "")),
      if blob.Some? then Some(blob.value.secureUrl) else None,
      if blob.Some? then Some(blob.value.publicId) else None,
      now + TwoHoursMs)
  }

  /** The message of the error thrown when the blob upload fails. */
  function UploadErrorMessage(message: string): (m: string)
    ensures |m| == 23 + |message|
    ensures m[..23] == "Failed to upload file: " && m[23..] == message
  {
    "Failed to upload file: " + message
  }

  /** Every drawn integer prints as an issued code. */
  lemma DrawnCodeIsIssued(n: int)
    requires MinCode <= n <= MaxCode
    ensures IsIssuedCode(DecimalString(n))
  {
    assert Pow10(3) == 1000 && Pow10(4) == 10000;
    DecimalLength(n, 3);
  }

  /** The stored text is the input text, or "" when it is empty or missing. */
  lemma StoredText(text: Option<string>, blob: Option<Blob>, now: int)
    ensures NewRow(text, blob, now).text == Some(if text.Some? then text.value else "")
  {
  }

  /** The numerals of the integers in [lo, hi): one distinct code per integer. */
  ghost function PrintedCodes(lo: nat, hi: nat): (s: set<string>)
    ensures forall c :: c in s ==> AllDigits(c) && lo <= DecimalValue(c) < hi && c == DecimalString(DecimalValue(c))
    ensures |s| == if hi <= lo then 0 else hi - lo
    decreases hi - lo
  {
    if hi <= lo then {}
    else
      DecimalRoundTrip(hi - 1);
      PrintedCodes(lo, hi - 1) + {DecimalString(hi - 1)}
  }

  /** A set larger than another has an element outside it. */
  lemma ElementOutside<T>(a: set<T>, b: set<T>)
    requires |b| < |a|
    ensures exists x :: x in a && x !in b
  {
    var inside := a * b;
    assert b == inside + (b - inside);
    assert a == (a - b) + inside;
  }

  /** While fewer than 9000 rows exist some candidate is free, so the draw loop can end. */
  lemma FreeCodeBelowCapacity(rows: map<string, Row>)
    requires |rows| < MaxCode - MinCode + 1
    ensures HasFreeCode(rows)
  {
    var printed := PrintedCodes(MinCode, MaxCode + 1);
    ElementOutside(printed, rows.Keys);
    var c :| c in printed && c !in rows.Keys;
    assert DecimalString(DecimalValue(c)) !in rows;
  }

  /**
   * `uploadData(text, fileData)`. Draws codes until the table has no row under the
   * drawn one, uploads the payload to the blob store only when it is an image data URL,
   * and inserts one row that expires two hours after `now`.
   */
  method UploadData(db: Clipboard, text: Option<string>, fileData: Option<string>,
                    outcome: BlobOutcome, now: int) returns (r: Result<string>)
    requires HasFreeCode(db.rows)
    modifies db
    ensures r.Err? <==> IsImageDataUrl(fileData) && outcome.UploadFailed?
    ensures r.Err? ==> r.message == UploadErrorMessage(outcome.message) && db.rows == old(db.rows)
    ensures r.Ok? ==> IsIssuedCode(r.value) && r.value !in old(db.rows)
    ensures r.Ok? ==> db.rows == old(db.rows)[r.value := NewRow(text, UploadedBlob(fileData, outcome), now)]
  {
    ghost var free :| MinCode <= free <= MaxCode && DecimalString(free) !in db.rows;
    var n :| MinCode <= n <= MaxCode;
    var code := DecimalString(n);
    var tried := {n};
    while db.FindUnique(code).Some?
      invariant MinCode <= n <= MaxCode && code == DecimalString(n) && n in tried
      invariant tried <= CodeRange()
      invariant forall t :: t in tried && t != n ==> DecimalString(t) in db.rows
      invariant free !in tried || free == n
      decreases CodeRange() - tried
    {
      n :| MinCode <= n <= MaxCode && n !in tried;
      code := DecimalString(n);
      tried := tried + {n};
    }
    DrawnCodeIsIssued(n);

    var blob: Option<Blob> := None;
    if fileData.Some? && fileData.value != "" && "data:image" <= fileData.value {
      match outcome
      case Uploaded(b) =>
        blob := Some(b);
      case UploadFailed(message) =>
        return Err(UploadErrorMessage(message));
    }

    var expiresAt := now + TwoHoursMs;
    var ok := db.Create(code, Row(Some(OrElse(text, "")),
                                  if blob.Some? then Some(blob.value.secureUrl) else None,
                                  if blob.Some? then Some(blob.value.publicId) else None,
                                  expiresAt));
    assert ok;
    return Ok(code);
  }
}

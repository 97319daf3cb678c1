/** Both dialogs driven against one table: what a user who shares and then retrieves sees. */
module Scenarios {
  import opened Js
  import opened Decimal
  import opened ShareStore
  import opened UploadAction
  import opened RetrieveAction
  import opened RetrieveModal
  import opened ShareModal

  /** An issued code, typed into the retrieve dialog, is kept as is and passes its 4-digit test. */
  lemma IssuedCodeSurvivesTyping(code: string)
    requires IsIssuedCode(code)
    ensures Sanitize(code) == code && IsFourDigits(code)
  {
    SanitizeKeepsShortDigitStrings(code);
  }

  /**
   * Non-empty text shared from the text tab, with no file selected, is shown unchanged by the
   * retrieve dialog under the issued code, even when retrieved after its expiry time.
   */
  method ShareTextThenRetrieve(t: string, now: int, later: int) returns (shown: Option<Shared>)
    requires t != "" && later > now + TwoHoursMs
    ensures shown == Some(Shared(TextKind, t, None, None))
  {
    var db := new Clipboard();
    var share := new ShareModalState();
    share.SetText(t);
    FreeCodeBelowCapacity(db.rows);
    // No file is selected, so the blob store is never called and its outcome is irrelevant.
    var unusedOutcome := UploadFailed("");
    assert !ShareDisabled(share.activeTab, share.text, share.file, share.loading, share.error);
    share.HandleShare(db, false, unusedOutcome, now);

    var retrieve := new RetrieveModalState();
    IssuedCodeSurvivesTyping(share.code);
    retrieve.HandleCodeChange(share.code);
    retrieve.HandleRetrieve(db, false, later);
    shown := retrieve.retrievedContent;
  }

  /**
   * An image picked on the file tab, uploaded to the blob store, is shown as a file
   * with the stored URL; the textarea's text is not sent from the file tab.
   */
  method ShareImageThenRetrieve(f: File, t: string, blob: Blob, now: int) returns (shown: Option<Shared>)
    requires f.size <= MaxFileSize && "image" <= f.mimeType && blob.secureUrl != ""
    ensures shown == Some(Shared(FileKind, "", Some(if blob.publicId != "" then blob.publicId else "file"),
                                 Some(blob.secureUrl)))
  {
    var db := new Clipboard();
    var share := new ShareModalState();
    share.SetText(t);
    share.SetActiveTab(FileTab);
    share.HandleFileChange([f]);
    ImageDataUrlIffImageType(f);
    FreeCodeBelowCapacity(db.rows);
    assert !ShareDisabled(share.activeTab, share.text, share.file, share.loading, share.error);
    share.HandleShare(db, false, Uploaded(blob), now);

    var retrieve := new RetrieveModalState();
    IssuedCodeSurvivesTyping(share.code);
    retrieve.HandleCodeChange(share.code);
    retrieve.HandleRetrieve(db, false, now);
    shown := retrieve.retrievedContent;
  }

  /**
   * A non-image file picked on the file tab is accepted, yet the share reads back as
   * empty text: the file never reaches the blob store.
   */
  method ShareOtherFileThenRetrieve(f: File, now: int) returns (shown: Option<Shared>)
    requires f.size <= MaxFileSize && !("image" <= f.mimeType)
    ensures shown == Some(Shared(TextKind, "", None, None))
  {
    var db := new Clipboard();
    var share := new ShareModalState();
    share.SetActiveTab(FileTab);
    share.HandleFileChange([f]);
    ImageDataUrlIffImageType(f);
    FreeCodeBelowCapacity(db.rows);
    // The file is not an image, so the blob store is never called and its outcome is irrelevant.
    var unusedOutcome := Uploaded(Blob("", ""));
    assert !ShareDisabled(share.activeTab, share.text, share.file, share.loading, share.error);
    share.HandleShare(db, false, unusedOutcome, now);

    var retrieve := new RetrieveModalState();
    IssuedCodeSurvivesTyping(share.code);
    retrieve.HandleCodeChange(share.code);
    retrieve.HandleRetrieve(db, false, now);
    shown := retrieve.retrievedContent;
  }
}

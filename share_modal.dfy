/** The share dialog: file selection, the payload it sends, and the input-to-code step machine. */
module ShareModal {
  import opened Js
  import opened ShareStore
  import opened UploadAction

  datatype Step = Input | CodeShown
  datatype Tab = TextTab | FileTab

  /** A file picked in the browser, with the parts `readAsDataURL` encodes. */
  datatype File = File(name: string, size: nat, mimeType: string, base64: string)

  /** The size limit checked before a file is accepted: 10 MiB. */
  const MaxFileSize: nat := 10 * 1024 * 1024

  const FileTooLargeMessage := "File size exceeds 10MB limit"
  const FileReadErrorMessage := "File read error"
  const ShareFailedMessage := "Failed to share content. Please try again."

  /** `reader.readAsDataURL(file)`: a base64 data URL carrying the file's media type. */
  function DataUrl(f: File): (s: string)
    ensures |s| == 13 + |f.mimeType| + |f.base64|
    ensures s[..5] == "data:" && s[5..5 + |f.mimeType|] == f.mimeType
    ensures s[5 + |f.mimeType|..] == ";base64," + f.base64
  {
    "data:" + f.mimeType + ";base64," + f.base64
  }

  /** The text argument of `uploadData`: the textarea only while the text tab is active. */
  function SentText(tab: Tab, text: string): (s: string)
    ensures s == text || s == ""
    ensures tab.FileTab? ==> s == ""
    ensures s != text ==> tab.FileTab?
  {
    if tab == TextTab then text else ""
  }

  /** The file argument of `uploadData`: the selected file, whichever tab is active. */
  function SentFileData(file: Option<File>): (d: Option<string>)
    ensures d.Some? <==> file.Some?
    ensures d.Some? ==> "data:" <= d.value && d.value == DataUrl(file.value)
  {
    if file.Some? then Some(DataUrl(file.value)) else None
  }

  /** `error.message || "Failed to share content. Please try again."` */
  function ErrorText(message: string): (t: string)
    ensures t != ""
    ensures message != "" ==> t == message
  {
    if message != "" then message else ShareFailedMessage
  }

  /** The Generate Code button's `disabled` expression. */
  predicate ShareDisabled(tab: Tab, text: string, file: Option<File>, loading: bool, error: Option<string>)
    ensures loading || Truthy(error) ==> ShareDisabled(tab, text, file, loading, error)
    ensures file.Some? && text != "" ==> (ShareDisabled(tab, text, file, loading, error) <==> loading || Truthy(error))
  {
    (tab == TextTab && text == "") || (tab == FileTab && file.None?) || loading || Truthy(error)
  }

  /** A file reaches the blob store exactly when its media type starts with "image". */
  lemma ImageDataUrlIffImageType(f: File)
    ensures IsImageDataUrl(SentFileData(Some(f))) <==> "image" <= f.mimeType
  {
    var s := DataUrl(f);
    var m := f.mimeType;
    assert forall i :: 0 <= i < |m| ==> s[5 + i] == m[i];
    if |m| < 5 {
      assert s[5 + |m|] == ';';
    } else if "image" <= m {
      assert s[..10] == "data:" + m[..5];
    }
  }

  /** With the button enabled, the active tab's payload is present. */
  lemma EnabledShareSendsActivePayload(tab: Tab, text: string, file: Option<File>, loading: bool, error: Option<string>)
    requires !ShareDisabled(tab, text, file, loading, error)
    ensures tab == TextTab ==> SentText(tab, text) == text && text != ""
    ensures tab == FileTab ==> SentFileData(file).Some? && SentText(tab, text) == ""
    ensures !loading && !Truthy(error)
  {
  }

  /** The dialog's state. */
  class ShareModalState {
    var step: Step
    var activeTab: Tab
    var text: string
    var file: Option<File>
    var code: string
    var copied: bool
    var loading: bool
    var error: Option<string>

    /** The selected file is never over the size limit: `handleFileChange` refuses such a file. */
    ghost predicate Valid()
      reads this
    {
      file.Some? ==> file.value.size <= MaxFileSize
    }

    constructor ()
      ensures Valid()
      ensures step == Input && activeTab == TextTab && text == "" && file == None
      ensures code == "" && !copied && !loading && error == None
    {
      step := Input;
      activeTab := TextTab;
      text := "";
      file := None;
      code := "";
      copied := false;
      loading := false;
      error := None;
    }

    /** The tabs' `onValueChange`. */
    method SetActiveTab(tab: Tab)
      requires Valid()
      modifies this
      ensures Valid()
      ensures activeTab == tab
      ensures step == old(step) && text == old(text) && file == old(file) && code == old(code)
      ensures copied == old(copied) && loading == old(loading) && error == old(error)
    {
      activeTab := tab;
    }

    /** The textarea's `onChange`. */
    method SetText(value: string)
      requires Valid()
      modifies this
      ensures Valid()
      ensures text == value
      ensures step == old(step) && activeTab == old(activeTab) && file == old(file) && code == old(code)
      ensures copied == old(copied) && loading == old(loading) && error == old(error)
    {
      text := value;
    }

    /**
     * `handleFileChange`: the first picked file is rejected when larger than 10 MiB
     * (the selection stays as it was) and otherwise selected with the error cleared.
     */
    method HandleFileChange(files: seq<File>)
      requires Valid()
      modifies this
      ensures Valid()
      ensures |files| == 0 ==> file == old(file) && error == old(error)
      ensures |files| > 0 && files[0].size > MaxFileSize ==>
                file == old(file) && error == Some(FileTooLargeMessage)
      ensures |files| > 0 && files[0].size <= MaxFileSize ==>
                file == Some(files[0]) && error == None
      ensures step == old(step) && activeTab == old(activeTab) && text == old(text) && code == old(code)
      ensures copied == old(copied) && loading == old(loading)
    {
      if |files| > 0 {
        if files[0].size > MaxFileSize {
          error := Some(FileTooLargeMessage);
          return;
        }
        file := Some(files[0]);
        error := None;
      }
    }

    /**
     * `handleShare`: reads the selected file, calls `uploadData` with the active tab's
     * text, and on success shows the issued code. `readFails` stands for the file
     * reader's error, `outcome` for the blob store's answer.
     */
    method HandleShare(db: Clipboard, readFails: bool, outcome: BlobOutcome, now: int)
      requires Valid() && HasFreeCode(db.rows)
      modifies this, db
      ensures Valid()
      ensures SentFileData(file).Some? ==> file.value.size <= MaxFileSize
      ensures !loading
      ensures activeTab == old(activeTab) && text == old(text) && file == old(file) && copied == old(copied)
      ensures file.Some? && readFails ==>
                error == Some(FileReadErrorMessage) && step == old(step) && code == old(code)
                && db.rows == old(db.rows)
      ensures !(file.Some? && readFails) && IsImageDataUrl(SentFileData(file)) && outcome.UploadFailed? ==>
                error == Some(UploadErrorMessage(outcome.message)) && step == old(step) && code == old(code)
                && db.rows == old(db.rows)
      ensures !(file.Some? && readFails) && !(IsImageDataUrl(SentFileData(file)) && outcome.UploadFailed?) ==>
                step == CodeShown && error == None && IsIssuedCode(code) && code !in old(db.rows)
                && db.rows == old(db.rows)[code := NewRow(Some(SentText(activeTab, text)),
                                                          UploadedBlob(SentFileData(file), outcome), now)]
    {
      loading := true;
      error := None;
      var fileData: Option<string> := None;
      if file.Some? {
        if readFails {
          error := Some(ErrorText(FileReadErrorMessage));
          loading := false;
          return;
        }
        fileData := Some(DataUrl(file.value));
      }
      var r := UploadData(db, Some(if activeTab == TextTab then text else ""), fileData, outcome, now);
      match r {
        case Ok(generated) =>
          code := generated;
          step := CodeShown;
        case Err(message) =>
          error := Some(ErrorText(message));
      }
      loading := false;
    }

    /** `resetModal`: back to an empty input step; the active tab is kept. */
    method ResetModal()
      modifies this
      ensures Valid()
      ensures step == Input && text == "" && file == None && code == "" && error == None
      ensures activeTab == old(activeTab) && copied == old(copied) && loading == old(loading)
    {
      step := Input;
      text := "";
      file := None;
      code := "";
      error := None;
    }
  }
}

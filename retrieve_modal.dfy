/** The retrieve dialog: code entry, its validation, and the input-to-result step machine. */
module RetrieveModal {
  import opened Js
  import opened Decimal
  import opened ShareStore
  import opened RetrieveAction

  datatype Step = Input | Result

  const InvalidCodeMessage := "Please enter a valid 4-digit code"
  const NotFoundMessage := "No content found with that code"
  const ExpiredMessage := "This content has expired"
  const RetrieveFailedMessage := "Failed to retrieve content. Please try again."

  /** `s.replace(/\D/g, "")`: the digits of `s`, in order. */
  function Digits(s: string): (d: string)
    ensures AllDigits(d) && |d| <= |s|
  {
    if s == [] then []
    else (if IsDigit(s[0]) then [s[0]] else []) + Digits(s[1..])
  }

  /** The sanitised input: `value.replace(/\D/g, "").slice(0, 4)`. */
  function Sanitize(s: string): (r: string)
    ensures AllDigits(r) && |r| <= 4
    ensures r <= Digits(s)
    ensures |r| == if |Digits(s)| < 4 then |Digits(s)| else 4
  {
    var d := Digits(s);
    if |d| <= 4 then d else d[..4]
  }

  /** The test `/^\d{4}$/.test(s)`. */
  predicate IsFourDigits(s: string) {
    |s| == 4 && AllDigits(s)
  }

  /** The Retrieve button is enabled: `!(code.length !== 4 || loading)`. */
  predicate RetrieveEnabled(code: string, loading: bool)
    ensures RetrieveEnabled(code, loading) ==> !loading
    ensures RetrieveEnabled(code, loading) && AllDigits(code) ==> IsFourDigits(code)
  {
    |code| == 4 && !loading
  }

  /** The `expiresAt` the dialog reads off a reply: the reply object has no such key. */
  function ReplyExpiresAt(data: Shared): (r: Option<int>)
    ensures r.None?
  {
    None
  }

  /** The dialog's expiry test: `data.expiresAt && new Date(data.expiresAt) < new Date()`. */
  predicate ClientExpired(expiresAt: Option<int>, now: int)
    ensures expiresAt.None? ==> !ClientExpired(expiresAt, now)
    ensures ClientExpired(expiresAt, now) ==> expiresAt.value < now
  {
    expiresAt.Some? && expiresAt.value < now
  }

  /** Digits keeps every digit of the input and nothing else. */
  lemma {:induction false} DigitsCounts(s: string, c: char)
    ensures multiset(Digits(s))[c] == if IsDigit(c) then multiset(s)[c] else 0
  {
    if s != [] {
      DigitsCounts(s[1..], c);
      assert s == [s[0]] + s[1..];
    }
  }

  /** Digits distributes over concatenation, so the digits keep their order. */
  lemma {:induction false} DigitsAppend(a: string, b: string)
    ensures Digits(a + b) == Digits(a) + Digits(b)
  {
    if a != [] {
      var ab := a + b;
      assert ab != [] && ab[0] == a[0] && ab[1..] == a[1..] + b;
      DigitsAppend(a[1..], b);
      var h := if IsDigit(a[0]) then [a[0]] else [];
      assert Digits(ab) == h + Digits(ab[1..]);
      assert Digits(a) == h + Digits(a[1..]);
      assert h + (Digits(a[1..]) + Digits(b)) == (h + Digits(a[1..])) + Digits(b);
    } else {
      assert a + b == b;
    }
  }

  /** A string of digits is its own digit sequence. */
  lemma {:induction false} DigitsOfDigitString(s: string)
    requires AllDigits(s)
    ensures Digits(s) == s
  {
    if s != [] {
      DigitsOfDigitString(s[1..]);
    }
  }

  /** Sanitising twice is sanitising once. */
  lemma SanitizeIdempotent(s: string)
    ensures Sanitize(Sanitize(s)) == Sanitize(s)
  {
    DigitsOfDigitString(Sanitize(s));
  }

  /** A code already made of at most four digits passes through sanitising unchanged. */
  lemma SanitizeKeepsShortDigitStrings(s: string)
    requires AllDigits(s) && |s| <= 4
    ensures Sanitize(s) == s
  {
    DigitsOfDigitString(s);
  }

  /** The sanitised value passes the 4-digit test exactly when the input holds four digits or more. */
  lemma SanitizedIsValidIff(s: string)
    ensures IsFourDigits(Sanitize(s)) <==> |Digits(s)| >= 4
  {
  }

  /** Once the code holds only digits, the button's length test is the 4-digit test. */
  lemma EnabledOnlyForValidCodes(code: string, loading: bool)
    requires AllDigits(code) && |code| <= 4
    ensures RetrieveEnabled(code, loading) <==> IsFourDigits(code) && !loading
  {
  }

  /** An enabled Retrieve button never leads to the "Please enter a valid 4-digit code" branch. */
  lemma EnabledStateIsFourDigits(s: RetrieveModalState)
    requires s.Valid() && RetrieveEnabled(s.code, s.loading)
    ensures IsFourDigits(s.code)
  {
    EnabledOnlyForValidCodes(s.code, s.loading);
  }

  /** What the dialog makes of a lookup reply. */
  datatype ReplyOutcome = NoContent | ContentExpired | Display(content: Shared)

  /** The branches of `handleRetrieve` after the reply arrives: null, expired, or shown. */
  function ClassifyReply(data: Option<Shared>, now: int): (o: ReplyOutcome)
    ensures o == NoContent <==> data.None?
    ensures o.Display? ==> data == Some(o.content)
    ensures data.Some? && !ClientExpired(ReplyExpiresAt(data.value), now) ==> o.Display?
  {
    if data.None? then NoContent
    else if ClientExpired(ReplyExpiresAt(data.value), now) then ContentExpired
    else Display(Shared(data.value.kind, data.value.content, data.value.fileName, data.value.fileUrl))
  }

  /** The error each outcome leaves in the dialog. */
  function OutcomeError(outcome: ReplyOutcome): (e: string)
    ensures e == "" <==> outcome.Display?
  {
    match outcome
    case NoContent => NotFoundMessage
    case ContentExpired => ExpiredMessage
    case Display(_) => ""
  }

  /** A reply from retrieveData never takes the expiry branch, and a present row is shown as is. */
  lemma ExpiryBranchUnreachable(rows: map<string, Row>, code: string, now: int)
    ensures ClassifyReply(RetrieveData(rows, code), now) != ContentExpired
    ensures code in rows ==> ClassifyReply(RetrieveData(rows, code), now) == Display(Shape(rows[code]))
  {
  }

  /** The dialog's state. */
  class RetrieveModalState {
    var step: Step
    var code: string
    var retrievedContent: Option<Shared>
    var error: string
    var loading: bool
    var copied: bool

    /** The code field only ever holds a sanitised value. */
    ghost predicate Valid()
      reads this
    {
      AllDigits(code) && |code| <= 4
    }

    constructor ()
      ensures Valid()
      ensures step == Input && code == "" && retrievedContent == None
      ensures error == "" && !loading && !copied
    {
      step := Input;
      code := "";
      retrievedContent := None;
      error := "";
      loading := false;
      copied := false;
    }

    /** `handleCodeChange`: stores the sanitised input; clears a pending error once it is a valid code. */
    method HandleCodeChange(input: string)
      modifies this
      ensures Valid()
      ensures code == Sanitize(input)
      ensures error == if old(error) != "" && IsFourDigits(code) then "" else old(error)
      ensures step == old(step) && retrievedContent == old(retrievedContent)
      ensures loading == old(loading) && copied == old(copied)
    {
      var value := Sanitize(input);
      code := value;
      if error != "" && IsFourDigits(value) {
        error := "";
      }
    }

    /**
     * `handleRetrieve`: validates the code, asks the server, and either shows the
     * content or sets an error. `serverFails` stands for the lookup throwing.
     */
    method HandleRetrieve(db: Clipboard, serverFails: bool, now: int)
      modifies this
      ensures Valid() == old(Valid())
      ensures code == old(code) && copied == old(copied)
      ensures !IsFourDigits(code) ==> error == InvalidCodeMessage && loading == old(loading)
      ensures IsFourDigits(code) ==> !loading
      ensures IsFourDigits(code) && serverFails ==> error == RetrieveFailedMessage
      ensures IsFourDigits(code) && !serverFails && code !in db.rows ==> error == NotFoundMessage
      ensures !(IsFourDigits(code) && !serverFails && code in db.rows) ==>
                step == old(step) && retrievedContent == old(retrievedContent)
      ensures IsFourDigits(code) && !serverFails && code in db.rows ==>
                step == Result && error == "" && retrievedContent == RetrieveData(db.rows, code)
    {
      if !IsFourDigits(code) {
        error := InvalidCodeMessage;
        return;
      }
      error := "";
      loading := true;
      if serverFails {
        error := RetrieveFailedMessage;
        loading := false;
        return;
      }
      var outcome := ClassifyReply(RetrieveData(db.rows, code), now);
      error := OutcomeError(outcome);
      if outcome.Display? {
        retrievedContent := Some(outcome.content);
        step := Result;
      }
      loading := false;
    }

    /** `resetModal`: back to an empty code entry; `loading` is left as it is. */
    method ResetModal()
      modifies this
      ensures Valid()
      ensures step == Input && code == "" && retrievedContent == None
      ensures error == "" && !copied && loading == old(loading)
    {
      step := Input;
      code := "";
      retrievedContent := None;
      error := "";
      copied := false;
    }
  }
}

/**
 * The Everypay integration helper: it signs an outbound payment request and
 * verifies the gateway's signed response.
 *
 * Three things the class obtains from outside are parameters here: the keyed hash
 * (hash_hmac with SHA-1), the clock (time()) and the nonce generator (uniqid).
 */
module Everypay {
  import opened Optional
  import opened KeyOrder
  import opened Decimal
  import opened CanonicalForm

  /** Status code of a verified successful payment. */
  const VERIFY_SUCCESS: int := 1
  /** Status code of a verified cancelled payment; failed payments get it too. */
  const VERIFY_CANCEL: int := 2

  /** The status table, keyed by the response's transaction_result. */
  const STATUSES: map<string, int> :=
    map["completed" := VERIFY_SUCCESS, "failed" := VERIFY_CANCEL, "cancelled" := VERIFY_CANCEL]

  /** How many seconds before the current time a response timestamp may lie. */
  const RESPONSE_WINDOW: int := 300

  /** The fields every response signature covers. */
  const COMMON_FIELDS: set<string> :=
    {"api_username", "nonce", "order_reference", "payment_state", "timestamp", "transaction_result"}

  /** The extra fields a completed or failed payment's signature covers. */
  const PAYMENT_FIELDS: set<string> := {"account_id", "amount", "payment_reference"}

  /** Every field of a response that verify looks at. */
  const INSPECTED_FIELDS: set<string> :=
    COMMON_FIELDS + PAYMENT_FIELDS + {"processing_errors", "processing_warnings", "hmac"}

  /** The fields getFields adds to the caller's request. */
  const REQUEST_FIELDS: set<string> :=
    {"api_username", "nonce", "timestamp", "transaction_type", "hmac", "locale"}

  /** The keyed hash: (key, message) to hex digest. SHA-1 itself is not modelled. */
  type Hmac = (string, string) -> string

  /** What verify ends with: one of its four exceptions, or the looked-up status. */
  datatype Verdict =
    | InvalidUsername
    | ResponseOutdated
    | NonceUsed
    | InvalidHmac
    | Verified(status: Option<int>)
  {
    /** The message of the exception verify throws. */
    function Message(): (m: string)
      requires !Verified?
      ensures InvalidUsername? <==> m == "Invalid username."
      ensures ResponseOutdated? <==> m == "Response outdated."
      ensures NonceUsed? <==> m == "Nonce is already used."
      ensures InvalidHmac? <==> m == "Invalid HMAC."
    {
      if InvalidUsername? then "Invalid username."
      else if ResponseOutdated? then "Response outdated."
      else if NonceUsed? then "Nonce is already used."
      else "Invalid HMAC."
    }
  }

  /** A field as PHP reads it into a string: a missing entry is null, which renders as "". */
  function Field(data: map<string, string>, k: string): (v: string)
    ensures k in data ==> v == data[k]
    ensures k !in data ==> v == ""
  {
    if k in data then data[k] else ""
  }

  /** The status verify returns for a transaction_result; None is PHP's null for an unknown one. */
  function StatusOf(result: string): (s: Option<int>)
    ensures s == Some(1) <==> result == "completed"
    ensures s == Some(2) <==> result == "failed" || result == "cancelled"
    ensures s == None <==> result != "completed" && result != "failed" && result != "cancelled"
  {
    if result in STATUSES then Some(STATUSES[result]) else None
  }

  predicate IsPaymentResult(result: string)
  {
    result == "completed" || result == "failed"
  }

  /** The names of the response fields the signature covers. */
  function SignedKeys(data: map<string, string>): (ks: set<string>)
    ensures COMMON_FIELDS <= ks
    ensures IsPaymentResult(Field(data, "transaction_result")) <==> PAYMENT_FIELDS <= ks
    ensures ks <= INSPECTED_FIELDS - {"hmac"}
  {
    if IsPaymentResult(Field(data, "transaction_result")) then
      COMMON_FIELDS + PAYMENT_FIELDS +
        (if "processing_errors" in data then {"processing_errors"}
         else if "processing_warnings" in data then {"processing_warnings"}
         else {})
    else COMMON_FIELDS
  }

  /** The fields `ks` of `data`, with PHP's null-as-empty for any missing one. */
  function FieldsOf(data: map<string, string>, ks: set<string>): map<string, string>
  {
    map k | k in ks :: Field(data, k)
  }

  /** The field set verify signs. */
  function SignedSubset(data: map<string, string>): (sub: map<string, string>)
  {
    FieldsOf(data, SignedKeys(data))
  }

  /** The signed subset holds exactly the signed keys, each with the value verify reads. */
  lemma SignedSubsetContents(data: map<string, string>)
    ensures SignedSubset(data).Keys == SignedKeys(data)
    ensures forall k :: k in SignedKeys(data) ==> SignedSubset(data)[k] == Field(data, k)
  {
  }

  lemma AddField(data: map<string, string>, ks: set<string>, k: string)
    ensures FieldsOf(data, ks)[k := Field(data, k)] == FieldsOf(data, ks + {k})
  {
  }

  /** The array literal verify starts from holds exactly the common fields. */
  lemma CommonFieldsLiteral(data: map<string, string>)
    ensures map[
        "api_username" := Field(data, "api_username"),
        "nonce" := Field(data, "nonce"),
        "order_reference" := Field(data, "order_reference"),
        "payment_state" := Field(data, "payment_state"),
        "timestamp" := Field(data, "timestamp"),
        "transaction_result" := Field(data, "transaction_result")] == FieldsOf(data, COMMON_FIELDS)
  {
  }

  lemma RemoveFresh(d: map<string, string>, a: string, x: string, b: string, y: string)
    requires a !in d && b !in d
    ensures d[a := x][b := y] - {a, b} == d
  {
  }

  lemma RemoveAfterUpdate(m: map<string, string>, a: string, b: string, k: string, v: string)
    ensures k != a && k != b ==> m[k := v] - {a, b} == (m - {a, b})[k := v]
    ensures k == b ==> m[k := v] - {a, b} == m - {a, b}
  {
  }

  lemma FieldsOfUpdate(data: map<string, string>, ks: set<string>, k: string, v: string)
    requires k in ks
    ensures FieldsOf(data[k := v], ks) == FieldsOf(data, ks)[k := v]
  {
  }

  lemma FieldsOfAgree(a: map<string, string>, b: map<string, string>, ks: set<string>)
    requires forall k :: k in ks ==> Field(a, k) == Field(b, k)
    ensures FieldsOf(a, ks) == FieldsOf(b, ks)
  {
  }

  /** The signed key set depends only on transaction_result and which processing fields are present. */
  lemma SameShape(a: map<string, string>, b: map<string, string>)
    requires IsPaymentResult(Field(a, "transaction_result")) == IsPaymentResult(Field(b, "transaction_result"))
    requires ("processing_errors" in a) == ("processing_errors" in b)
    requires ("processing_warnings" in a) == ("processing_warnings" in b)
    ensures SignedKeys(a) == SignedKeys(b)
  {
  }

  lemma HmacNotSigned(data: map<string, string>)
    ensures "hmac" !in SignedKeys(data) && "locale" !in SignedKeys(data)
  {
  }

  lemma ProcessingFieldsPresent(data: map<string, string>)
    ensures "processing_errors" in SignedKeys(data) ==> "processing_errors" in data
    ensures "processing_warnings" in SignedKeys(data) ==> "processing_warnings" in data
  {
  }

  /** The signature a genuine response carries: the keyed hash of its signed string. */
  function ExpectedHmac(secret: string, hmac: Hmac, data: map<string, string>): (digest: string)
    ensures digest == hmac(secret, Canonical(SignedSubset(data)))
  {
    hmac(secret, Canonical(SignedSubset(data)))
  }

  /** The timestamp reads as a number within the window that ends now. */
  predicate Fresh(timestamp: string, now: int)
    ensures Fresh(timestamp, now) ==> |timestamp| > 0 && AllDigits(timestamp)
    ensures Fresh(timestamp, now) <==>
              |timestamp| > 0 && AllDigits(timestamp) && now - RESPONSE_WINDOW <= Value(timestamp) <= now
  {
    var t := Parse(timestamp);
    t.Some? && now - RESPONSE_WINDOW <= t.value <= now
  }

  /** The verifyNonce stub: every nonce passes. */
  function AcceptAnyNonce(nonce: string): (unused: bool)
    ensures unused
  {
    true
  }

  /**
   * What verify does with a response, for a credential, a keyed hash, a nonce
   * check and the current time: four checks in order, the first to fail decides.
   */
  function Outcome(username: string, secret: string, hmac: Hmac, nonceUnused: string -> bool,
                   now: int, data: map<string, string>): (v: Verdict)
    ensures v == InvalidUsername <==> "api_username" !in data || data["api_username"] != username
    ensures v.Verified? ==> v.status == StatusOf(Field(data, "transaction_result"))
    ensures v.Verified? <==>
              && "api_username" in data && data["api_username"] == username
              && Fresh(Field(data, "timestamp"), now)
              && nonceUnused(Field(data, "nonce"))
              && Field(data, "hmac") == ExpectedHmac(secret, hmac, data)
  {
    if "api_username" !in data || data["api_username"] != username then InvalidUsername
    else if !Fresh(Field(data, "timestamp"), now) then ResponseOutdated
    else if !nonceUnused(Field(data, "nonce")) then NonceUsed
    else if Field(data, "hmac") != ExpectedHmac(secret, hmac, data) then InvalidHmac
    else Verified(StatusOf(Field(data, "transaction_result")))
  }

  /** The request fields getFields signs: the caller's, plus the four it adds first. */
  function RequestSigned(data: map<string, string>, username: string, nonce: string, now: nat)
    : (signed: map<string, string>)
    ensures signed.Keys == data.Keys + {"api_username", "nonce", "timestamp", "transaction_type"}
    ensures signed["api_username"] == username && signed["nonce"] == nonce
    ensures signed["timestamp"] == Render(now) && signed["transaction_type"] == "authorisation"
    ensures forall k :: k in data && k !in {"api_username", "nonce", "timestamp", "transaction_type"} ==>
              signed[k] == data[k]
  {
    data["api_username" := username]["nonce" := nonce]["timestamp" := Render(now)]
      ["transaction_type" := "authorisation"]
  }

  /** The gateway's check of a request: the hmac covers every field except itself and locale. */
  predicate RequestAuthentic(secret: string, hmac: Hmac, fields: map<string, string>)
  {
    Field(fields, "hmac") == hmac(secret, Canonical(fields - {"hmac", "locale"}))
  }

  /**
   * The keyed hash, under this secret, gives different messages different digests:
   * the idealised stand-in for an HMAC nobody can forge without the secret. No hash
   * with fixed-length digests, such as HMAC-SHA1's 160 bits, has it literally.
   */
  ghost predicate CollisionFree(hmac: Hmac, secret: string)
  {
    forall a, b :: a != b ==> hmac(secret, a) != hmac(secret, b)
  }

  predicate AgreeOn(a: map<string, string>, b: map<string, string>, ks: set<string>)
  {
    forall k :: k in ks ==> (k in a <==> k in b) && (k in a ==> a[k] == b[k])
  }

  /** Which fields the response signature covers, case by case. */
  lemma SignedSubsetShape(data: map<string, string>)
    ensures !IsPaymentResult(Field(data, "transaction_result")) ==>
              SignedKeys(data) ==
                {"api_username", "nonce", "order_reference", "payment_state", "timestamp", "transaction_result"}
    ensures IsPaymentResult(Field(data, "transaction_result")) && "processing_errors" in data ==>
              SignedKeys(data) == COMMON_FIELDS + {"account_id", "amount", "payment_reference", "processing_errors"}
    ensures IsPaymentResult(Field(data, "transaction_result")) && "processing_errors" !in data &&
            "processing_warnings" in data ==>
              SignedKeys(data) == COMMON_FIELDS + {"account_id", "amount", "payment_reference", "processing_warnings"}
    ensures IsPaymentResult(Field(data, "transaction_result")) && "processing_errors" !in data &&
            "processing_warnings" !in data ==>
              SignedKeys(data) == COMMON_FIELDS + {"account_id", "amount", "payment_reference"}
    ensures !("processing_errors" in SignedKeys(data) && "processing_warnings" in SignedKeys(data))
  {
  }

  /** With the right username, the timestamp decides next. */
  lemma TimestampCheckedSecond(username: string, secret: string, hmac: Hmac, nonceUnused: string -> bool,
                               now: int, data: map<string, string>)
    requires "api_username" in data && data["api_username"] == username
    ensures Outcome(username, secret, hmac, nonceUnused, now, data) == ResponseOutdated <==>
              !Fresh(Field(data, "timestamp"), now)
  {
  }

  /** A rendered clock value is fresh exactly when it lies in [now - 300, now]. */
  lemma FreshWindow(t: nat, now: int)
    ensures Fresh(Render(t), now) <==> now - 300 <= t <= now
  {
    ParseRender(t);
  }

  /** The edges of the window: its first second and now are in; one second either side is out. */
  lemma WindowBoundaries(now: nat)
    requires now >= 301
    ensures Fresh(Render(now - 300), now) && Fresh(Render(now), now)
    ensures !Fresh(Render(now - 301), now) && !Fresh(Render(now + 1), now)
  {
    FreshWindow(now - 300, now);
    FreshWindow(now, now);
    FreshWindow(now - 301, now);
    FreshWindow(now + 1, now);
  }

  /** With the right username and a fresh timestamp, the nonce check decides next. */
  lemma NonceCheckedThird(username: string, secret: string, hmac: Hmac, nonceUnused: string -> bool,
                          now: int, data: map<string, string>)
    requires "api_username" in data && data["api_username"] == username
    requires Fresh(Field(data, "timestamp"), now)
    ensures Outcome(username, secret, hmac, nonceUnused, now, data) == NonceUsed <==>
              !nonceUnused(Field(data, "nonce"))
  {
  }

  /** With the class's own verifyNonce, no response is ever refused as a replay. */
  lemma StubNeverReportsReplay(username: string, secret: string, hmac: Hmac, now: int, data: map<string, string>)
    ensures Outcome(username, secret, hmac, AcceptAnyNonce, now, data) != NonceUsed
  {
  }

  /** Once the first three checks pass, the signature alone decides. */
  lemma HmacCheckedLast(username: string, secret: string, hmac: Hmac, nonceUnused: string -> bool,
                        now: int, data: map<string, string>)
    requires "api_username" in data && data["api_username"] == username
    requires Fresh(Field(data, "timestamp"), now)
    requires nonceUnused(Field(data, "nonce"))
    ensures Outcome(username, secret, hmac, nonceUnused, now, data) == InvalidHmac <==>
              Field(data, "hmac") != ExpectedHmac(secret, hmac, data)
  {
  }

  /** Setting the hmac field leaves the signed subset as it was. */
  lemma SignedSubsetWithoutHmac(data: map<string, string>, h: string)
    ensures SignedKeys(data["hmac" := h]) == SignedKeys(data)
    ensures SignedSubset(data["hmac" := h]) == SignedSubset(data)
  {
    var d := data["hmac" := h];
    assert Field(d, "transaction_result") == Field(data, "transaction_result");
    assert ("processing_errors" in d) == ("processing_errors" in data);
    assert ("processing_warnings" in d) == ("processing_warnings" in data);
    assert SignedKeys(d) == SignedKeys(data);
    assert "hmac" !in SignedKeys(data);
  }

  /**
   * A response the gateway signed over the right subset with the shared secret
   * verifies, when its username matches and its timestamp is fresh.
   */
  lemma ResponseRoundTrip(username: string, secret: string, hmac: Hmac, nonceUnused: string -> bool,
                          now: int, resp: map<string, string>)
    requires "api_username" in resp && resp["api_username"] == username
    requires Fresh(Field(resp, "timestamp"), now)
    requires nonceUnused(Field(resp, "nonce"))
    ensures Outcome(username, secret, hmac, nonceUnused, now, resp["hmac" := ExpectedHmac(secret, hmac, resp)])
              == Verified(StatusOf(Field(resp, "transaction_result")))
    ensures Field(resp, "transaction_result") == "completed" ==>
              Outcome(username, secret, hmac, nonceUnused, now, resp["hmac" := ExpectedHmac(secret, hmac, resp)])
                == Verified(Some(1))
    ensures Field(resp, "transaction_result") in {"failed", "cancelled"} ==>
              Outcome(username, secret, hmac, nonceUnused, now, resp["hmac" := ExpectedHmac(secret, hmac, resp)])
                == Verified(Some(2))
  {
    var h := ExpectedHmac(secret, hmac, resp);
    var signed := resp["hmac" := h];
    SignedSubsetWithoutHmac(resp, h);
    assert Field(signed, "timestamp") == Field(resp, "timestamp");
    assert Field(signed, "nonce") == Field(resp, "nonce");
    assert Field(signed, "transaction_result") == Field(resp, "transaction_result");
  }

  /** Fields verify does not look at, such as locale, cannot change its outcome. */
  lemma UninspectedFieldsIgnored(username: string, secret: string, hmac: Hmac, nonceUnused: string -> bool,
                                 now: int, data: map<string, string>, data': map<string, string>)
    requires AgreeOn(data, data', INSPECTED_FIELDS)
    ensures Outcome(username, secret, hmac, nonceUnused, now, data) ==
            Outcome(username, secret, hmac, nonceUnused, now, data')
  {
    assert forall k :: k in INSPECTED_FIELDS ==> Field(data, k) == Field(data', k);
    SameShape(data, data');
    FieldsOfAgree(data, data', SignedKeys(data));
  }

  /**
   * Fields outside a response's own signed subset cannot change its outcome, such
   * as the payment fields of a cancelled response, or the warnings beside errors.
   */
  lemma UnsignedFieldsIgnored(username: string, secret: string, hmac: Hmac, nonceUnused: string -> bool,
                              now: int, data: map<string, string>, data': map<string, string>)
    requires SignedKeys(data) == SignedKeys(data')
    requires AgreeOn(data, data', SignedKeys(data) + {"hmac"})
    ensures Outcome(username, secret, hmac, nonceUnused, now, data) ==
            Outcome(username, secret, hmac, nonceUnused, now, data')
  {
    assert forall k :: k in SignedKeys(data) + {"hmac"} ==> Field(data, k) == Field(data', k);
    FieldsOfAgree(data, data', SignedKeys(data));
  }

  /** The payment fields of a cancelled (or unknown) response are not signed and do not matter. */
  lemma CancelledPaymentFieldsIgnored(username: string, secret: string, hmac: Hmac, nonceUnused: string -> bool,
                                      now: int, data: map<string, string>, k: string, v: string)
    requires !IsPaymentResult(Field(data, "transaction_result"))
    requires k in PAYMENT_FIELDS
    ensures Outcome(username, secret, hmac, nonceUnused, now, data[k := v]) ==
            Outcome(username, secret, hmac, nonceUnused, now, data)
  {
    var d := data[k := v];
    assert Field(d, "transaction_result") == Field(data, "transaction_result");
    SameShape(d, data);
    UnsignedFieldsIgnored(username, secret, hmac, nonceUnused, now, d, data);
  }

  /** When processing_errors is present, processing_warnings is not signed and does not matter. */
  lemma WarningsBesideErrorsIgnored(username: string, secret: string, hmac: Hmac, nonceUnused: string -> bool,
                                    now: int, data: map<string, string>, v: string)
    requires "processing_errors" in data
    ensures Outcome(username, secret, hmac, nonceUnused, now, data["processing_warnings" := v]) ==
            Outcome(username, secret, hmac, nonceUnused, now, data)
  {
    var d := data["processing_warnings" := v];
    assert Field(d, "transaction_result") == Field(data, "transaction_result");
    assert "processing_errors" in d;
    assert SignedKeys(d) == SignedKeys(data);
    UnsignedFieldsIgnored(username, secret, hmac, nonceUnused, now, d, data);
  }

  lemma LocaleIgnored(username: string, secret: string, hmac: Hmac, nonceUnused: string -> bool,
                      now: int, data: map<string, string>, locale: string)
    ensures Outcome(username, secret, hmac, nonceUnused, now, data["locale" := locale]) ==
            Outcome(username, secret, hmac, nonceUnused, now, data)
  {
    UninspectedFieldsIgnored(username, secret, hmac, nonceUnused, now, data["locale" := locale], data);
  }

  /** api_username sorts first among the common fields. */
  lemma UsernameSortsFirst()
    ensures IsLeast("api_username", COMMON_FIELDS)
  {
    forall j | j in COMMON_FIELDS && j != "api_username" ensures Less("api_username", j) {
      LessAt("api_username", j, 0);
    }
  }

  /** account_id sorts first among the fields of a completed or failed payment. */
  lemma AccountSortsFirst(extra: set<string>)
    requires extra <= {"processing_errors", "processing_warnings"}
    ensures IsLeast("account_id", COMMON_FIELDS + PAYMENT_FIELDS + extra)
  {
    forall j | j in COMMON_FIELDS + PAYMENT_FIELDS + extra && j != "account_id" ensures Less("account_id", j) {
      if j == "amount" || j == "api_username" {
        LessAt("account_id", j, 1);
      } else {
        LessAt("account_id", j, 0);
      }
    }
  }

  /** A completed or failed response's signed string starts with account_id, whose second letter is c. */
  lemma PaymentSubsetHead(data: map<string, string>)
    requires IsPaymentResult(Field(data, "transaction_result"))
    ensures |"account_id"| < |Canonical(SignedSubset(data))|
    ensures Canonical(SignedSubset(data))[..|"account_id"|] == "account_id"
    ensures Canonical(SignedSubset(data))[1] == 'c'
  {
    var extra := SignedKeys(data) - (COMMON_FIELDS + PAYMENT_FIELDS);
    assert SignedKeys(data) == COMMON_FIELDS + PAYMENT_FIELDS + extra;
    AccountSortsFirst(extra);
    CanonicalHead(SignedSubset(data), "account_id");
    CanonicalSecondChar(SignedSubset(data), "account_id");
  }

  /** Any other response's signed string starts with api_username, whose second letter is p. */
  lemma CommonSubsetHead(data: map<string, string>)
    requires !IsPaymentResult(Field(data, "transaction_result"))
    ensures |"api_username"| < |Canonical(SignedSubset(data))|
    ensures Canonical(SignedSubset(data))[..|"api_username"|] == "api_username"
    ensures Canonical(SignedSubset(data))[1] == 'p'
  {
    assert SignedKeys(data) == COMMON_FIELDS;
    UsernameSortsFirst();
    CanonicalHead(SignedSubset(data), "api_username");
    CanonicalSecondChar(SignedSubset(data), "api_username");
  }

  /**
   * Changing any signed field changes the string verify signs, including a
   * transaction_result that switches between the payment and the cancelled subset.
   * This holds whatever the keyed hash is.
   */
  lemma SignedMessageChanges(data: map<string, string>, k: string, v: string)
    requires k in SignedKeys(data)
    requires Field(data, k) != v
    ensures Canonical(SignedSubset(data[k := v])) != Canonical(SignedSubset(data))
  {
    var d := data[k := v];
    var paid := IsPaymentResult(Field(data, "transaction_result"));
    if IsPaymentResult(Field(d, "transaction_result")) != paid {
      if paid {
        PaymentSubsetHead(data);
        CommonSubsetHead(d);
      } else {
        PaymentSubsetHead(d);
        CommonSubsetHead(data);
      }
    } else {
      ProcessingFieldsPresent(data);
      SameShape(d, data);
      FieldsOfUpdate(data, SignedKeys(data), k, v);
      CanonicalValueSensitive(SignedSubset(data), k, v);
    }
  }

  /** Under a keyed hash without collisions, changing a signed field changes the expected signature. */
  lemma TamperedSignatureDiffers(secret: string, hmac: Hmac, data: map<string, string>, k: string, v: string)
    requires k in SignedKeys(data)
    requires Field(data, k) != v
    requires CollisionFree(hmac, secret)
    ensures ExpectedHmac(secret, hmac, data[k := v]) != ExpectedHmac(secret, hmac, data)
  {
    SignedMessageChanges(data, k, v);
  }

  /**
   * Under a keyed hash without collisions, changing any signed field of an accepted
   * response other than api_username makes it fail the HMAC check, as long as the new
   * value still passes the timestamp or nonce check that reads it.
   */
  lemma TamperDetected(username: string, secret: string, hmac: Hmac, nonceUnused: string -> bool,
                       now: int, data: map<string, string>, k: string, v: string)
    requires Outcome(username, secret, hmac, nonceUnused, now, data).Verified?
    requires k in SignedKeys(data) && k != "api_username"
    requires k == "timestamp" ==> Fresh(v, now)
    requires k == "nonce" ==> nonceUnused(v)
    requires Field(data, k) != v
    requires CollisionFree(hmac, secret)
    ensures Outcome(username, secret, hmac, nonceUnused, now, data[k := v]) == InvalidHmac
  {
    var d := data[k := v];
    HmacNotSigned(data);
    TamperedSignatureDiffers(secret, hmac, data, k, v);
    assert Field(d, "hmac") == Field(data, "hmac");
    assert Fresh(Field(d, "timestamp"), now);
    assert nonceUnused(Field(d, "nonce"));
    HmacCheckedLast(username, secret, hmac, nonceUnused, now, d);
  }

  /** With the class's own nonce stub, every signed field but api_username is protected. */
  lemma StubTamperDetected(username: string, secret: string, hmac: Hmac, now: int,
                           data: map<string, string>, k: string, v: string)
    requires Outcome(username, secret, hmac, AcceptAnyNonce, now, data).Verified?
    requires k in SignedKeys(data) && k != "api_username" && (k == "timestamp" ==> Fresh(v, now))
    requires Field(data, k) != v
    requires CollisionFree(hmac, secret)
    ensures Outcome(username, secret, hmac, AcceptAnyNonce, now, data[k := v]) == InvalidHmac
  {
    TamperDetected(username, secret, hmac, AcceptAnyNonce, now, data, k, v);
  }

  /** Changing the hmac of an accepted response makes it fail the HMAC check. */
  lemma HmacTamperDetected(username: string, secret: string, hmac: Hmac, nonceUnused: string -> bool,
                           now: int, data: map<string, string>, h: string)
    requires Outcome(username, secret, hmac, nonceUnused, now, data).Verified?
    requires h != Field(data, "hmac")
    ensures Outcome(username, secret, hmac, nonceUnused, now, data["hmac" := h]) == InvalidHmac
  {
    SignedSubsetWithoutHmac(data, h);
  }

  /** locale is outside the request signature: changing it keeps a request authentic. */
  lemma LocaleNotSigned(secret: string, hmac: Hmac, fields: map<string, string>, locale: string)
    requires RequestAuthentic(secret, hmac, fields)
    ensures RequestAuthentic(secret, hmac, fields["locale" := locale])
  {
    RemoveAfterUpdate(fields, "hmac", "locale", "locale", locale);
  }

  /** Changing any request field other than hmac and locale changes the string getFields signs, whatever the hash. */
  lemma RequestMessageChanges(fields: map<string, string>, k: string, v: string)
    requires k in fields && k != "hmac" && k != "locale" && fields[k] != v
    ensures Canonical(fields[k := v] - {"hmac", "locale"}) != Canonical(fields - {"hmac", "locale"})
  {
    RemoveAfterUpdate(fields, "hmac", "locale", k, v);
    CanonicalValueSensitive(fields - {"hmac", "locale"}, k, v);
  }

  /** Under a keyed hash without collisions, changing any other request field is detected. */
  lemma RequestTamperDetected(secret: string, hmac: Hmac, fields: map<string, string>, k: string, v: string)
    requires RequestAuthentic(secret, hmac, fields)
    requires k in fields && k != "hmac" && k != "locale" && fields[k] != v
    requires CollisionFree(hmac, secret)
    ensures !RequestAuthentic(secret, hmac, fields[k := v])
  {
    RequestMessageChanges(fields, k, v);
  }

  class Everypay {
    var apiUsername: string
    var apiSecret: string
    /** hash_hmac('sha1', ...), the library call signData makes. */
    const hashHmac: Hmac
    /** verifyNonce: the class's stub, or a subclass's replay check. */
    const verifyNonce: string -> bool

    /** A fresh object with the class's own always-true nonce check. */
    constructor (hashHmac: Hmac)
      ensures this.hashHmac == hashHmac && verifyNonce == AcceptAnyNonce
      ensures apiUsername == "" && apiSecret == ""
    {
      this.hashHmac := hashHmac;
      verifyNonce := AcceptAnyNonce;
      apiUsername, apiSecret := "", "";
    }

    /** A subclass that overrides verifyNonce with a real replay check. */
    constructor WithNonceCheck(hashHmac: Hmac, verifyNonce: string -> bool)
      ensures this.hashHmac == hashHmac && this.verifyNonce == verifyNonce
      ensures apiUsername == "" && apiSecret == ""
    {
      this.hashHmac := hashHmac;
      this.verifyNonce := verifyNonce;
      apiUsername, apiSecret := "", "";
    }

    method Init(apiUsername: string, apiSecret: string)
      modifies this
      ensures this.apiUsername == apiUsername && this.apiSecret == apiSecret
    {
      this.apiUsername := apiUsername;
      this.apiSecret := apiSecret;
    }

    /** hash_hmac('sha1', data, secret): the keyed hash under the stored secret. */
    function SignData(data: string): (digest: string)
      reads this
      ensures digest == hashHmac(apiSecret, data)
    {
      hashHmac(apiSecret, data)
    }

    /** ksort, then one `key=value` entry per field in key order, joined with `&`. */
    method PrepareData(data: map<string, string>) returns (s: string)
      ensures s == Canonical(data)
    {
      var keys := SortedKeys(data.Keys);
      var arr: seq<string> := [];
      var i := 0;
      while i < |keys|
        invariant 0 <= i <= |keys|
        invariant |arr| == i
        invariant forall j :: 0 <= j < i ==> arr[j] == Entry(keys[j], data[keys[j]])
      {
        arr := arr + [Entry(keys[i], data[keys[i]])];
        i := i + 1;
      }
      assert arr == Entries(keys, data);
      s := Join(arr);
    }

    /** The signed request fields, for the supplied nonce and clock value. */
    method GetFields(data: map<string, string>, language: string, nonce: string, now: nat)
      returns (fields: map<string, string>)
      ensures fields.Keys == data.Keys + REQUEST_FIELDS
      ensures fields["api_username"] == apiUsername
      ensures fields["nonce"] == nonce
      ensures fields["timestamp"] == Render(now)
      ensures fields["transaction_type"] == "authorisation"
      ensures fields["locale"] == language
      ensures forall k :: k in data && k !in REQUEST_FIELDS ==> fields[k] == data[k]
      ensures fields["hmac"] == hashHmac(apiSecret, Canonical(RequestSigned(data, apiUsername, nonce, now)))
      ensures "hmac" !in data && "locale" !in data ==>
                fields - {"hmac", "locale"} == RequestSigned(data, apiUsername, nonce, now) &&
                RequestAuthentic(apiSecret, hashHmac, fields)
    {
      var d := data;
      d := d["api_username" := apiUsername];
      d := d["nonce" := nonce];
      d := d["timestamp" := Render(now)];
      d := d["transaction_type" := "authorisation"];
      var canonical := PrepareData(d);
      ghost var signed := d;
      d := d["hmac" := SignData(canonical)];
      d := d["locale" := language];
      fields := d;
      if "hmac" !in data && "locale" !in data {
        RemoveFresh(signed, "hmac", SignData(canonical), "locale", language);
      }
    }

    /** The subset of a response's fields its signature covers, chosen by transaction_result. */
    method SignedFields(data: map<string, string>) returns (verify: map<string, string>)
      ensures verify == SignedSubset(data)
    {
      verify := map[
        "api_username" := Field(data, "api_username"),
        "nonce" := Field(data, "nonce"),
        "order_reference" := Field(data, "order_reference"),
        "payment_state" := Field(data, "payment_state"),
        "timestamp" := Field(data, "timestamp"),
        "transaction_result" := Field(data, "transaction_result")];
      CommonFieldsLiteral(data);
      ghost var signed := COMMON_FIELDS;
      var result := Field(data, "transaction_result");
      if result == "completed" || result == "failed" {
        if "processing_errors" in data {
          verify := verify["processing_errors" := data["processing_errors"]];
          AddField(data, signed, "processing_errors");
          signed := signed + {"processing_errors"};
        } else if "processing_warnings" in data {
          verify := verify["processing_warnings" := data["processing_warnings"]];
          AddField(data, signed, "processing_warnings");
          signed := signed + {"processing_warnings"};
        }
        verify := verify["account_id" := Field(data, "account_id")];
        AddField(data, signed, "account_id");
        signed := signed + {"account_id"};
        verify := verify["amount" := Field(data, "amount")];
        AddField(data, signed, "amount");
        signed := signed + {"amount"};
        verify := verify["payment_reference" := Field(data, "payment_reference")];
        AddField(data, signed, "payment_reference");
        signed := signed + {"payment_reference"};
      }
      assert signed == SignedKeys(data);
    }

    /** Verifies a gateway response at time `now`. */
    method Verify(data: map<string, string>, now: nat) returns (r: Verdict)
      ensures r == Outcome(apiUsername, apiSecret, hashHmac, verifyNonce, now, data)
    {
      if "api_username" !in data || data["api_username"] != apiUsername {
        return InvalidUsername;
      }
      var timestamp := Parse(Field(data, "timestamp"));
      if timestamp.None? || timestamp.value > now || timestamp.value < now - RESPONSE_WINDOW {
        return ResponseOutdated;
      }
      if !verifyNonce(Field(data, "nonce")) {
        return NonceUsed;
      }
      var status := StatusOf(Field(data, "transaction_result"));
      var verify := SignedFields(data);
      var canonical := PrepareData(verify);
      var hmac := SignData(canonical);
      assert hmac == ExpectedHmac(apiSecret, hashHmac, data);
      if Field(data, "hmac") != hmac {
        return InvalidHmac;
      }
      return Verified(status);
    }
  }
}

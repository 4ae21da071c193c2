# Everypay integration helper, modelled in Dafny

The `Everypay` PHP class is a merchant's helper for the Everypay card-payment
gateway. It does two things with a shared API username and secret:

- **Outbound.** `getFields` fills in a payment request. It adds `api_username`,
  a nonce, the current timestamp and `transaction_type = authorisation`. It then
  signs the fields with HMAC-SHA1 and adds the `hmac` and the display `locale`.
  `locale` is added after signing, so it is not signed.
- **Inbound.** `verify` checks the gateway's response in a fixed order:
  1. the username;
  2. the timestamp, which must lie in `[now - 300, now]`;
  3. the nonce, through the `verifyNonce` hook (a stub that always says yes);
  4. the HMAC, over a subset of fields chosen by `transaction_result`.

  It then returns the status code from the table: `completed` gives 1;
  `failed` and `cancelled` both give 2.

Both directions sign the same canonical string: the fields sorted by key, each
rendered as `key=value`, joined with `&` (`prepareData`).

The project's modules:

- `KeyOrder` (keyorder.dfy): ksort's key order, and the unique ascending
  enumeration of a key set.
- `CanonicalForm` (canonical.dfy): the canonical string and its properties.
  These are insertion-order independence, sensitivity to every value, and the
  ambiguity of `&` inside values.
- `Decimal` (decimal.dfy): decimal rendering and parsing of timestamps.
- `Everypay` (everypay.dfy):
  - the status table, the signed field subset, and the verdicts;
  - `Outcome`, the specification of `verify`;
  - the `Everypay` class, whose `Init`, `PrepareData`, `GetFields`, `SignData`,
    `SignedFields` and `Verify` follow the PHP methods.
- `LooseComparison` (loose.dfy): the hmac comparison as PHP actually performs
  it. See "## Findings".
- `Optional` (optional.dfy): the `Option` datatype.

Things the class gets from outside are parameters:

- `hash_hmac('sha1', …)` is an uninterpreted function `Hmac = (key, message) -> digest`,
  fixed when the object is built.
- `time()` is the `now` argument of `GetFields` and `Verify`.
- `uniqid` is the `nonce` argument of `GetFields`.
- `verifyNonce` is a function fixed when the object is built. The plain
  constructor installs the class's own always-true stub. `WithNonceCheck`
  stands for a subclass that overrides the hook.

A missing array entry reads as PHP `null`, which concatenates as the empty
string. The model's `Field` gives `""` for a missing key. The username check uses
key presence, because `null !== $api_username` when the username is a string.

Facts of this code that the model keeps exactly:

- The response window is the literal 300 seconds at php/everypay.php:106.
- The status table has two codes (php/everypay.php:5-6, 10-14), and a failed
  payment gets code 2, the same as a cancelled one.
- The signed subset is fixed by `transaction_result` (php/everypay.php:125-151).
  The response carries no list of the fields it signs.
- An unknown `transaction_result` raises no error of its own. Its status lookup
  at php/everypay.php:123 yields PHP `null` (with a notice, a warning from PHP 8), which `verify`
  returns once the HMAC matches. The model gives `Verified(None)`.

## Model

| member | source | states |
|---|---|---|
| Everypay.StatusOf | php/everypay.php:10-14 | the status table: completed maps to 1, failed and cancelled to 2, every other result to no status (PHP null), and no status is ever 3 |
| Everypay.Everypay.constructor | php/everypay.php:8-9 | a new object has no credentials yet and uses the class's always-true verifyNonce |
| Everypay.Everypay.WithNonceCheck | php/everypay.php:165-168 | a subclass object carries its own verifyNonce override in place of the stub |
| Everypay.Everypay.Init | php/everypay.php:16-20 | init stores the API username and secret and nothing else |
| Everypay.Everypay.SignData | php/everypay.php:190-193 | signData is the keyed hash of the message under the stored API secret |
| Everypay.Everypay.PrepareData | php/everypay.php:179-188 | the loop builds one key=value entry per field in ksort order and joins them with &, giving the canonical string of the map |
| KeyOrder.Less | php/everypay.php:182 | ksort's comparison of two keys: never orders a key before itself, and puts a proper prefix first |
| KeyOrder.LessAt | php/everypay.php:182 | two keys that agree up to a position and differ there are ordered by the character at that position |
| KeyOrder.SortedKeys | php/everypay.php:182 | ksort's key sequence: strictly ascending, holding exactly the map's keys, each once |
| KeyOrder.AscendingUnique | php/everypay.php:182 | two ascending sequences with the same members are equal, so the sorted order of a key set is unique |
| KeyOrder.LessTotal | php/everypay.php:182 | any two different keys are ordered one way or the other |
| KeyOrder.LessTransitive | php/everypay.php:182 | the key order is transitive |
| KeyOrder.LessAsymmetric | php/everypay.php:182 | the key order is asymmetric |
| CanonicalForm.Join | php/everypay.php:187 | implode with &: the empty list gives "", the result starts with the first part, and with two or more parts an & follows it |
| CanonicalForm.Canonical | php/everypay.php:179-188 | prepareData's string for a field set; it is empty exactly for the empty set |
| CanonicalForm.CanonicalHead | php/everypay.php:182-187 | the canonical string begins with the key ksort puts first |
| CanonicalForm.CanonicalSecondChar | php/everypay.php:182-187 | the canonical string's second character is that of the first key |
| CanonicalForm.CanonicalOfAscending | php/everypay.php:179-188 | the canonical string is the join of the entries of any ascending enumeration of the keys |
| CanonicalForm.CanonicalSingleton | php/everypay.php:185-187 | a one-field map gives exactly key=value |
| CanonicalForm.CanonicalPair | php/everypay.php:182-187 | a two-field map gives the smaller key's entry, then &, then the other's |
| CanonicalForm.InsertionOrderIrrelevant | php/everypay.php:182 | the same fields assigned in any order give the same map and the same canonical string |
| CanonicalForm.CanonicalValueSensitive | php/everypay.php:185-187 | changing the value of any present field changes the canonical string |
| CanonicalForm.CanonicalAmbiguous | php/everypay.php:185-187 | a value containing & and = can imitate a further field: two different maps share one canonical string |
| Decimal.Render | php/everypay.php:55 | time() rendered as text: non-empty decimal digits, no leading zero |
| Decimal.Parse | php/everypay.php:106 | the timestamp forms the model reads as a number: exactly the non-empty strings of decimal digits (a subset of what PHP accepts, see "## Left out") |
| Decimal.ParseRender | php/everypay.php:55 | parsing a rendered clock value gives the value back |
| Decimal.RenderInjective | php/everypay.php:55 | different clock values render differently |
| Everypay.Everypay.GetFields | php/everypay.php:51-62 | the output has exactly the caller's keys plus the six added ones. Added values are as the source sets them and every other field is unchanged. The hmac is the keyed hash of the canonical string of the caller's fields plus the four request fields, and leaves out the hmac and locale that getFields adds (a caller's own hmac or locale is signed, as PHP does). For input without hmac and locale, the request is authentic |
| Everypay.LocaleNotSigned | php/everypay.php:58-59 | locale lies outside the request signature: changing it keeps an authentic request authentic |
| Everypay.RequestSigned | php/everypay.php:53-56 | the map getFields signs: the caller's keys plus api_username, nonce, timestamp and transaction_type, with the added values set and every other caller field unchanged |
| Everypay.RequestMessageChanges | php/everypay.php:58 | changing any request field other than hmac and locale changes the string that is signed, whatever the hash |
| Everypay.RequestTamperDetected | php/everypay.php:58 | with a collision-free keyed hash, changing any other request field makes the request inauthentic |
| Everypay.Everypay.SignedFields | php/everypay.php:124-151 | builds exactly the signed subset: the six common fields always. For completed and failed payments it adds account_id, amount and payment_reference, plus processing_errors when present, else processing_warnings when present |
| Everypay.SignedKeys | php/everypay.php:125-151 | the names verify signs: always the six common fields; the three payment fields exactly for a completed or failed result; only fields verify inspects, never hmac |
| Everypay.SignedSubsetContents | php/everypay.php:125-151 | the `$verify` array (`SignedSubset`) holds exactly the signed keys, each with the value read from the response, "" when missing |
| Everypay.SignedSubsetShape | php/everypay.php:125-151 | the signed field set for each case (cancelled or unknown; completed or failed with errors, warnings or neither). It never holds both processing fields |
| Everypay.HmacNotSigned | php/everypay.php:125-151 | neither hmac nor locale is ever signed in a response |
| Everypay.ExpectedHmac | php/everypay.php:153 | the digest verify computes: the keyed hash of the canonical string of the signed subset |
| Everypay.Field | php/everypay.php:102-154 | reading a response field: its value when present, and "" (PHP null as a string) when missing |
| Everypay.AcceptAnyNonce | php/everypay.php:165-168 | the class's verifyNonce: every nonce is accepted |
| Everypay.Verdict.Message | php/everypay.php:103-155 | each rejection carries its exception's exact message, and the four messages differ |
| Everypay.Outcome | php/everypay.php:100-158 | the verdict of verify: Invalid username exactly when the username is missing or different, whatever else the response holds. A response is accepted exactly when all four checks pass, and then it carries its table status |
| Everypay.Everypay.Verify | php/everypay.php:100-158 | the result is the outcome of the four checks in source order, then the table status |
| Everypay.TimestampCheckedSecond | php/everypay.php:105-107 | with the right username, the verdict is Response outdated exactly when the timestamp is not a number in the window |
| Everypay.Fresh | php/everypay.php:106 | the window test: the timestamp is a non-empty digit string whose value lies in [now - 300, now], and only then is it fresh |
| Everypay.FreshWindow | php/everypay.php:106 | a rendered clock value t passes exactly when now - 300 <= t <= now |
| Everypay.WindowBoundaries | php/everypay.php:106 | now - 300 and now pass; now - 301 and now + 1 do not |
| Everypay.NonceCheckedThird | php/everypay.php:116-117 | with the right username and a fresh timestamp, the verdict is Nonce is already used exactly when the nonce hook refuses |
| Everypay.StubNeverReportsReplay | php/everypay.php:165-168 | with the class's own verifyNonce, no response is ever refused as replayed |
| Everypay.HmacCheckedLast | php/everypay.php:153-155 | once the first three checks pass, the verdict is Invalid HMAC exactly when the hmac differs from the keyed hash of the signed subset |
| Everypay.SignedSubsetWithoutHmac | php/everypay.php:125-151 | setting the hmac field changes neither the signed keys nor the signed subset |
| Everypay.ResponseRoundTrip | php/everypay.php:100-158 | a response signed over its own subset, with the right username, any timestamp the window accepts and an unused nonce, verifies. It gives 1 for completed and 2 for failed or cancelled |
| Everypay.UninspectedFieldsIgnored | php/everypay.php:125-151 | two responses that agree on every field verify reads give the same verdict |
| Everypay.UnsignedFieldsIgnored | php/everypay.php:125-157 | two responses with the same signed key set that agree on those fields and on hmac get the same verdict, whatever their other fields |
| Everypay.CancelledPaymentFieldsIgnored | php/everypay.php:134-151 | for a cancelled or unknown result, account_id, amount and payment_reference do not affect the verdict |
| Everypay.WarningsBesideErrorsIgnored | php/everypay.php:139-143 | when processing_errors is present, processing_warnings does not affect the verdict |
| Everypay.LocaleIgnored | php/everypay.php:125-151 | the locale field has no effect on the verdict |
| Everypay.UsernameSortsFirst | php/everypay.php:125-132 | api_username is the first common field in ksort order |
| Everypay.AccountSortsFirst | php/everypay.php:139-147 | account_id is the first field of a completed or failed payment's subset in ksort order |
| Everypay.PaymentSubsetHead | php/everypay.php:136-153 | a completed or failed response's signed string starts with account_id, so its second character is c |
| Everypay.CommonSubsetHead | php/everypay.php:125-153 | any other response's signed string starts with api_username, so its second character is p |
| Everypay.SignedMessageChanges | php/everypay.php:125-153 | changing any signed field changes the string verify signs, whatever the hash. This includes a transaction_result that moves the response between the payment and the cancelled subset |
| Everypay.TamperedSignatureDiffers | php/everypay.php:153 | with a collision-free keyed hash, changing any signed field changes the expected hmac |
| Everypay.TamperDetected | php/everypay.php:102-155 | with a collision-free keyed hash, changing any signed field of an accepted response other than api_username makes it fail with Invalid HMAC. transaction_result (such as failed relabelled completed) is covered, and so are timestamp and nonce when the new value still passes their own check. A changed api_username fails the username check instead (Outcome) |
| Everypay.StubTamperDetected | php/everypay.php:116-168 | with the class's own verifyNonce, the same holds for every signed field but api_username, the nonce included |
| Everypay.HmacTamperDetected | php/everypay.php:154-155 | changing the hmac of an accepted response makes it fail with Invalid HMAC |
| LooseComparison.ZeroNumeric | php/everypay.php:154 | strings PHP reads as the number zero (within the modelled forms): they start with 0 and hold only digits after the exponent mark, and every all-zero string is one |
| LooseComparison.LooseEqual | php/everypay.php:154 | PHP's == behind the != (within the modelled forms): identical strings are equal, a string that is not numeric zero equals only itself, and two different equal strings are both numeric zero |
| LooseComparison.OutcomeAsWritten | php/everypay.php:100-158 | verify with the loose hmac comparison: same check order, and accepted exactly when the hmac is loosely equal to the expected one |
| LooseComparison.StrictAcceptanceKept | php/everypay.php:154 | every response the strict comparison accepts, the loose one accepts with the same verdict |
| LooseComparison.MagicDigestAccepted | php/everypay.php:154-155 | when the expected digest reads as zero, the hmac "0" passes as written and fails the strict comparison |
| LooseComparison.MagicDigestExists | php/everypay.php:192 | a 40-character hex string, the shape of a SHA-1 digest, reads as zero and is loosely equal to "0" |

## Left out

- javascript/JavaScript.js: browser glue that resizes the payment iframe on `postMessage` events. It holds no logic to state.
- SHA-1 and `hash_hmac` internals: the keyed hash is an uninterpreted function. The hash-level tamper lemmas assume `CollisionFree`: different messages never share a digest under the secret. That is the idealised stand-in for an HMAC that cannot be forged without the secret. No hash with 160-bit digests meets it literally, so those results hold only up to HMAC's forgery bound. The underlying facts do not depend on the hash: `SignedMessageChanges` and `RequestMessageChanges` show that the signed string changes.
- `time()` and `uniqid(true)`: the clock and the nonce generator are parameters. `uniqid(true)` passes `true` as the prefix argument, so real nonces start with "1". The model does not care, since any nonce string is accepted.
- Replay protection: the class has none. The stub and an injected override are modelled, but no nonce store is.
- Decimal.Parse: a timestamp counts as a number only when it is a non-empty string of decimal digits, and everything else is outdated. PHP's loose `>` and `<` at php/everypay.php:106 accept more:
  - leading whitespace, a sign, a fraction or an exponent (" 1700000000", "+1700000000", "1.7e9");
  - trailing whitespace, from PHP 8 ("1700000000 ");
  - text with a numeric prefix, read as that prefix in PHP 7 ("1699999999abc");
  - in PHP 8, non-numeric text compared with the clock as strings, so "1699999999x" can pass the window;
  - hex strings in PHP versions before 7.

  A missing timestamp is outdated in both.
- Everypay.Outcome: the hmac is compared with strict string equality, the evidently intended meaning. The loose comparison as written is in `LooseComparison`, and only for the zero-valued numeric strings described under "## Findings".
- LooseComparison.OutcomeAsWritten: its `LooseEqual` knows only part of PHP's `==`. It knows identical strings, and the zero forms "0", "00…" and "0e"/"0E" followed by digits. PHP also treats these as zero: "00e5", "0.0", " 0", "-0". It also equates non-zero numeric strings such as "1e3" and "1000". So the as-written model accepts fewer forged hmacs than PHP does.
- KeyOrder.SortedKeys: keys are ordered by code point, which is ksort's order for non-numeric string keys. PHP stores numeric-string keys such as "10" as integers and compares them numerically. That is not modelled.
- PHP arrays are ordered maps, and the model uses Dafny maps, which have no order. Nothing the signature or verify depends on is lost, because prepareData sorts first. The order of the array getFields returns is lost.
- Field values are strings. PHP values of other types (integers, booleans, nested arrays) and their string conversions are not modelled.
- Everypay.Everypay.constructor: the fields start as "" where PHP has null. This changes the username check before `init`, in both directions:
  - a response with no api_username is rejected as Invalid username, where PHP lets it through (`null !== null` is false);
  - a response whose api_username is "" is let through, where PHP rejects it (`"" !== null`).
- Everypay.Everypay.GetFields: the language has no default value of 'en'; callers pass it explicitly.
- `getNonce` is not a member: its result is the `nonce` parameter.
- The commented-out order-reference check (php/everypay.php:109-110) and the abstract `getOrderReference` (php/everypay.php:170) are not code and are not modelled.
- Exceptions are modelled as the non-`Verified` verdicts. `Verdict.Message` gives their exact messages. The PHP notices for missing array keys are not modelled.

## Findings

| source | as written | input that shows it | evidently intended | confidence | as-written member | corrected member |
|---|---|---|---|---|---|---|
| php/everypay.php:154 | `$data['hmac'] != $hmac` is PHP's loose comparison. Two numeric strings compare as numbers, so a digest of the form "0e" plus 38 decimal digits equals "0". | A response whose expected SHA-1 HMAC happens to be "0e" followed by decimal digits, sent with `hmac` = "0", passes the check without the secret. | A strict string comparison (`!==`, or `hash_equals`): only the exact digest is accepted. | medium; not executed | LooseComparison.MagicDigestAccepted | Everypay.HmacTamperDetected |

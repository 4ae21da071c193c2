/**
 * verify compares the received hmac with the computed one using PHP's loose `!=`.
 * Under loose comparison two numeric strings are compared as numbers, so a digest
 * such as "0e" followed by decimal digits (the number zero) equals the string "0".
 * This module states the comparison as written, for that family of strings, and
 * shows the response it lets through; the rest of the model uses the intended
 * strict comparison of Everypay.Outcome.
 */
module LooseComparison {
  import opened Optional
  import opened Decimal
  import opened Everypay

  predicate AllZeros(s: string)
  {
    forall i :: 0 <= i < |s| ==> s[i] == '0'
  }

  /**
   * Numeric strings whose value is zero: "0", "00", ..., and "0e<digits>" or
   * "0E<digits>". A subset of the strings PHP reads as the number 0.
   */
  predicate ZeroNumeric(s: string)
    ensures ZeroNumeric(s) ==> |s| > 0 && s[0] == '0'
    ensures ZeroNumeric(s) ==> forall i :: 2 <= i < |s| ==> IsDigit(s[i])
    ensures |s| > 0 && AllZeros(s) ==> ZeroNumeric(s)
  {
    |s| >= 1 && s[0] == '0' &&
      (AllZeros(s) || (|s| >= 3 && (s[1] == 'e' || s[1] == 'E') && AllDigits(s[2..])))
  }

  /**
   * PHP's `==` on two strings, restricted to what this model knows of it: identical
   * strings are equal, and so are two numeric strings that both denote zero.
   */
  predicate LooseEqual(a: string, b: string)
    ensures a == b ==> LooseEqual(a, b)
    ensures LooseEqual(a, b) && !ZeroNumeric(a) ==> a == b
    ensures LooseEqual(a, b) && a != b ==> ZeroNumeric(a) && ZeroNumeric(b)
  {
    a == b || (ZeroNumeric(a) && ZeroNumeric(b))
  }

  /** verify as written: Everypay.Outcome with the loose hmac comparison. */
  function OutcomeAsWritten(username: string, secret: string, hmac: Hmac, nonceUnused: string -> bool,
                            now: int, data: map<string, string>): (v: Verdict)
    ensures v == InvalidUsername <==> "api_username" !in data || data["api_username"] != username
    ensures v.Verified? ==> v.status == StatusOf(Field(data, "transaction_result"))
    ensures v.Verified? <==>
              && "api_username" in data && data["api_username"] == username
              && Fresh(Field(data, "timestamp"), now)
              && nonceUnused(Field(data, "nonce"))
              && LooseEqual(Field(data, "hmac"), ExpectedHmac(secret, hmac, data))
  {
    if "api_username" !in data || data["api_username"] != username then InvalidUsername
    else if !Fresh(Field(data, "timestamp"), now) then ResponseOutdated
    else if !nonceUnused(Field(data, "nonce")) then NonceUsed
    else if !LooseEqual(Field(data, "hmac"), ExpectedHmac(secret, hmac, data)) then InvalidHmac
    else Verified(StatusOf(Field(data, "transaction_result")))
  }

  /** Every response the strict comparison accepts, the loose one accepts with the same status. */
  lemma StrictAcceptanceKept(username: string, secret: string, hmac: Hmac, nonceUnused: string -> bool,
                             now: int, data: map<string, string>)
    requires Outcome(username, secret, hmac, nonceUnused, now, data).Verified?
    ensures OutcomeAsWritten(username, secret, hmac, nonceUnused, now, data) ==
            Outcome(username, secret, hmac, nonceUnused, now, data)
  {
  }

  /**
   * When the expected digest happens to read as zero, a response whose hmac is the
   * one-character string "0" passes the check as written and fails the strict one.
   */
  lemma MagicDigestAccepted(username: string, secret: string, hmac: Hmac, nonceUnused: string -> bool,
                            now: int, data: map<string, string>)
    requires "api_username" in data && data["api_username"] == username
    requires Fresh(Field(data, "timestamp"), now)
    requires nonceUnused(Field(data, "nonce"))
    requires ZeroNumeric(ExpectedHmac(secret, hmac, data)) && ExpectedHmac(secret, hmac, data) != "0"
    requires Field(data, "hmac") == "0"
    ensures OutcomeAsWritten(username, secret, hmac, nonceUnused, now, data)
              == Verified(StatusOf(Field(data, "transaction_result")))
    ensures Outcome(username, secret, hmac, nonceUnused, now, data) == InvalidHmac
  {
    assert ZeroNumeric("0");
  }

  /** A 40-character lower-case hex digest, as SHA-1 gives, that PHP reads as zero. */
  lemma MagicDigestExists()
    ensures var d := "0e" + seq(38, _ => '1');
            |d| == 40 && ZeroNumeric(d) && LooseEqual(d, "0") && d != "0"
  {
    var d := "0e" + seq(38, _ => '1');
    assert d[2..] == seq(38, _ => '1');
    assert ZeroNumeric("0");
  }
}

/**
 * The primary SSL lookup: the `certificate.valid_to` field of the
 * certificate-inspection service's answer. Every failure, including an
 * unreadable body, is swallowed and gives `None`.
 */
module PrimarySsl {
  import opened Wrappers
  import opened Js

  /** The `certificate` member; `validTo` is `None` when missing or `null`. */
  datatype SslCertificate = SslCertificate(validTo: Option<string>)

  /**
   * The parsed body: `null` (or another falsy value), or an object whose
   * `certificate` member is `None` when missing or falsy.
   */
  datatype SslBody = NullSslBody | SslObject(certificate: Option<SslCertificate>)

  /** The non-empty `valid_to` string the answer carries, if any. */
  function ValidTo(response: Fetch<SslBody>): Option<string> {
    if response.Ok? && response.body.Parsed? && response.body.value.SslObject?
      && response.body.value.certificate.Some?
      && Truthy(response.body.value.certificate.value.validTo)
    then response.body.value.certificate.value.validTo
    else None
  }

  /**
   * A date exactly when the fetch succeeded with an `ok` status, the body
   * parsed, and it holds a certificate with a non-empty `valid_to`; the date
   * is that string parsed, valid or not.
   */
  function PrimarySslDate(response: Fetch<SslBody>, parse: string -> JsDate): (r: Option<JsDate>)
    ensures r.Some? <==> ValidTo(response).Some?
    ensures r.Some? ==> r.value == parse(ValidTo(response).value)
    ensures response.Rejected? || response.NotOk? || response == Ok(Unparseable) ==> r.None?
  {
    match response
    case Rejected => None
    case NotOk => None
    case Ok(Unparseable) => None
    case Ok(Parsed(NullSslBody)) => None
    case Ok(Parsed(SslObject(None))) => None
    case Ok(Parsed(SslObject(Some(SslCertificate(validTo))))) =>
      if Truthy(validTo) then Some(parse(validTo.value)) else None
  }
}

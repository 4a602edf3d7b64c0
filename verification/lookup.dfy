/**
 * The decision flow of `checkDomain`: the domain date from RDAP, the
 * certificate date from the certificate-inspection service with the
 * certificate-transparency log as a fallback, and the fixed error when
 * neither source knows anything. The three services are given as
 * functions from the cleaned domain to the settled outcome of the fetch.
 */
module Lookup {
  import opened Wrappers
  import opened Text
  import opened Js
  import opened DomainInput
  import opened Rdap
  import opened PrimarySsl
  import opened CrtSh

  /** What each service answers for a given domain. */
  datatype Network = Network(
    rdap: string -> Fetch<RdapBody>,
    certificate: string -> Fetch<SslBody>,
    crtSh: string -> Fetch<CrtBody>)

  /** Why a lookup ends on the error panel. */
  datatype Failure =
    | NoPublicData          // neither a domain date nor a certificate date
    | Threw(error: Uncaught) // an exception from the RDAP branch

  /** The text shown when no source has a date. */
  const NoPublicDataMessage := "The domain registrar or registry does not provide this information publicly."

  /** The outcome of a lookup: the two dates handed to the display, or a failure. */
  datatype Outcome = Found(domainDate: Option<JsDate>, sslDate: Option<JsDate>) | Failed(reason: Failure)

  /**
   * The RDAP branch: nothing for a rejected fetch or a non-ok status; an
   * unreadable body throws (the `json()` call is outside any local `try`);
   * otherwise `findExpiryDate` on the parsed body.
   */
  function DomainExpiry(response: Fetch<RdapBody>, parse: string -> JsDate): (r: Result<Option<JsDate>, Uncaught>)
    ensures response.Rejected? || response.NotOk? ==> r == Success(None)
    ensures response == Ok(Unparseable) ==> r == Failure(JsonSyntaxError)
    ensures response.Ok? && response.body.Parsed? ==> r == FindExpiryDate(response.body.value, parse)
  {
    match response
    case Rejected => Success(None)
    case NotOk => Success(None)
    case Ok(Unparseable) => Failure(JsonSyntaxError)
    case Ok(Parsed(body)) => FindExpiryDate(body, parse)
  }

  /**
   * The certificate branch: the primary service's date when it gives one
   * (an Invalid Date counts, being truthy), otherwise the crt.sh result.
   * Both fallbacks swallow their own errors.
   */
  function SslExpiry(host: string, net: Network, parse: string -> JsDate): (r: Option<JsDate>)
    ensures var primary := PrimarySslDate(net.certificate(host), parse);
      primary.Some? ==> r == primary
    ensures var primary := PrimarySslDate(net.certificate(host), parse);
      primary.None? ==> r == CheckCrtSh(net.crtSh(host), host, parse)
    ensures r.None? <==>
      PrimarySslDate(net.certificate(host), parse).None? && CheckCrtSh(net.crtSh(host), host, parse).None?
  {
    var primary := PrimarySslDate(net.certificate(host), parse);
    if primary.Some? then primary else CheckCrtSh(net.crtSh(host), host, parse)
  }

  /**
   * `checkDomain` on what the user or the tab supplied: the domain is cleaned
   * once and every service is asked about the cleaned form.
   */
  function CheckDomain(domain: string, net: Network, parse: string -> JsDate): (r: Outcome)
    ensures var rdap := DomainExpiry(net.rdap(Clean(domain)), parse);
      && (r.Failed? && r.reason.Threw? <==> rdap.Failure?)
      && (rdap.Failure? ==> r == Failed(Threw(rdap.error)))
    ensures r.Found? ==> r.domainDate.Some? || r.sslDate.Some?
  {
    var host := Clean(domain);
    match DomainExpiry(net.rdap(host), parse)
    case Failure(e) => Failed(Threw(e))
    case Success(domainDate) =>
      var sslDate := SslExpiry(host, net, parse);
      if domainDate.None? && sslDate.None? then Failed(NoPublicData) else Found(domainDate, sslDate)
  }

  /**
   * When RDAP does not throw, both dates are handed on unchanged, and the
   * fixed error is raised exactly when both are absent.
   */
  lemma CheckDomainPassesDates(domain: string, net: Network, parse: string -> JsDate)
    requires DomainExpiry(net.rdap(Clean(domain)), parse).Success?
    ensures var host := Clean(domain);
      var domainDate := DomainExpiry(net.rdap(host), parse).value;
      var sslDate := SslExpiry(host, net, parse);
      && (CheckDomain(domain, net, parse) == Failed(NoPublicData) <==> domainDate.None? && sslDate.None?)
      && (CheckDomain(domain, net, parse).Found? ==>
            CheckDomain(domain, net, parse) == Found(domainDate, sslDate))
  {
  }

  /**
   * An unreadable RDAP body fails the whole lookup, even when a certificate
   * date is available.
   */
  lemma RdapJsonErrorIsFatal(domain: string, net: Network, parse: string -> JsDate)
    requires net.rdap(Clean(domain)) == Ok(Unparseable)
    ensures CheckDomain(domain, net, parse) == Failed(Threw(JsonSyntaxError))
  {
  }

  /**
   * The certificate-transparency log is consulted only when the primary
   * service gave no date: otherwise any answer from it leaves the outcome
   * unchanged; when it is consulted, its result is the certificate date.
   */
  lemma CrtShOnlyAsFallback(domain: string, net: Network, other: string -> Fetch<CrtBody>, parse: string -> JsDate)
    ensures var host := Clean(domain);
      PrimarySslDate(net.certificate(host), parse).Some? ==>
        CheckDomain(domain, net.(crtSh := other), parse) == CheckDomain(domain, net, parse)
    ensures var host := Clean(domain);
      PrimarySslDate(net.certificate(host), parse).None? ==>
        SslExpiry(host, net, parse) == CheckCrtSh(net.crtSh(host), host, parse)
  {
  }

  /**
   * A lookup succeeds exactly when the RDAP branch does not throw and at
   * least one of the three sources yields a date.
   */
  lemma CheckDomainFoundIff(domain: string, net: Network, parse: string -> JsDate)
    ensures var host := Clean(domain);
      var rdap := DomainExpiry(net.rdap(host), parse);
      CheckDomain(domain, net, parse).Found? <==>
        && rdap.Success?
        && (|| rdap.value.Some?
            || PrimarySslDate(net.certificate(host), parse).Some?
            || CheckCrtSh(net.crtSh(host), host, parse).Some?)
  {
  }

  /** Inputs that clean to the same domain are looked up identically. */
  lemma CheckDomainSeesOnlyCleanedDomain(a: string, b: string, net: Network, parse: string -> JsDate)
    requires Clean(a) == Clean(b)
    ensures CheckDomain(a, net, parse) == CheckDomain(b, net, parse)
  {
  }
}

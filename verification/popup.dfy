/**
 * The two ways a lookup starts — the domain typed into the box (button or
 * Enter key) and the active tab's address when the popup opens — and what
 * the popup ends up showing.
 */
module Popup {
  import opened Wrappers
  import opened Text
  import opened Js
  import opened DomainInput
  import opened Lookup
  import opened Status

  /** The panel the popup settles on after a lookup. */
  datatype Screen = ResultPanel(report: Report) | ErrorPanel(message: string)

  /**
   * The text of the error panel: the fixed sentence when no source knows a
   * date, otherwise the `message` of the exception that escaped, which
   * depends on the JavaScript engine and is given as `exceptionMessage`.
   */
  function ErrorText(reason: Failure, exceptionMessage: Uncaught -> string): (text: string)
    ensures reason.NoPublicData? ==> text == NoPublicDataMessage
    ensures reason.Threw? ==> text == exceptionMessage(reason.error)
  {
    match reason
    case NoPublicData => NoPublicDataMessage
    case Threw(e) => exceptionMessage(e)
  }

  /** The readings of the outside world a lookup depends on. */
  datatype World = World(
    net: Network,
    parse: string -> JsDate,
    exceptionMessage: Uncaught -> string,
    domainNow: int,
    sslNow: int)

  /**
   * `checkDomain(domain)` from start to finish: a lookup that found a date
   * shows the domain date in the domain panel and the certificate date in
   * the certificate panel, with the status taken from the domain date and
   * the highlight from the certificate count; a failed lookup shows the
   * fixed sentence or the escaped exception's own message.
   */
  function Check(domain: string, w: World): (s: Screen)
    ensures CheckDomain(domain, w.net, w.parse).Found? <==> s.ResultPanel?
    ensures var o := CheckDomain(domain, w.net, w.parse);
      o.Found? ==>
        && s.report.domain == PanelFor(o.domainDate, w.domainNow)
        && s.report.ssl == PanelFor(o.sslDate, w.sslNow)
        && s.report.status == DomainStatus(o.domainDate, w.domainNow)
        && (s.report.sslDanger <==> o.sslDate.Some? && SslDanger(DaysRemaining(o.sslDate.value, w.sslNow)))
    ensures CheckDomain(domain, w.net, w.parse) == Failed(NoPublicData) ==> s == ErrorPanel(NoPublicDataMessage)
    ensures var o := CheckDomain(domain, w.net, w.parse);
      o.Failed? && o.reason.Threw? ==> s == ErrorPanel(w.exceptionMessage(o.reason.error))
  {
    match CheckDomain(domain, w.net, w.parse)
    case Found(domainDate, sslDate) => ResultPanel(Render(domainDate, sslDate, w.domainNow, w.sslNow))
    case Failed(reason) => ErrorPanel(ErrorText(reason, w.exceptionMessage))
  }

  /**
   * The button and the Enter key: the box's text is trimmed, and no lookup
   * starts when nothing is left.
   */
  function OnSubmit(value: string, w: World): (s: Option<Screen>)
    ensures s.None? <==> forall i :: 0 <= i < |value| ==> IsWhitespace(value[i])
    ensures s.Some? ==> s.value == Check(Trim(value), w)
  {
    match SubmittedDomain(value)
    case None => None
    case Some(domain) => Some(Check(domain, w))
  }

  /** Surrounding whitespace in the box makes no difference. */
  lemma OnSubmitIgnoresSurroundingWhitespace(value: string, w: World)
    ensures OnSubmit(Trim(value), w) == OnSubmit(value, w)
  {
    TrimFacts(value);
    TrimIdempotent(value);
    var t := Trim(value);
    assert t != [] ==> !IsWhitespace(t[0]);
  }

  /**
   * Opening the popup on a tab: a lookup of the tab's hostname, less one
   * leading `www.`, for web pages only; for other pages nothing happens.
   */
  function OnTab(protocol: string, hostname: string, w: World): (s: Option<Screen>)
    ensures s.Some? <==> StartsWith(protocol, "http")
    ensures s.Some? ==> s.value == Check(TabDomain(protocol, hostname).value, w)
  {
    match TabDomain(protocol, hostname)
    case None => None
    case Some(domain) => Some(Check(domain, w))
  }
}

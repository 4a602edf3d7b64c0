/**
 * What the result panel shows for the dates a lookup found: whole days
 * remaining (`getDaysRemaining`), the domain's severity tier, and the red
 * highlight of a certificate that is about to expire.
 */
module Status {
  import opened Wrappers
  import opened Js

  /** `1000 * 60 * 60 * 24`, the milliseconds in a day. */
  const MsPerDay: nat := 1000 * 60 * 60 * 24

  /** The number `getDaysRemaining` returns: a whole number of days, or NaN for an Invalid Date. */
  datatype Days = Days(n: nat) | NaN

  /**
   * `getDaysRemaining` against the clock reading `now` (milliseconds since
   * the epoch): 0 for a date in the past, the whole days left otherwise, and
   * NaN for an Invalid Date (NaN is not below zero, and `Math.floor` keeps it).
   */
  function DaysRemaining(target: JsDate, now: int): (d: Days)
    ensures d.NaN? <==> target.InvalidDate?
    ensures target.Valid? && target.ms < now ==> d == Days(0)
    ensures target.Valid? && target.ms >= now ==>
      d.n * MsPerDay <= target.ms - now < (d.n + 1) * MsPerDay
  {
    match target
    case InvalidDate => NaN
    case Valid(ms) =>
      var diff := ms - now;
      if diff < 0 then Days(0) else Days(diff / MsPerDay)
  }

  /**
   * The day count is the only whole number of days that fits the remaining
   * time: `n` full days have passed before the target and `n + 1` have not.
   */
  lemma DaysRemainingUnique(target: JsDate, now: int, n: nat)
    requires target.Valid?
    requires n * MsPerDay <= target.ms - now < (n + 1) * MsPerDay
    ensures DaysRemaining(target, now) == Days(n)
  {
  }

  /** A later target, or an earlier clock reading, never shows fewer days. */
  lemma DaysRemainingMonotone(a: int, b: int, now: int, later: int)
    requires a <= b && later <= now
    ensures DaysRemaining(Valid(a), now).n <= DaysRemaining(Valid(b), later).n
  {
  }

  /** The three status colours of the result panel. */
  datatype Tier = Safe | Warning | Urgent

  /** Worse tiers rank higher. */
  function Rank(t: Tier): nat {
    match t
    case Safe => 0
    case Warning => 1
    case Urgent => 2
  }

  /**
   * The tier of a known domain expiry: more than 60 days is safe, 31 to 60
   * a warning, 30 or fewer urgent. NaN fails both comparisons and is urgent.
   */
  function DomainTier(days: Days): (t: Tier)
    ensures t == Safe <==> days.Days? && days.n > 60
    ensures t == Warning <==> days.Days? && 30 < days.n <= 60
    ensures t == Urgent <==> days.NaN? || days.n <= 30
  {
    if days.Days? && days.n > 60 then Safe
    else if days.Days? && days.n > 30 then Warning
    else Urgent
  }

  /** Fewer days never give a milder tier. */
  lemma DomainTierMonotone(m: nat, n: nat)
    requires m <= n
    ensures Rank(DomainTier(Days(m))) >= Rank(DomainTier(Days(n)))
  {
  }

  /** The panel's status: the domain tier, or a warning when there is no domain date. */
  function DomainStatus(domainDate: Option<JsDate>, now: int): (t: Tier)
    ensures domainDate.None? ==> t == Warning
    ensures domainDate.Some? ==> t == DomainTier(DaysRemaining(domainDate.value, now))
  {
    match domainDate
    case None => Warning
    case Some(date) => DomainTier(DaysRemaining(date, now))
  }

  /** The certificate's day count is shown in red below 30 days; NaN is not below 30. */
  predicate SslDanger(days: Days) {
    days.Days? && days.n < 30
  }

  /**
   * The certificate highlight is stricter than the domain's urgent tier:
   * every highlighted count would be urgent, but at exactly 30 days the
   * domain is urgent while the certificate is not highlighted.
   */
  lemma SslDangerStricterThanUrgent(days: Days)
    ensures SslDanger(days) ==> DomainTier(days) == Urgent
    ensures days == Days(30) ==> DomainTier(days) == Urgent && !SslDanger(days)
  {
  }

  /** One half of the result panel. */
  datatype Panel = NotFound | Remaining(date: JsDate, days: Days)

  /**
   * What `displayResult` shows: the domain and certificate panels, the
   * status colour, and whether the certificate count is red. Each panel
   * reads the clock separately.
   */
  datatype Report = Report(domain: Panel, ssl: Panel, status: Tier, sslDanger: bool)

  function PanelFor(date: Option<JsDate>, now: int): (p: Panel)
    ensures p.NotFound? <==> date.None?
    ensures date.Some? ==> p == Remaining(date.value, DaysRemaining(date.value, now))
  {
    match date
    case None => NotFound
    case Some(d) => Remaining(d, DaysRemaining(d, now))
  }

  /**
   * `displayResult(domainDate, sslDate)`, with `domainNow` and `sslNow` the
   * two clock readings. The status comes from the domain date alone and the
   * highlight from the certificate date alone.
   */
  function Render(domainDate: Option<JsDate>, sslDate: Option<JsDate>, domainNow: int, sslNow: int): (r: Report)
    ensures r.domain == PanelFor(domainDate, domainNow) && r.ssl == PanelFor(sslDate, sslNow)
    ensures r.status == DomainStatus(domainDate, domainNow)
    ensures r.sslDanger <==> r.ssl.Remaining? && SslDanger(r.ssl.days)
  {
    var ssl := PanelFor(sslDate, sslNow);
    Report(PanelFor(domainDate, domainNow), ssl, DomainStatus(domainDate, domainNow),
           ssl.Remaining? && SslDanger(ssl.days))
  }

  /**
   * The status colour ignores the certificate entirely, and the highlight
   * ignores the domain entirely.
   */
  lemma RenderSeparatesPanels(domainDate: Option<JsDate>, sslDate: Option<JsDate>,
                              otherDomain: Option<JsDate>, otherSsl: Option<JsDate>,
                              domainNow: int, sslNow: int)
    ensures Render(domainDate, sslDate, domainNow, sslNow).status ==
            Render(domainDate, otherSsl, domainNow, sslNow).status
    ensures Render(domainDate, sslDate, domainNow, sslNow).sslDanger ==
            Render(otherDomain, sslDate, domainNow, sslNow).sslDanger
  {
  }

  /**
   * An expired or Invalid domain date is urgent: an expiry in the past shows
   * 0 days, and an Invalid Date shows NaN.
   */
  lemma ExpiredIsUrgent(date: JsDate, now: int)
    requires date.InvalidDate? || date.ms < now
    ensures DomainStatus(Some(date), now) == Urgent
  {
  }
}

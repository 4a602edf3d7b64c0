# Domain Expiry Checker — a verified model of the lookup engine

The Domain Expiry Checker is a browser-extension popup. It shows when a
domain's registration expires and when its TLS certificate expires. All of
its logic lives in `popup.js`. Around the DOM and network code sits a small
deterministic engine, and this project models that engine in Dafny and
proves what it does:

- **Cleaning the input.** The user's text is trimmed, and nothing is looked
  up when it is blank. A tab's hostname loses one leading `www.`. Every
  lookup then removes `^(https?://)?(www\.)?` and cuts the rest at the
  first `/` (modules `DomainInput`, `Text`).
- **The registration date.** This is `findExpiryDate`. It takes the first
  RDAP event whose action is `expiration` or `registration expiration`, and
  only that one. A `null` body, or a `null` event reached first, throws
  (module `Rdap`).
- **The certificate date.** The primary source is the certificate
  service's `valid_to` (module `PrimarySsl`). The fallback is the
  certificate-transparency log (`checkCrtSh`, module `CrtSh`). It keeps
  the records whose SAN list, or else common name, covers the domain
  (module `CertMatch`), appends a `Z` to their `not_after` when it is
  missing, and keeps the latest date.
- **The decision flow** (`checkDomain`, module `Lookup`). An RDAP body that
  cannot be read fails the whole lookup. crt.sh is asked only when the
  primary certificate source gave nothing. The fixed message "The domain
  registrar or registry does not provide this information publicly." is
  shown exactly when the RDAP branch does not throw and both dates are
  absent; when it throws, the exception's own message is shown instead.
- **The result panel** (module `Status`). It shows whole days remaining,
  using a floor and clamping at 0. The status is Safe above 60 days,
  Warning from 31 to 60, and Urgent at 30 or fewer. It is Warning when
  there is no domain date. The certificate count turns red below 30 days.
- **Putting it together.** The popup's two entry points, the submit button
  or Enter key and the active tab on opening, are in module `Popup`. Whole
  lookups on given service answers are in module `EndToEnd`.

The model represents the outside world as follows:

- Each network call is the settled outcome of the fetch:
  `Fetch<T> = Rejected | NotOk | Ok(Json<T>)`, where
  `Json<T> = Unparseable | Parsed(T)`.
- A `Network` value maps the cleaned domain to each service's outcome.
- A JavaScript `Date` is `JsDate = Valid(ms) | InvalidDate`.
  - Date parsing is a parameter `parse: string -> JsDate`.
  - An Invalid Date is kept, because it is truthy in JavaScript. It stops
    the fallback and it displays as NaN.
  - Every comparison with an Invalid Date is false. So once an Invalid Date
    is the running maximum of the crt.sh scan, it stays there.
- Clock readings are integer parameters.
- Exceptions that escape a lookup are the datatype `Uncaught`.

Shared building blocks are `Wrappers` (`Option` and `Result`) and `Js`
(dates, fetch outcomes, truthiness of string fields).

## Model

| member | source | states |
|---|---|---|
| Text.TakeUntil | popup.js:56 | `split('/')[0]` is the longest prefix without `/`: it holds no `/`, it is a prefix of the input, and it is followed by `/` or ends the input |
| Text.JoinSplit | popup.js:127 | splitting the SAN list on line breaks loses nothing: joining the pieces gives the input back |
| Text.SplitLength | popup.js:137 | the label count `split('.').length` is the number of dots plus one |
| Text.TrimFacts | popup.js:32 | `trim()` keeps a contiguous middle part of the input unchanged and drops only whitespace before and after it; the result has no whitespace at either end, and is empty exactly when the input is all whitespace |
| Text.TrimIdempotent | popup.js:32 | trimming twice is trimming once |
| DomainInput.Clean | popup.js:56 | the cleaned domain holds no `/`, so it never starts with `http://` or `https://`, and it is no longer than the input |
| DomainInput.CleanKeepsBareHost | popup.js:56 | an input with no `/` and no leading `www.` is returned unchanged |
| DomainInput.CleanRecoversHost | popup.js:56 | for any of no scheme, `http://` or `https://`, an optional `www.`, a host without `/` or `:`, and a path starting with `/`, cleaning returns the host |
| DomainInput.CleanTwiceIff | popup.js:56 | cleaning a cleaned domain changes it exactly when it still starts with `www.`, and then removes just those four characters |
| DomainInput.CleanStripsWww | popup.js:56 | a leading `www.` before a host without `/` is removed and nothing else is |
| DomainInput.CleanRemovesOneWww | popup.js:56 | `www.www.h` cleans to `www.h`, and only a second pass gives `h`: cleaning is not idempotent |
| DomainInput.CleanUpperCaseScheme | popup.js:56 | the scheme match is case-sensitive: `HTTPS://…` cleans to `HTTPS:` |
| DomainInput.SubmittedDomain | popup.js:32-33 | no lookup exactly when the box holds only whitespace; otherwise the trimmed text, which is non-empty and trim-stable |
| DomainInput.TabDomain | popup.js:20-22 | a domain exactly for protocols starting with `http`; it is the hostname less one leading `www.` |
| CertMatch.SanWildcardMeaning | popup.js:135-140 | once the target ends with the wildcard root, the label-count test holds exactly when the text in front of the root holds one dot, wherever it is |
| CertMatch.SanNameMatchesIff | popup.js:129-141 | a SAN entry matches exactly when, lower-cased and trimmed, it equals the target, or it is `*.root` with the target ending in `root` and one dot in front of it |
| CertMatch.WildcardCoversOneLabel | popup.js:134-140 | `*.root` covers `sub.root` for every label `sub` without a dot |
| CertMatch.WildcardNotLabelAligned | popup.js:137 | `*.root` also covers `a.b` glued to `root` (`a.bexample.com`), because the suffix test is on characters |
| CertMatch.WildcardRejectsTwoLabels | popup.js:137 | `*.root` does not cover `a.b.root` |
| CertMatch.WildcardRejectsLookalike | popup.js:137 | `*.root` does not cover a dot-free prefix glued to `root` (`evil-example.com`) |
| CertMatch.CommonNameWildcardAcceptsAnyDepth | popup.js:145-149 | a `*.root` common name accepts anything ending in `root`, at any depth |
| CertMatch.CommonNameIsLooser | popup.js:126-150 | for a name with no surrounding whitespace, the common-name rule accepts whatever the SAN rule accepts |
| CrtSh.EnsureUtc | popup.js:153-154 | the date string ends in `Z`, starts with the original, and is the original when that already ended in `Z` |
| CrtSh.EnsureUtcIdempotent | popup.js:154 | appending the `Z` a second time changes nothing |
| CrtSh.LatestUpToIsLatest | popup.js:157-159 | the running maximum is absent exactly when no record contributed; it is always one of the contributions; it is an Invalid Date exactly when the first contribution was; otherwise it is at least every valid contribution |
| CrtSh.CheckCrtSh | popup.js:109-167 | absent for a rejected fetch, a non-ok status, an unreadable body, a non-array body, or an array holding `null`; otherwise the latest contribution as above, which is also absent for an empty array or when no record applies |
| CrtSh.SanListScan | popup.js:126-143 | the early-exit loop over SAN entries finds a match exactly when some entry matches |
| CrtSh.RecordApplies | popup.js:123-150 | the SAN list decides when it is non-empty; the common name is consulted only otherwise |
| CrtSh.ScanRecord | popup.js:120-161 | one callback step throws exactly on a `null` entry; otherwise it is one step of that fold: the record's contribution replaces the maximum when nothing was kept yet or it is later |
| CrtSh.ScanEntries | popup.js:117-162 | the loop gives nothing when an entry is `null`, and otherwise ends on the fold of all contributions that `CrtSh.LatestUpToIsLatest` characterises |
| Rdap.FindExpiration | popup.js:173-176 | `find` returns the first expiration event, or throws at the first `null` entry before it, or finds nothing exactly when every entry is a non-expiration event |
| Rdap.FindExpiryDate | popup.js:169-182 | a `null` body throws; an `events` member that is missing or not an array gives nothing |
| Rdap.FirstExpirationDecides | popup.js:173-179 | only the first expiration event counts: its date when it has one, and nothing when it has none, whatever later events hold |
| Rdap.FindExpiryDateSomeIff | popup.js:169-182 | a date comes back exactly when the events form an array whose first expiration event, reached before any `null`, has a non-empty date |
| Rdap.FindExpiryDateThrowsIff | popup.js:171-176 | the extraction throws exactly for a `null` body or a `null` event reached before the first expiration event |
| PrimarySsl.PrimarySslDate | popup.js:78-85 | a date exactly when the response is ok, readable, and carries a certificate with a non-empty `valid_to`; the date is that string parsed; every failure gives nothing |
| Lookup.DomainExpiry | popup.js:66-72 | no date for a rejected fetch or non-ok status; an unreadable body throws; otherwise `findExpiryDate` of the body |
| Lookup.SslExpiry | popup.js:74-94 | the certificate date is the primary service's date whenever it gives one, and otherwise the crt.sh result; it is absent exactly when both are |
| Lookup.CheckDomain | popup.js:56-102 | the lookup fails with an exception exactly when the RDAP branch throws, and a successful lookup always has at least one date |
| Lookup.CheckDomainPassesDates | popup.js:96-100 | when RDAP does not throw, the fixed error comes exactly when both dates are absent, and otherwise both dates are handed on unchanged |
| Lookup.RdapJsonErrorIsFatal | popup.js:69-102 | an unreadable RDAP body fails the lookup whatever the certificate sources say |
| Lookup.CrtShOnlyAsFallback | popup.js:87-94 | when the primary certificate source gives a date, any crt.sh answer leaves the outcome unchanged; when it does not, the certificate date is the crt.sh result |
| Lookup.CheckDomainFoundIff | popup.js:66-100 | a lookup succeeds exactly when RDAP does not throw and at least one of the three sources yields a date |
| Lookup.CheckDomainSeesOnlyCleanedDomain | popup.js:56-63 | inputs that clean to the same domain get the same outcome |
| Status.DaysRemaining | popup.js:251-259 | NaN exactly for an Invalid Date; 0 for a date in the past; otherwise the day count `n` with `n*86400000 <= diff < (n+1)*86400000` |
| Status.DaysRemainingUnique | popup.js:256-258 | any whole `n` that fits the remaining time that way is the result |
| Status.DaysRemainingMonotone | popup.js:251-259 | a later expiry or an earlier clock reading never shows fewer days |
| Status.DomainTier | popup.js:201-210 | Safe exactly above 60 days, Warning exactly from 31 to 60, Urgent exactly at 30 or fewer or for NaN |
| Status.DomainTierMonotone | popup.js:201-210 | fewer days never give a milder tier |
| Status.DomainStatus | popup.js:189-216 | Warning when there is no domain date, otherwise the tier of its day count |
| Status.SslDangerStricterThanUrgent | popup.js:235-239 | a red certificate count would always be Urgent as a domain tier, but 30 days is Urgent without being red |
| Status.ExpiredIsUrgent | popup.js:255-256 | an expired or Invalid domain date gives the Urgent status |
| Status.PanelFor | popup.js:223-244 | a panel reads Not Found exactly when its date is absent, and otherwise shows the date and its day count |
| Status.Render | popup.js:184-247 | the status comes from the domain date, and the red highlight exactly from a certificate count below 30 |
| Status.RenderSeparatesPanels | popup.js:199-239 | changing the certificate date never changes the status, and changing the domain date never changes the highlight |
| Popup.ErrorText | popup.js:96-103 | the error panel shows the fixed sentence when no source knows a date, and otherwise the escaped exception's message |
| Popup.Check | popup.js:49-107 | the result panel appears exactly when the lookup found a date; it then shows the found domain date in the domain panel and the found certificate date in the certificate panel, each with its own day count, the status of the domain date, and the red highlight exactly for a certificate count below 30; the no-data failure shows the fixed sentence, and a thrown failure shows that exception's message |
| Popup.OnSubmit | popup.js:31-41 | no lookup exactly when the box is blank; otherwise a lookup of the trimmed text |
| Popup.OnSubmitIgnoresSurroundingWhitespace | popup.js:32-33 | submitting the trimmed text is the same as submitting the untrimmed text |
| Popup.OnTab | popup.js:16-29 | opening on a page starts a lookup exactly for `http` protocols, using the hostname less one `www.` |
| EndToEnd.SubdomainFallback | popup.js:87-100 | with no registry date and no primary certificate, a one-label subdomain gets the `not_after` (made UTC) of a logged `*.root` certificate |
| EndToEnd.WwwFallback | popup.js:56-100 | a `www.root` address looks up `root`, which the certificate's exact SAN entry matches, and gets its date |
| EndToEnd.BothSourcesAnswer | popup.js:66-100 | when the registry has an expiration event and the certificate service a `valid_to`, both are shown as given |

## Left out

- The DOM is not part of this model. That covers element lookups, showing and hiding panels, `toLocaleDateString` formatting, and the loading indicator in `finally`. The result is a `Report` or an error text instead; the status class and the certificate count's colour are its `status` and `sslDanger` fields.
- The N/A branch adds the warning class without removing an earlier status class, so a panel can keep two status classes. This is styling and is not modelled.
- Status.Render: `sslDanger` is false when there is no certificate date, but the N/A branch (popup.js:241-244) never resets the count's colour, so a red set by an earlier lookup stays. The model keeps no state between lookups and does not show that leftover colour.
- `chrome.tabs.query` and `new URL(...)` are not modelled. The tab's protocol and hostname are given as strings, and the "Invalid URL" path is left out.
- `fetch`, `response.json()` and `Promise.allSettled` are not modelled as I/O. Each service's settled outcome is given by a `Network` function of the cleaned domain. Network order and overlapping lookups (the tab lookup and a user lookup can both be in flight) are not modelled.
- Date parsing and range are not modelled. `new Date(string)` is the parameter `parse`, and time values are unbounded integers, so the ±8.64e15 ms limit of a JavaScript Date is ignored.
- Each day count is computed against its own clock reading (`domainNow`, `sslNow`), given as an integer. The clock itself is not modelled.
- The message of an exception that escapes a lookup depends on the JavaScript engine. It is the parameter `exceptionMessage`.
- `console.log` and `console.warn` output is left out.
- JSON fields are assumed to be strings, `null` or missing. A truthy non-string `name_value`, `common_name`, `not_after`, `valid_to` or `eventDate` (a number, say) is not modelled. An array element that is neither `null` nor an object behaves like an object without the fields, and the model represents it that way.
- Text.ToLower: only ASCII letters are lower-cased, where `toLowerCase` maps all of Unicode. Strings are sequences of Unicode scalar values, not UTF-16 code units.

## Behaviour of the code worth knowing

The model follows `popup.js` as written, including these consequences of it,
which a reader might not expect:

- Cleaning is not idempotent. `www.www.example.com` becomes
  `www.example.com`, and only a second pass gives `example.com`
  (`DomainInput.CleanRemovesOneWww`, `DomainInput.CleanTwiceIff`).
- The scheme match is case-sensitive. `HTTPS://example.com` is looked up
  as `HTTPS:` (`DomainInput.CleanUpperCaseScheme`).
- The SAN wildcard rule is a character suffix plus a label count, not a
  label-aligned match:
  - `*.example.com` covers `a.bexample.com` (`CertMatch.WildcardNotLabelAligned`).
  - It also covers a one-label subdomain such as `shop.example.com`, so
    crt.sh reports that certificate's date for such a lookup
    (`EndToEnd.SubdomainFallback`).
- A `www.example.com` lookup is made for `example.com`, because cleaning
  strips the `www.`. That name is matched exactly by a SAN entry
  `example.com`, not by the wildcard `*.example.com`
  (`EndToEnd.WwwFallback`).
- The common-name rule neither trims nor counts labels
  (`CertMatch.CommonNameWildcardAcceptsAnyDepth`).
- The certificate count turns red below 30 days, while the domain is
  Urgent at 30 days or fewer (`Status.SslDangerStricterThanUrgent`).
- An unreadable RDAP body is not caught where it is read. It fails the
  whole lookup even when a certificate date was available
  (`Lookup.RdapJsonErrorIsFatal`).

/**
 * Whole lookups on given service answers: a registry and certificate
 * service that both answer, and the certificate-transparency fallback for
 * a one-label subdomain and for a `www.` address, when the log holds a
 * single certificate for `*.root` and `root`.
 */
module EndToEnd {
  import opened Wrappers
  import opened Text
  import opened Js
  import opened DomainInput
  import opened CertMatch
  import opened Rdap
  import opened PrimarySsl
  import opened CrtSh
  import opened Lookup

  /**
   * A registrable name such as `example.com`: lower case, no `/`, `:` or
   * line break, and no whitespace at either end.
   */
  predicate PlainRoot(root: string) {
    && root != []
    && IsLowerCase(root)
    && !IsWhitespace(root[0]) && !IsWhitespace(root[|root| - 1])
    && '/' !in root && ':' !in root && '\n' !in root
  }

  /** A logged certificate for `*.root` and `root`, with no common name. */
  function WildcardRecord(root: string, notAfter: string): CertRecord {
    CertRecord(Some("*." + root + "\n" + root), None, Some(notAfter))
  }

  /** A crt.sh answer holding that record alone. */
  function SingleRecordAnswer(rec: CertRecord): Fetch<CrtBody> {
    Ok(Parsed(Entries([Cert(rec)])))
  }

  /** The SAN list of the record splits into the wildcard and the bare name. */
  lemma WildcardRecordNames(root: string)
    requires '\n' !in root
    ensures Split("*." + root + "\n" + root, '\n') == ["*." + root, root]
  {
    var first := "*." + root;
    assert forall c :: c in first ==> c == '*' || c == '.' || c in root;
    SplitWithoutSeparator(root, '\n');
    SplitAtFirst(first, root, '\n');
  }

  /**
   * When a single record applies to the lower-cased domain, crt.sh yields
   * its `not_after`, made UTC.
   */
  lemma SingleRecordYields(rec: CertRecord, domain: string, parse: string -> JsDate)
    requires Applies(rec, ToLower(domain)) && Truthy(rec.notAfter)
    ensures CheckCrtSh(SingleRecordAnswer(rec), domain, parse) == Some(parse(EnsureUtc(rec.notAfter.value)))
  {
    var entries := [Cert(rec)];
    CandidatesAt(entries, ToLower(domain), parse, 0);
    assert !HasNullEntry(entries);
  }

  lemma LowerCaseJoin(a: string, b: string)
    requires IsLowerCase(a) && IsLowerCase(b)
    ensures IsLowerCase(a + "." + b)
  {
  }

  /** The wildcard record applies to a one-label subdomain of its root. */
  lemma WildcardRecordAppliesToSubdomain(sub: string, root: string, notAfter: string)
    requires PlainRoot(root)
    requires IsLowerCase(sub) && '.' !in sub
    ensures ToLower(sub + "." + root) == sub + "." + root
    ensures Applies(WildcardRecord(root, notAfter), sub + "." + root)
  {
    var host := sub + "." + root;
    LowerCaseJoin(sub, root);
    LowerCaseUnchanged(host);
    WildcardCoversOneLabel(sub, root);
    WildcardRecordNames(root);
    assert SanNameMatches(Split("*." + root + "\n" + root, '\n')[0], host);
  }

  /**
   * A subdomain one label deep (`shop.example.com`) is matched by the
   * wildcard entry, so the crt.sh date is reported when the other sources
   * have nothing.
   */
  lemma SubdomainFallback(sub: string, root: string, notAfter: string, net: Network, parse: string -> JsDate)
    requires PlainRoot(root) && notAfter != ""
    requires IsLowerCase(sub) && '.' !in sub && '/' !in sub
    requires !StartsWith(sub + "." + root, "www.")
    requires net.rdap(sub + "." + root) == NotOk
    requires net.certificate(sub + "." + root) == Ok(Parsed(SslObject(None)))
    requires net.crtSh(sub + "." + root) == SingleRecordAnswer(WildcardRecord(root, notAfter))
    ensures CheckDomain(sub + "." + root, net, parse) == Found(None, Some(parse(EnsureUtc(notAfter))))
  {
    var host := sub + "." + root;
    assert forall c :: c in host ==> c in sub || c == '.' || c in root;
    CleanKeepsBareHost(host);
    WildcardRecordAppliesToSubdomain(sub, root, notAfter);
    SingleRecordYields(WildcardRecord(root, notAfter), host, parse);
  }

  /** The wildcard record applies to its root through the exact entry. */
  lemma WildcardRecordAppliesToRoot(root: string, notAfter: string)
    requires PlainRoot(root)
    ensures ToLower(root) == root
    ensures Applies(WildcardRecord(root, notAfter), root)
  {
    LowerCaseUnchanged(root);
    TrimUnchanged(root);
    WildcardRecordNames(root);
    assert SanNameMatches(Split("*." + root + "\n" + root, '\n')[1], root);
  }

  /**
   * A `www.` address (`www.example.com`) looks up the bare name, which the
   * record's second SAN entry names exactly.
   */
  lemma WwwFallback(root: string, notAfter: string, net: Network, parse: string -> JsDate)
    requires PlainRoot(root) && notAfter != ""
    requires net.rdap(root) == NotOk
    requires net.certificate(root) == Ok(Parsed(SslObject(None)))
    requires net.crtSh(root) == SingleRecordAnswer(WildcardRecord(root, notAfter))
    ensures CheckDomain("www." + root, net, parse) == Found(None, Some(parse(EnsureUtc(notAfter))))
  {
    CleanStripsWww(root);
    WildcardRecordAppliesToRoot(root, notAfter);
    SingleRecordYields(WildcardRecord(root, notAfter), root, parse);
  }

  /**
   * Both primary sources answer: the registry's expiration event and the
   * certificate's `valid_to` are shown, whatever crt.sh would have said.
   */
  lemma BothSourcesAnswer(domain: string, expiry: string, validTo: string, net: Network, parse: string -> JsDate)
    requires expiry != "" && validTo != ""
    requires net.rdap(Clean(domain)) ==
      Ok(Parsed(RdapObject(EventArray([Event(RdapEvent(Some("expiration"), Some(expiry)))]))))
    requires net.certificate(Clean(domain)) == Ok(Parsed(SslObject(Some(SslCertificate(Some(validTo))))))
    ensures CheckDomain(domain, net, parse) == Found(Some(parse(expiry)), Some(parse(validTo)))
  {
    var entries := [Event(RdapEvent(Some("expiration"), Some(expiry)))];
    assert IsFirstExpiration(entries, 0);
    FirstExpirationDecides(entries, 0, parse);
  }
}

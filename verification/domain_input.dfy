/**
 * How a raw string becomes the domain that is looked up: the user's
 * submission is trimmed and rejected when empty, a browser tab's hostname
 * loses one leading `www.`, and the lookup itself strips a scheme, one
 * `www.` and everything from the first `/`.
 */
module DomainInput {
  import opened Wrappers
  import opened Text

  /** Removes a leading `https://` or `http://` (the `https?://` part of the cleaning regex). */
  function StripScheme(s: string): string {
    if StartsWith(s, "https://") then s[8..]
    else if StartsWith(s, "http://") then s[7..]
    else s
  }

  /** Removes one leading `www.` (the `(www\.)?` part of the cleaning regex). */
  function StripWww(s: string): string {
    if StartsWith(s, "www.") then s[4..] else s
  }

  /**
   * The cleaning step at the start of a lookup: the regex
   * `^(https?://)?(www\.)?` is replaced by nothing, then the string is cut
   * at its first `/`. The result never holds a `/`, hence never a scheme.
   */
  function Clean(raw: string): (host: string)
    ensures '/' !in host
    ensures !StartsWith(host, "http://") && !StartsWith(host, "https://")
    ensures |host| <= |raw|
  {
    var host := TakeUntil(StripWww(StripScheme(raw)), '/');
    SchemeHasSlash(host);
    host
  }

  /** Both schemes hold a `/` at index 6. */
  lemma SchemeHasSlash(s: string)
    ensures StartsWith(s, "http://") || StartsWith(s, "https://") ==> '/' in s
  {
    if StartsWith(s, "http://") || StartsWith(s, "https://") {
      assert s[6] == '/';
    }
  }

  /** A prefix that disagrees with `s` at one position is not a prefix of `s`. */
  lemma NotPrefixAt(s: string, prefix: string, k: nat)
    requires k < |prefix| && k < |s| && s[k] != prefix[k]
    ensures !StartsWith(s, prefix)
  {
    if |prefix| <= |s| {
      assert s[..|prefix|][k] == s[k];
    }
  }

  lemma NoSlashNoScheme(s: string)
    requires '/' !in s
    ensures StripScheme(s) == s
  {
    SchemeHasSlash(s);
  }

  lemma NoSlashTakeAll(s: string)
    requires '/' !in s
    ensures TakeUntil(s, '/') == s
  {
  }

  /** A string with no scheme, no leading `www.` and no `/` is already clean. */
  lemma CleanKeepsBareHost(s: string)
    requires '/' !in s && !StartsWith(s, "www.")
    ensures Clean(s) == s
  {
    NoSlashNoScheme(s);
    NoSlashTakeAll(s);
  }

  lemma StripSchemeOf(scheme: string, rest: string)
    requires scheme == "http://" || scheme == "https://"
    ensures StripScheme(scheme + rest) == rest
  {
    var url := scheme + rest;
    assert url[..|scheme|] == scheme;
    assert url[|scheme|..] == rest;
    if scheme == "http://" {
      NotPrefixAt(url, "https://", 4);
    }
  }

  /** A host without `/` or `:`, followed by a path, does not look like a scheme. */
  lemma HostPathNoScheme(host: string, path: string)
    requires '/' !in host && ':' !in host
    requires path == [] || path[0] == '/'
    ensures StripScheme(host + path) == host + path
  {
    var u := host + path;
    if |host| >= 6 {
      assert u[4] == host[4] && u[5] == host[5];
      NotPrefixAt(u, "http://", 4);
      NotPrefixAt(u, "https://", 5);
    } else if path != [] {
      assert u[|host|] == '/';
      NotPrefixAt(u, "https://", |host|);
      if |host| == 5 {
        assert u[4] == host[4];
        NotPrefixAt(u, "http://", 4);
      } else {
        NotPrefixAt(u, "http://", |host|);
      }
    } else {
      assert u == host;
      if |host| == 5 {
        assert u[4] == host[4];
        NotPrefixAt(u, "http://", 4);
      }
    }
  }

  /** A host that does not start with `www.`, followed by a path, keeps its first label. */
  lemma HostPathNoWww(host: string, path: string)
    requires '/' !in host && !StartsWith(host, "www.")
    requires path == [] || path[0] == '/'
    ensures StripWww(host + path) == host + path
  {
    var u := host + path;
    if |host| >= 4 {
      assert u[..4] == host[..4];
    } else if path != [] {
      assert u[|host|] == '/';
      NotPrefixAt(u, "www.", |host|);
    } else {
      assert u == host;
    }
  }

  lemma TakeUntilHost(host: string, path: string)
    requires '/' !in host
    requires path == [] || path[0] == '/'
    ensures TakeUntil(host + path, '/') == host
  {
    var u := host + path;
    if path == [] {
      assert u == host;
    } else {
      assert u[|host|] == '/';
      assert forall j :: 0 <= j < |host| ==> u[j] == host[j];
      assert IndexOf(u, '/') == |host|;
      assert u[..|host|] == host;
    }
  }

  lemma StripSchemeOfUrl(scheme: string, www: bool, host: string, path: string)
    requires scheme == "" || scheme == "http://" || scheme == "https://"
    requires '/' !in host && ':' !in host
    requires path == [] || path[0] == '/'
    ensures var w := if www then "www." else "";
      StripScheme(scheme + w + host + path) == w + host + path
  {
    var w := if www then "www." else "";
    var rest := w + host + path;
    var url := scheme + w + host + path;
    assert url == scheme + rest;
    if scheme == "" {
      assert url == rest;
      if www {
        NotPrefixAt(url, "https://", 0);
        NotPrefixAt(url, "http://", 0);
      } else {
        assert rest == host + path;
        HostPathNoScheme(host, path);
      }
    } else {
      StripSchemeOf(scheme, rest);
    }
  }

  lemma StripWwwOfRest(www: bool, host: string, path: string)
    requires '/' !in host
    requires path == [] || path[0] == '/'
    requires www || !StartsWith(host, "www.")
    ensures StripWww((if www then "www." else "") + host + path) == host + path
  {
    var rest := (if www then "www." else "") + host + path;
    if www {
      assert rest == "www." + (host + path);
      assert rest[..4] == "www.";
      assert rest[4..] == host + path;
    } else {
      assert rest == host + path;
      HostPathNoWww(host, path);
    }
  }

  /**
   * Cleaning recovers the host from a URL built around it: any of the three
   * scheme choices, an optional `www.`, and a path that starts with `/`. The
   * host holds neither `/` nor `:`, and starts with `www.` only when the URL
   * also carries its own `www.` (one `www.` is all the regex removes).
   */
  lemma CleanRecoversHost(scheme: string, www: bool, host: string, path: string)
    requires scheme == "" || scheme == "http://" || scheme == "https://"
    requires '/' !in host && ':' !in host
    requires path == [] || path[0] == '/'
    requires www || !StartsWith(host, "www.")
    ensures Clean(scheme + (if www then "www." else "") + host + path) == host
  {
    var w := if www then "www." else "";
    var rest := w + host + path;
    var url := scheme + w + host + path;
    StripSchemeOfUrl(scheme, www, host, path);
    assert StripScheme(url) == rest;
    StripWwwOfRest(www, host, path);
    assert StripWww(rest) == host + path;
    TakeUntilHost(host, path);
  }

  /**
   * Cleaning is idempotent on exactly the results that do not start with
   * `www.`: a second pass removes one more `www.` and nothing else.
   */
  lemma CleanTwiceIff(raw: string)
    ensures Clean(Clean(raw)) == Clean(raw) <==> !StartsWith(Clean(raw), "www.")
    ensures StartsWith(Clean(raw), "www.") ==> Clean(Clean(raw)) == Clean(raw)[4..]
  {
    var h := Clean(raw);
    NoSlashNoScheme(h);
    if StartsWith(h, "www.") {
      assert forall x :: x in h[4..] ==> x in h;
      NoSlashTakeAll(h[4..]);
    } else {
      NoSlashTakeAll(h);
    }
  }

  /** A leading `www.` in front of a host without `/` is all that cleaning removes. */
  lemma CleanStripsWww(host: string)
    requires '/' !in host
    ensures Clean("www." + host) == host
  {
    var s := "www." + host;
    NotPrefixAt(s, "https://", 0);
    NotPrefixAt(s, "http://", 0);
    assert s[..4] == "www." && s[4..] == host;
    NoSlashTakeAll(host);
  }

  /**
   * One `www.` is all a pass removes: `www.www.example.com` cleans to
   * `www.example.com`, and only a second pass reaches `example.com`.
   */
  lemma CleanRemovesOneWww(host: string)
    requires '/' !in host
    ensures Clean("www.www." + host) == "www." + host
    ensures Clean(Clean("www.www." + host)) == host
  {
    var once := "www." + host;
    assert forall c :: c in once ==> c in "www." || c in host;
    CleanStripsWww(once);
    assert "www." + once == "www.www." + host;
    CleanStripsWww(host);
  }

  /**
   * The scheme is matched case-sensitively: `HTTPS://example.com` keeps its
   * scheme, and the cut at the first `/` leaves `HTTPS:`.
   */
  lemma CleanUpperCaseScheme(rest: string)
    ensures Clean("HTTPS://" + rest) == "HTTPS:"
  {
    var s := "HTTPS://" + rest;
    NotPrefixAt(s, "https://", 0);
    NotPrefixAt(s, "http://", 0);
    NotPrefixAt(s, "www.", 0);
    TakeUntilHost("HTTPS:", "//" + rest);
    assert "HTTPS:" + ("//" + rest) == s;
  }

  /**
   * The text typed into the input box: trimmed, and no lookup is made when
   * nothing is left.
   */
  function SubmittedDomain(value: string): (domain: Option<string>)
    ensures domain.None? <==> forall i :: 0 <= i < |value| ==> IsWhitespace(value[i])
    ensures domain.Some? ==> domain.value != "" && Trim(domain.value) == domain.value
    ensures domain.Some? ==> domain.value == Trim(value)
  {
    var d := Trim(value);
    TrimFacts(value);
    if d == "" then None
    else
      TrimIdempotent(value);
      Some(d)
  }

  /**
   * The domain pre-filled from the active tab: only for a protocol that
   * starts with `http`, with one leading `www.` removed from the hostname.
   */
  function TabDomain(protocol: string, hostname: string): (domain: Option<string>)
    ensures domain.Some? <==> StartsWith(protocol, "http")
    ensures domain.Some? && StartsWith(hostname, "www.") ==> hostname == "www." + domain.value
    ensures domain.Some? && !StartsWith(hostname, "www.") ==> domain.value == hostname
  {
    if StartsWith(protocol, "http") then Some(StripWww(hostname)) else None
  }
}

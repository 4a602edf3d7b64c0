/**
 * Whether a certificate found in the certificate-transparency log covers
 * the domain being checked: by its Subject Alternative Names when it lists
 * any, otherwise by its common name. `search` is always the lower-cased
 * domain.
 */
module CertMatch {
  import opened Text

  /** `s.split('.').length`. */
  function LabelCount(s: string): nat {
    |Split(s, '.')|
  }

  /**
   * The SAN wildcard rule for `*.root`: the target ends with `root` and has
   * exactly one label more. The suffix test is on characters, not labels.
   */
  predicate SanWildcardCovers(root: string, search: string) {
    EndsWith(search, root) && LabelCount(search) == LabelCount(root) + 1
  }

  /** One SAN entry, lower-cased then trimmed, against the target. */
  predicate SanNameMatches(name: string, search: string) {
    var n := Trim(ToLower(name));
    n == search || (StartsWith(n, "*.") && SanWildcardCovers(n[2..], search))
  }

  /** A newline-separated SAN list applies when any of its entries matches. */
  predicate SanListApplies(nameValue: string, search: string) {
    var names := Split(nameValue, '\n');
    exists k :: 0 <= k < |names| && SanNameMatches(names[k], search)
  }

  /**
   * The common-name rule: lower-cased but not trimmed, and a `*.root`
   * wildcard needs only the suffix, with no label count.
   */
  predicate CommonNameMatches(commonName: string, search: string) {
    var cn := ToLower(commonName);
    cn == search || (StartsWith(cn, "*.") && EndsWith(search, cn[2..]))
  }

  /**
   * What the SAN wildcard test means: once the target ends with `root`, the
   * label counts differ by one exactly when the part of the target in front
   * of `root` holds exactly one dot, wherever that dot is.
   */
  lemma {:induction false} SanWildcardMeaning(root: string, search: string)
    requires EndsWith(search, root)
    ensures SanWildcardCovers(root, search) <==> Count(search[..|search| - |root|], '.') == 1
  {
    var front := search[..|search| - |root|];
    assert search == front + root;
    CountConcat(front, root, '.');
    SplitLength(search, '.');
    SplitLength(root, '.');
  }

  /**
   * A SAN entry matches exactly when, lower-cased and trimmed, it is the
   * target itself, or it is `*.root` where the target ends with `root` and
   * the text in front of `root` holds exactly one dot.
   */
  lemma SanNameMatchesIff(name: string, search: string)
    ensures var n := Trim(ToLower(name));
      SanNameMatches(name, search) <==>
        || n == search
        || (&& StartsWith(n, "*.")
            && EndsWith(search, n[2..])
            && Count(search[..|search| - (|n| - 2)], '.') == 1)
  {
    var n := Trim(ToLower(name));
    if StartsWith(n, "*.") && EndsWith(search, n[2..]) {
      SanWildcardMeaning(n[2..], search);
    }
  }

  /** A string made only of characters that lower-casing keeps. */
  predicate IsLowerCase(s: string) {
    forall i :: 0 <= i < |s| ==> LowerChar(s[i]) == s[i]
  }

  /** Lower-casing leaves a lower-case string as it is. */
  lemma LowerCaseUnchanged(s: string)
    requires IsLowerCase(s)
    ensures ToLower(s) == s
  {
    ToLowerChars(s);
  }

  /** Lower-casing and trimming leave a lower-case `*.root` as it is. */
  lemma WildcardNameIsNormal(root: string)
    requires IsLowerCase(root)
    requires root == [] || !IsWhitespace(root[|root| - 1])
    ensures Trim(ToLower("*." + root)) == "*." + root
  {
    var name := "*." + root;
    ToLowerConcat("*.", root);
    LowerCaseUnchanged(root);
    assert ToLower("*.") == "*.";
    TrimUnchanged(name);
  }

  /**
   * A wildcard SAN covers every one-label subdomain of its root: `*.root`
   * matches `sub.root` for any label `sub` without a dot. The root is
   * written in lower case and does not end in whitespace.
   */
  lemma {:induction false} WildcardCoversOneLabel(sub: string, root: string)
    requires '.' !in sub
    requires IsLowerCase(root)
    requires root == [] || !IsWhitespace(root[|root| - 1])
    ensures SanNameMatches("*." + root, sub + "." + root)
  {
    var name := "*." + root;
    var search := sub + "." + root;
    WildcardNameIsNormal(root);
    assert name[..2] == "*.";
    assert name[2..] == root;
    assert search[|search| - |root|..] == root;
    assert search[..|search| - |root|] == sub + ".";
    CountConcat(sub, ".", '.');
    CountAbsent(sub, '.');
    SanWildcardMeaning(root, search);
  }

  /**
   * The common-name rule accepts whatever the SAN rule accepts for a name
   * with no surrounding whitespace: it is the looser of the two.
   */
  lemma CommonNameIsLooser(name: string, search: string)
    requires Trim(ToLower(name)) == ToLower(name)
    ensures SanNameMatches(name, search) ==> CommonNameMatches(name, search)
  {
  }

  /** The text in front of `root` in `front + root`. */
  lemma FrontOf(front: string, root: string)
    ensures EndsWith(front + root, root)
    ensures (front + root)[..|front + root| - |root|] == front
  {
    var t := front + root;
    assert t[|t| - |root|..] == root;
    assert t[..|t| - |root|] == front;
  }

  /**
   * The SAN wildcard is not aligned on labels: `*.root` covers `a.b` glued
   * to `root` (`*.example.com` covers `a.bexample.com`), since only the
   * characters and the label count are compared.
   */
  lemma {:induction false} WildcardNotLabelAligned(a: string, b: string, root: string)
    requires '.' !in a && '.' !in b
    requires IsLowerCase(root)
    requires root == [] || !IsWhitespace(root[|root| - 1])
    ensures SanNameMatches("*." + root, a + "." + b + root)
  {
    var front := a + "." + b;
    assert a + "." + b + root == front + root;
    WildcardNameIsNormal(root);
    FrontOf(front, root);
    CountConcat(a + ".", b, '.');
    CountConcat(a, ".", '.');
    CountAbsent(a, '.');
    CountAbsent(b, '.');
    SanWildcardMeaning(root, front + root);
    assert ("*." + root)[..2] == "*." && ("*." + root)[2..] == root;
  }

  /**
   * Two labels in front of the root are one too many for the SAN rule:
   * `*.example.com` does not cover `a.b.example.com`.
   */
  lemma {:induction false} WildcardRejectsTwoLabels(a: string, b: string, root: string)
    requires a != [] && '.' !in a && '.' !in b
    requires IsLowerCase(root)
    requires root == [] || !IsWhitespace(root[|root| - 1])
    ensures !SanNameMatches("*." + root, a + "." + b + "." + root)
  {
    var front := a + "." + b + ".";
    var search := a + "." + b + "." + root;
    assert search == front + root;
    WildcardNameIsNormal(root);
    FrontOf(front, root);
    CountConcat(a + "." + b, ".", '.');
    CountConcat(a + ".", b, '.');
    CountConcat(a, ".", '.');
    CountAbsent(a, '.');
    CountAbsent(b, '.');
    SanWildcardMeaning(root, search);
    assert ("*." + root)[2..] == root;
  }

  /**
   * A look-alike that merely ends in the root is refused by the SAN rule:
   * `*.example.com` does not cover `evil-example.com`.
   */
  lemma {:induction false} WildcardRejectsLookalike(prefix: string, root: string)
    requires '.' !in prefix
    requires IsLowerCase(root)
    requires root == [] || !IsWhitespace(root[|root| - 1])
    ensures !SanNameMatches("*." + root, prefix + root)
  {
    WildcardNameIsNormal(root);
    FrontOf(prefix, root);
    CountAbsent(prefix, '.');
    SanWildcardMeaning(root, prefix + root);
    assert ("*." + root)[2..] == root;
  }

  /**
   * The common-name wildcard has no label count: `*.root` as a common name
   * accepts anything that ends in `root` (`*.example.com` accepts
   * `a.b.example.com`).
   */
  lemma CommonNameWildcardAcceptsAnyDepth(front: string, root: string)
    requires IsLowerCase(root)
    ensures CommonNameMatches("*." + root, front + root)
  {
    ToLowerConcat("*.", root);
    LowerCaseUnchanged(root);
    assert ToLower("*.") == "*.";
    FrontOf(front, root);
    assert ("*." + root)[..2] == "*." && ("*." + root)[2..] == root;
  }
}

/**
 * The certificate-transparency fallback (`checkCrtSh`): among the logged
 * certificates that cover the domain and carry a `not_after`, the latest
 * expiry wins. Any failure yields `null` (here `None`); nothing escapes.
 */
module CrtSh {
  import opened Wrappers
  import opened Text
  import opened Js
  import opened CertMatch

  /** One crt.sh record; a missing or `null` field is `None`. */
  datatype CertRecord = CertRecord(
    nameValue: Option<string>,
    commonName: Option<string>,
    notAfter: Option<string>)

  /** An element of the returned JSON array: a record, or `null`. */
  datatype CrtEntry = NullEntry | Cert(record: CertRecord)

  /**
   * The parsed body: an array of entries, or anything else (`null`, an
   * object, a number), all of which are rejected alike.
   */
  datatype CrtBody = NotAnArray | Entries(entries: seq<CrtEntry>)

  /**
   * A record applies when its SAN list is non-empty and matches, or, when
   * it has no SAN list, when its common name matches. A SAN list that does
   * not match does not fall back to the common name.
   */
  predicate Applies(rec: CertRecord, search: string) {
    if Truthy(rec.nameValue) then SanListApplies(rec.nameValue.value, search)
    else Truthy(rec.commonName) && CommonNameMatches(rec.commonName.value, search)
  }

  /** A `Z` is appended to a date string that does not already end in one, so it reads as UTC. */
  function EnsureUtc(date: string): (r: string)
    ensures EndsWith(r, "Z")
    ensures StartsWith(r, date) && |r| <= |date| + 1
    ensures EndsWith(date, "Z") ==> r == date
  {
    if EndsWith(date, "Z") then date
    else
      assert (date + "Z")[..|date|] == date;
      date + "Z"
  }

  /** Appending a `Z` a second time changes nothing. */
  lemma EnsureUtcIdempotent(date: string)
    ensures EnsureUtc(EnsureUtc(date)) == EnsureUtc(date)
  {
  }

  /**
   * The expiry an entry contributes: the parsed, UTC-forced `not_after` of
   * an applying record that has one, and nothing otherwise.
   */
  function CandidateDate(entry: CrtEntry, search: string, parse: string -> JsDate): Option<JsDate> {
    match entry
    case NullEntry => None
    case Cert(rec) =>
      if Applies(rec, search) && Truthy(rec.notAfter) then Some(parse(EnsureUtc(rec.notAfter.value)))
      else None
  }

  /** The contribution of every entry, in array order. */
  function Candidates(entries: seq<CrtEntry>, search: string, parse: string -> JsDate): (cs: seq<Option<JsDate>>)
    ensures |cs| == |entries|
    decreases |entries|
  {
    if entries == [] then []
    else [CandidateDate(entries[0], search, parse)] + Candidates(entries[1..], search, parse)
  }

  /** Position `i` of the contributions is what `entries[i]` contributes. */
  lemma {:induction false} CandidatesAt(entries: seq<CrtEntry>, search: string, parse: string -> JsDate, i: nat)
    requires i < |entries|
    ensures Candidates(entries, search, parse)[i] == CandidateDate(entries[i], search, parse)
    decreases i
  {
    if i > 0 {
      CandidatesAt(entries[1..], search, parse, i - 1);
    }
  }

  /**
   * One step of the scan: a candidate replaces the running maximum when
   * there is none yet, or when it is later. An Invalid Date is never later
   * than anything and nothing is later than it.
   */
  function Keep(acc: Option<JsDate>, candidate: Option<JsDate>): Option<JsDate> {
    match candidate
    case None => acc
    case Some(d) => if acc.None? || Later(d, acc.value) then candidate else acc
  }

  /** The running maximum after the first `k` contributions. */
  function LatestUpTo(cs: seq<Option<JsDate>>, k: nat): Option<JsDate>
    requires k <= |cs|
    decreases k
  {
    if k == 0 then None else Keep(LatestUpTo(cs, k - 1), cs[k - 1])
  }

  /** None of the first `k` contributions is a date. */
  predicate NoCandidate(cs: seq<Option<JsDate>>, k: nat)
    requires k <= |cs|
  {
    forall i :: 0 <= i < k ==> cs[i].None?
  }

  /** The first date among the first `k` contributions is an Invalid Date. */
  predicate FirstCandidateInvalid(cs: seq<Option<JsDate>>, k: nat)
    requires k <= |cs|
  {
    exists i :: 0 <= i < k && cs[i] == Some(InvalidDate) && NoCandidate(cs, i)
  }

  /** A contribution that is absent, Invalid, or no later than `d`. */
  predicate AtMost(c: Option<JsDate>, d: int) {
    c.Some? && c.value.Valid? ==> c.value.ms <= d
  }

  /**
   * What the scan of the first `k` contributions yields, stated without the
   * scan: nothing when there is no date; an Invalid Date exactly when the
   * first date is Invalid (it then sticks, since nothing compares later than
   * it); otherwise the greatest valid date. The result is always one of the
   * contributions.
   */
  predicate IsLatest(r: Option<JsDate>, cs: seq<Option<JsDate>>, k: nat)
    requires k <= |cs|
  {
    && (r.None? <==> NoCandidate(cs, k))
    && (r.Some? ==> exists i :: 0 <= i < k && cs[i] == r)
    && (r == Some(InvalidDate) <==> FirstCandidateInvalid(cs, k))
    && (r.Some? && r.value.Valid? ==> forall i :: 0 <= i < k ==> AtMost(cs[i], r.value.ms))
  }

  lemma {:induction false} LatestUpToIsLatest(cs: seq<Option<JsDate>>, k: nat)
    requires k <= |cs|
    ensures IsLatest(LatestUpTo(cs, k), cs, k)
    decreases k
  {
    if k > 0 {
      LatestUpToIsLatest(cs, k - 1);
      var prev := LatestUpTo(cs, k - 1);
      var c := cs[k - 1];
      var r := LatestUpTo(cs, k);
      assert r == Keep(prev, c);
      if c.None? {
        assert r == prev;
        assert FirstCandidateInvalid(cs, k) ==> FirstCandidateInvalid(cs, k - 1);
      } else if prev.None? {
        assert r == c;
        assert NoCandidate(cs, k - 1);
        if c.value.InvalidDate? {
          assert FirstCandidateInvalid(cs, k);
        } else {
          assert !FirstCandidateInvalid(cs, k);
        }
      } else {
        assert !NoCandidate(cs, k - 1);
        assert FirstCandidateInvalid(cs, k) ==> FirstCandidateInvalid(cs, k - 1);
        if Later(c.value, prev.value) {
          assert r == c;
          assert !FirstCandidateInvalid(cs, k - 1);
        } else {
          assert r == prev;
        }
      }
    }
  }

  /** Some entry is `null`. */
  predicate HasNullEntry(entries: seq<CrtEntry>) {
    NullEntry in entries
  }

  /**
   * `checkCrtSh`: `None` for a rejected fetch, a non-ok status, an
   * unparseable body, a body that is not an array, an empty array, an array
   * holding `null` (reading a field of it throws inside the scan and the
   * exception is caught), and when no record contributes a date; otherwise
   * the latest contribution as `IsLatest` describes it.
   */
  function CheckCrtSh(response: Fetch<CrtBody>, domain: string, parse: string -> JsDate): (r: Option<JsDate>)
    ensures !(response.Ok? && response.body.Parsed? && response.body.value.Entries?) ==> r.None?
    ensures response.Ok? && response.body.Parsed? && response.body.value.Entries? ==>
      var entries := response.body.value.entries;
      && (HasNullEntry(entries) ==> r.None?)
      && (!HasNullEntry(entries) ==> IsLatest(r, Candidates(entries, ToLower(domain), parse), |entries|))
  {
    match response
    case Rejected => None
    case NotOk => None
    case Ok(Unparseable) => None
    case Ok(Parsed(NotAnArray)) => None
    case Ok(Parsed(Entries(entries))) =>
      if |entries| == 0 || HasNullEntry(entries) then None
      else
        var cs := Candidates(entries, ToLower(domain), parse);
        LatestUpToIsLatest(cs, |cs|);
        LatestUpTo(cs, |cs|)
  }

  /** The SAN loop of the scan, stopping at the first matching entry. */
  method SanListScan(nameValue: string, search: string) returns (applies: bool)
    ensures applies == SanListApplies(nameValue, search)
  {
    var names := Split(nameValue, '\n');
    applies := false;
    var k := 0;
    while k < |names|
      invariant 0 <= k <= |names|
      invariant forall j :: 0 <= j < k ==> !SanNameMatches(names[j], search)
    {
      if SanNameMatches(names[k], search) {
        applies := true;
        break;
      }
      k := k + 1;
    }
  }

  /** Whether a record applies; the common name is read only when there is no SAN list. */
  method RecordApplies(rec: CertRecord, search: string) returns (applies: bool)
    ensures applies == Applies(rec, search)
  {
    applies := false;
    if Truthy(rec.nameValue) {
      applies := SanListScan(rec.nameValue.value, search);
    } else if Truthy(rec.commonName) {
      var cn := ToLower(rec.commonName.value);
      if cn == search || (StartsWith(cn, "*.") && EndsWith(search, cn[2..])) {
        applies := true;
      }
    }
  }

  /**
   * The body of the `forEach` callback for `entries[i]`: reading a field of
   * `null` throws; otherwise the running maximum takes the record's
   * contribution when there is none yet or when it is later.
   */
  method ScanRecord(maxDate: Option<JsDate>, entries: seq<CrtEntry>, i: nat, search: string, parse: string -> JsDate)
    returns (next: Option<JsDate>, threw: bool)
    requires i < |entries|
    ensures threw <==> entries[i].NullEntry?
    ensures !threw ==> next == Keep(maxDate, Candidates(entries, search, parse)[i])
  {
    next, threw := maxDate, false;
    if entries[i].NullEntry? {
      threw := true;
      return;
    }
    var rec := entries[i].record;
    CandidatesAt(entries, search, parse, i);
    var applies := RecordApplies(rec, search);
    if applies && Truthy(rec.notAfter) {
      var date := parse(EnsureUtc(rec.notAfter.value));
      if maxDate.None? || Later(date, maxDate.value) {
        next := Some(date);
      }
    }
  }

  /**
   * The `forEach` scan of the parsed array inside its `try`: a `null` entry
   * throws, which the `try` turns into `null`; otherwise the running
   * maximum ends as the fold `LatestUpTo` over all contributions, which
   * `LatestUpToIsLatest` characterises.
   */
  method ScanEntries(entries: seq<CrtEntry>, search: string, parse: string -> JsDate) returns (maxDate: Option<JsDate>)
    ensures HasNullEntry(entries) ==> maxDate.None?
    ensures !HasNullEntry(entries) ==> maxDate == LatestUpTo(Candidates(entries, search, parse), |entries|)
  {
    ghost var cs := Candidates(entries, search, parse);
    maxDate := None;
    var i := 0;
    while i < |entries|
      invariant 0 <= i <= |entries|
      invariant NullEntry !in entries[..i]
      invariant maxDate == LatestUpTo(cs, i)
    {
      var threw;
      maxDate, threw := ScanRecord(maxDate, entries, i, search, parse);
      if threw {
        return None;
      }
      assert entries[..i + 1] == entries[..i] + [entries[i]];
      i := i + 1;
    }
    assert entries[..i] == entries;
  }
}

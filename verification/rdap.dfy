/**
 * Extraction of the registration expiry from an RDAP response
 * (`findExpiryDate`): the date of the first event whose action is
 * `expiration` or `registration expiration`, and nothing else.
 */
module Rdap {
  import opened Wrappers
  import opened Js

  datatype RdapEvent = RdapEvent(eventAction: Option<string>, eventDate: Option<string>)

  /** An element of the `events` array: an event object, or `null`. */
  datatype EventEntry = NullEvent | Event(event: RdapEvent)

  /**
   * The `events` member: missing or falsy, present but not an array, or an
   * array (an empty array is truthy).
   */
  datatype EventsField = NoEvents | NotAnArray | EventArray(entries: seq<EventEntry>)

  /**
   * The parsed RDAP body. `null` is kept apart because reading `events`
   * from it throws; any other value without an `events` member is an
   * object with `NoEvents`.
   */
  datatype RdapBody = NullBody | RdapObject(events: EventsField)

  /** The outcome of `Array.prototype.find`, which throws when its callback reads a field of `null`. */
  datatype FindOutcome = FoundAt(index: nat) | NotFound | ThrewAt(position: nat)

  predicate IsExpirationAction(e: RdapEvent) {
    e.eventAction == Some("expiration") || e.eventAction == Some("registration expiration")
  }

  /** An entry that `find` looks at and passes over. */
  predicate PassedOver(entry: EventEntry) {
    entry.Event? && !IsExpirationAction(entry.event)
  }

  /**
   * `events.find(...)` from position `from` on: the first expiration event,
   * or the first `null` entry if one comes before it (the callback throws
   * there), or nothing.
   */
  function FindExpiration(entries: seq<EventEntry>, from: nat): (r: FindOutcome)
    requires from <= |entries|
    ensures r.NotFound? <==> forall j :: from <= j < |entries| ==> PassedOver(entries[j])
    ensures r.FoundAt? ==>
      && from <= r.index < |entries|
      && entries[r.index].Event? && IsExpirationAction(entries[r.index].event)
      && forall j :: from <= j < r.index ==> PassedOver(entries[j])
    ensures r.ThrewAt? ==>
      && from <= r.position < |entries|
      && entries[r.position].NullEvent?
      && forall j :: from <= j < r.position ==> PassedOver(entries[j])
    decreases |entries| - from
  {
    if from == |entries| then NotFound
    else
      match entries[from]
      case NullEvent => ThrewAt(from)
      case Event(e) => if IsExpirationAction(e) then FoundAt(from) else FindExpiration(entries, from + 1)
  }

  /**
   * `findExpiryDate`: the parsed date of the first expiration event when it
   * has a non-empty `eventDate`; `None` when `events` is missing or not an
   * array, when no event matches, or when the first match has no date. A
   * `null` body, or a `null` entry reached before the first match, throws.
   */
  function FindExpiryDate(body: RdapBody, parse: string -> JsDate): (r: Result<Option<JsDate>, Uncaught>)
    ensures r.Failure? ==> r.error == NullPropertyAccess
    ensures body.NullBody? ==> r.Failure?
    ensures body.RdapObject? && !body.events.EventArray? ==> r == Success(None)
  {
    match body
    case NullBody => Failure(NullPropertyAccess)
    case RdapObject(NoEvents) => Success(None)
    case RdapObject(NotAnArray) => Success(None)
    case RdapObject(EventArray(entries)) =>
      match FindExpiration(entries, 0)
      case NotFound => Success(None)
      case ThrewAt(_) => Failure(NullPropertyAccess)
      case FoundAt(k) =>
        var date := entries[k].event.eventDate;
        if Truthy(date) then Success(Some(parse(date.value))) else Success(None)
  }

  /** `entries[k]` is the first expiration event and nothing before it is `null`. */
  predicate IsFirstExpiration(entries: seq<EventEntry>, k: nat) {
    && k < |entries|
    && entries[k].Event? && IsExpirationAction(entries[k].event)
    && forall j :: 0 <= j < k ==> PassedOver(entries[j])
  }

  /**
   * Only the first expiration event counts: its date is the result when it
   * has one, and when it has none the result is `None`, whatever later
   * events hold.
   */
  lemma FirstExpirationDecides(entries: seq<EventEntry>, k: nat, parse: string -> JsDate)
    requires IsFirstExpiration(entries, k)
    ensures var date := entries[k].event.eventDate;
      FindExpiryDate(RdapObject(EventArray(entries)), parse) ==
        if Truthy(date) then Success(Some(parse(date.value))) else Success(None)
  {
    var r := FindExpiration(entries, 0);
    assert !PassedOver(entries[k]);
    assert !r.NotFound?;
    assert !r.ThrewAt?;
    assert r == FoundAt(k);
  }

  /**
   * The result is a date exactly when the events form an array whose first
   * expiration event, reached before any `null`, carries a non-empty date.
   */
  lemma FindExpiryDateSomeIff(body: RdapBody, parse: string -> JsDate)
    ensures FindExpiryDate(body, parse).Success? && FindExpiryDate(body, parse).value.Some? <==>
      && body.RdapObject? && body.events.EventArray?
      && exists k: nat :: IsFirstExpiration(body.events.entries, k) && Truthy(body.events.entries[k].event.eventDate)
  {
    if body.RdapObject? && body.events.EventArray? {
      var entries := body.events.entries;
      var r := FindExpiration(entries, 0);
      if r.FoundAt? {
        assert IsFirstExpiration(entries, r.index);
        FirstExpirationDecides(entries, r.index, parse);
      }
      if exists k: nat :: IsFirstExpiration(entries, k) && Truthy(entries[k].event.eventDate) {
        var k: nat :| IsFirstExpiration(entries, k) && Truthy(entries[k].event.eventDate);
        FirstExpirationDecides(entries, k, parse);
      }
    }
  }

  /** `entries[p]` is `null` and `find` reaches it before any expiration event. */
  predicate NullBeforeExpiration(entries: seq<EventEntry>, p: nat) {
    && p < |entries|
    && entries[p].NullEvent?
    && forall j :: 0 <= j < p ==> PassedOver(entries[j])
  }

  /**
   * The extraction throws exactly for a `null` body, or for an events array
   * in which `find` reaches a `null` entry before any expiration event.
   */
  lemma FindExpiryDateThrowsIff(body: RdapBody, parse: string -> JsDate)
    ensures FindExpiryDate(body, parse).Failure? <==>
      || body.NullBody?
      || (&& body.RdapObject? && body.events.EventArray?
          && exists p: nat :: NullBeforeExpiration(body.events.entries, p))
  {
    if body.RdapObject? && body.events.EventArray? {
      var entries := body.events.entries;
      var r := FindExpiration(entries, 0);
      if r.ThrewAt? {
        assert NullBeforeExpiration(entries, r.position);
      }
      if exists p: nat :: NullBeforeExpiration(entries, p) {
        var p: nat :| NullBeforeExpiration(entries, p);
        assert !PassedOver(entries[p]);
        assert !r.NotFound?;
        assert !r.FoundAt?;
      }
    }
  }
}

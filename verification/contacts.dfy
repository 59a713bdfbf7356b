/** The contact table of the identity service.

    A store is a sequence of contact records; a record's id is its position,
    so creation order (the `createdAt` ordering of the table) is id order.
    Email and phone number are optional strings, and, following JavaScript
    truthiness, an empty string counts as absent wherever the service tests a
    field. */
module Contacts {

  datatype Option<+T> = None | Some(value: T)

  datatype Precedence = Primary | Secondary

  /** The two identifying attributes of a contact. */
  datatype Field = Email | Phone

  datatype Contact = Contact(
    email: Option<string>,
    phone: Option<string>,
    prec: Precedence,
    linkedId: Option<nat>)
  {
    function Get(f: Field): Option<string> {
      match f
      case Email => email
      case Phone => phone
    }
  }

  /** The request body: an optional email and an optional phone number. */
  datatype Probe = Probe(email: Option<string>, phone: Option<string>)
  {
    function Get(f: Field): Option<string> {
      match f
      case Email => email
      case Phone => phone
    }
  }

  type Store = seq<Contact>

  /** A field is present when it is a non-empty string (JavaScript truthiness). */
  predicate Present(v: Option<string>) {
    v.Some? && v.value != ""
  }

  /** The present values of a list of optional fields, in order: the
      `filter(Boolean)` of the service. */
  function PresentValues(fs: seq<Option<string>>): (r: seq<string>)
    ensures |r| <= |fs|
    ensures forall k | 0 <= k < |r| :: r[k] != "" && Some(r[k]) in fs
    ensures forall k | 0 <= k < |fs| && Present(fs[k]) :: fs[k].value in r
    ensures |fs| > 0 && Present(fs[0]) ==> |r| > 0 && r[0] == fs[0].value
  {
    if |fs| == 0 then []
    else (if Present(fs[0]) then [fs[0].value] else []) + PresentValues(fs[1..])
  }

  /** The probe carries at least one usable attribute. */
  predicate HasAttribute(q: Probe) {
    Present(q.email) || Present(q.phone)
  }

  /** Both contacts carry the same present value of field `f`. */
  predicate SameValue(a: Contact, b: Contact, f: Field) {
    Present(a.Get(f)) && a.Get(f) == b.Get(f)
  }

  /** Record `i` is a primary with no link, or a secondary linked to an older
      record that is a primary (clusters are flat, with the oldest member as
      their primary). */
  ghost predicate LinkedToOlderPrimary(s: Store, i: nat)
    requires i < |s|
  {
    match s[i].prec
    case Primary => s[i].linkedId == None
    case Secondary =>
      s[i].linkedId.Some? && s[i].linkedId.value < i
      && s[s[i].linkedId.value].prec == Primary
  }

  ghost predicate FlatClusters(s: Store) {
    forall i | 0 <= i < |s| :: LinkedToOlderPrimary(s, i)
  }

  /** Every record carries a present email or a present phone number. */
  ghost predicate Populated(s: Store) {
    forall i | 0 <= i < |s| :: Present(s[i].email) || Present(s[i].phone)
  }

  /** No two primaries share a present email, nor a present phone number. */
  ghost predicate PrimaryKeysDistinct(s: Store) {
    forall i, j | 0 <= i < j < |s| && s[i].prec == Primary && s[j].prec == Primary ::
      !SameValue(s[i], s[j], Email) && !SameValue(s[i], s[j], Phone)
  }

  /** The structural invariant of the contact table. */
  ghost predicate Valid(s: Store) {
    FlatClusters(s) && Populated(s) && PrimaryKeysDistinct(s)
  }
}

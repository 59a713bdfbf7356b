/** The identity-consolidation handler `IdentifyContact` as a pure state
    transition `Identify(store, probe) -> (store', response)`.

    The handler rejects a probe without a usable attribute, looks up the
    primary contacts that share the probe's email or phone, and then, on the
    number of distinct matched primaries:
      0   creates a new primary and answers with its consolidated view;
      1   appends a secondary to that cluster when the probe brings a new
          email or a new phone number;
      2   merges the two clusters: the older primary survives, the newer one
          is demoted and its secondaries are relinked to the survivor;
      >2  writes nothing.
    Every path except the rejection and the zero-match path answers with the
    list of matched primaries. */
module Consolidation {
  import opened Sequences
  import opened Contacts

  /** The consolidated view of a cluster. */
  datatype View = View(
    primaryId: nat,
    emails: seq<string>,
    phones: seq<string>,
    secondaryIds: seq<nat>)

  datatype Response =
    | Rejected                     // 400: both fields empty
    | Created(view: View)          // 200: a new primary, with its view
    | Listed(primaries: seq<nat>)  // 200: ids of the matched primaries, oldest first

  datatype Step = Step(store: Store, response: Response)

  // ---------------------------------------------------------------------
  // Matching

  /** The probe's field `f` is present and the contact carries the same value
      (an absent probe field matches nothing). */
  predicate FieldMatches(c: Contact, q: Probe, f: Field) {
    Present(q.Get(f)) && c.Get(f) == q.Get(f)
  }

  /** The `findMany` filter: a primary whose email or phone equals the probe's. */
  predicate IsPrimaryMatch(c: Contact, q: Probe) {
    c.prec == Primary && (FieldMatches(c, q, Email) || FieldMatches(c, q, Phone))
  }

  /** Ids of the matching primaries, in creation order. */
  function MatchingPrimaries(s: Store, q: Probe): (r: seq<nat>)
    ensures StrictlyIncreasing(r)
    ensures forall i: nat :: i in r <==> i < |s| && IsPrimaryMatch(s[i], q)
  {
    IndicesWhere(s, c => IsPrimaryMatch(c, q))
  }

  /** The matched primaries after deduplication by id: distinct ids of
      matching primaries, every matching primary included. */
  function UniqueMatchingPrimaries(s: Store, q: Probe): (u: seq<nat>)
    ensures Distinct(u)
    ensures forall k | 0 <= k < |u| :: u[k] < |s| && IsPrimaryMatch(s[u[k]], q)
    ensures forall i | 0 <= i < |s| && IsPrimaryMatch(s[i], q) :: i in u
  {
    var m := MatchingPrimaries(s, q);
    var u := Dedup(m);
    assert forall i: nat :: i in u <==> i < |s| && IsPrimaryMatch(s[i], q) by {
      forall i: nat
        ensures i in u <==> i < |s| && IsPrimaryMatch(s[i], q)
      {
        DedupMembership(m, i);
      }
    }
    u
  }

  /** The deduplication of the fetched primaries by id, written as the loop
      that inserts each id into a map keyed by id (first insertion keeps its
      place). */
  method DedupById(ids: seq<nat>) returns (unique: seq<nat>)
    ensures unique == Dedup(ids)
    ensures Distinct(unique)
    ensures forall i :: i in unique <==> i in ids
  {
    var seen: set<nat> := {};
    unique := [];
    var k := 0;
    while k < |ids|
      invariant 0 <= k <= |ids|
      invariant unique == Dedup(ids[..k])
      invariant forall i :: i in seen <==> i in unique
    {
      assert ids[..k + 1] == ids[..k] + [ids[k]];
      DedupSnoc(ids[..k], ids[k]);
      if ids[k] !in seen {
        unique := unique + [ids[k]];
        seen := seen + {ids[k]};
      }
      k := k + 1;
    }
    assert ids[..|ids|] == ids;
  }

  // ---------------------------------------------------------------------
  // One matched primary: append a secondary when the probe brings news

  /** Record `i` is fetched as part of the cluster of `p`: it is `p` itself or
      links to `p`. */
  predicate InCluster(s: Store, i: nat, p: nat)
    requires i < |s|
  {
    i == p || s[i].linkedId == Some(p)
  }

  /** The present values of field `f` across the cluster of `p`. */
  function KnownValues(s: Store, p: nat, f: Field): set<string> {
    set i | 0 <= i < |s| && InCluster(s, i, p) && Present(s[i].Get(f)) :: s[i].Get(f).value
  }

  /** The probe's field `f` is present and unknown to the cluster of `p`. */
  predicate IsNew(s: Store, p: nat, q: Probe, f: Field) {
    Present(q.Get(f)) && q.Get(f).value !in KnownValues(s, p, f)
  }

  /** The link target of `p` if it has one, otherwise `p` itself. */
  function TruePrimaryId(s: Store, p: nat): nat
    requires p < |s|
  {
    match s[p].linkedId
    case Some(l) => l
    case None => p
  }

  /** `r` extends `s`: no record is deleted, no record's email or phone
      changes, and no secondary is promoted. */
  predicate Extends(s: Store, r: Store) {
    |s| <= |r|
    && (forall i | 0 <= i < |s| :: r[i].email == s[i].email && r[i].phone == s[i].phone)
    && (forall i | 0 <= i < |s| && s[i].prec == Secondary :: r[i].prec == Secondary)
  }

  function AddIfNew(s: Store, p: nat, q: Probe): (r: Store)
    requires p < |s|
    ensures |r| == |s| <==> !(IsNew(s, p, q, Email) || IsNew(s, p, q, Phone))
    ensures |r| == |s| ==> r == s
    ensures |r| == |s| || r == s + [Contact(q.email, q.phone, Secondary, Some(TruePrimaryId(s, p)))]
    ensures Extends(s, r)
  {
    if IsNew(s, p, q, Email) || IsNew(s, p, q, Phone) then
      s + [Contact(q.email, q.phone, Secondary, Some(TruePrimaryId(s, p)))]
    else s
  }

  // ---------------------------------------------------------------------
  // Two matched primaries: demote the newer one and flatten its cluster

  /** The single-record update: `loser` becomes a secondary of `survivor`. */
  function Demote(s: Store, loser: nat, survivor: nat): (r: Store)
    requires loser < |s|
    ensures |r| == |s|
    ensures r[loser] == s[loser].(prec := Secondary, linkedId := Some(survivor))
    ensures forall i | 0 <= i < |s| && i != loser :: r[i] == s[i]
  {
    s[loser := s[loser].(prec := Secondary, linkedId := Some(survivor))]
  }

  /** The `updateMany`: every record linked to `from` is linked to `to`. */
  function Relink(s: Store, from: nat, to: nat): (r: Store)
    ensures |r| == |s|
    ensures forall i | 0 <= i < |s| ::
      r[i].email == s[i].email && r[i].phone == s[i].phone && r[i].prec == s[i].prec
    ensures from != to ==> forall i | 0 <= i < |s| :: r[i].linkedId != Some(from)
    ensures forall i | 0 <= i < |s| && s[i].linkedId == Some(from) :: r[i].linkedId == Some(to)
    ensures forall i | 0 <= i < |s| && s[i].linkedId != Some(from) :: r[i] == s[i]
  {
    seq(|s|, i requires 0 <= i < |s| =>
      if s[i].linkedId == Some(from) then s[i].(linkedId := Some(to)) else s[i])
  }

  function Merge(s: Store, survivor: nat, loser: nat): (r: Store)
    requires loser < |s|
    ensures |r| == |s|
    ensures forall i | 0 <= i < |s| :: r[i].email == s[i].email && r[i].phone == s[i].phone
    ensures forall i | 0 <= i < |s| && i != loser :: r[i].prec == s[i].prec
    ensures r[loser].prec == Secondary
    ensures Extends(s, r)
  {
    Relink(Demote(s, loser, survivor), loser, survivor)
  }

  // ---------------------------------------------------------------------
  // The handler

  /** The view answered on the zero-match path: the new record's id, its
      present email and phone, and no secondaries. */
  function NewPrimaryView(id: nat, q: Probe): View {
    View(id, PresentValues([q.email]), PresentValues([q.phone]), [])
  }

  function Identify(s: Store, q: Probe): (r: Step)
    ensures r.response.Rejected? <==> !HasAttribute(q)
    ensures r.response.Rejected? ==> r.store == s
    ensures |r.store| <= |s| + 1
    ensures Extends(s, r.store)
    // a created record carries the probe, which has a present field
    ensures |r.store| == |s| + 1 ==>
      r.store[|s|].email == q.email && r.store[|s|].phone == q.phone
      && (Present(r.store[|s|].email) || Present(r.store[|s|].phone))
  {
    if !HasAttribute(q) then Step(s, Rejected)
    else
      var unique := UniqueMatchingPrimaries(s, q);
      if |unique| == 0 then
        Step(s + [Contact(q.email, q.phone, Primary, None)], Created(NewPrimaryView(|s|, q)))
      else if |unique| == 1 then
        Step(AddIfNew(s, unique[0], q), Listed(unique))
      else if |unique| == 2 then
        Step(Merge(s, unique[0], unique[1]), Listed(unique))
      else
        Step(s, Listed(unique))
  }
}

/** What `Identify` promises, branch by branch, and the invariant it keeps. */
module IdentifyProperties {
  import opened Sequences
  import opened Contacts
  import opened Consolidation

  // ---------------------------------------------------------------------
  // Helpers

  lemma KnownWitness(s: Store, p: nat, i: nat, f: Field)
    requires i < |s| && InCluster(s, i, p) && Present(s[i].Get(f))
    ensures s[i].Get(f).value in KnownValues(s, p, f)
  {
  }

  /** When `p` is the only matching primary, the deduplicated match list is `[p]`. */
  lemma SoleMatch(s: Store, q: Probe, p: nat)
    requires p < |s| && IsPrimaryMatch(s[p], q)
    requires forall i | 0 <= i < |s| && IsPrimaryMatch(s[i], q) :: i == p
    ensures UniqueMatchingPrimaries(s, q) == [p]
  {
    var u := UniqueMatchingPrimaries(s, q);
    assert p in u;
    assert forall k | 0 <= k < |u| :: u[k] == p;
  }

  /** Under the invariant, two matching primaries are matched through
      different fields: one shares the probe's email, the other its phone. */
  lemma MatchedThroughDifferentFields(s: Store, q: Probe, a: nat, b: nat)
    requires Valid(s)
    requires a < b < |s| && IsPrimaryMatch(s[a], q) && IsPrimaryMatch(s[b], q)
    ensures !(FieldMatches(s[a], q, Email) && FieldMatches(s[b], q, Email))
    ensures !(FieldMatches(s[a], q, Phone) && FieldMatches(s[b], q, Phone))
  {
    assert !SameValue(s[a], s[b], Email) && !SameValue(s[a], s[b], Phone);
  }

  // ---------------------------------------------------------------------
  // Guard and matching

  /** A probe without a present email or phone is rejected and the store is
      left as it was; any other probe is answered. */
  lemma EmptyProbeRejected(s: Store, q: Probe)
    ensures !Present(q.email) && !Present(q.phone) ==> Identify(s, q) == Step(s, Rejected)
    ensures Present(q.email) || Present(q.phone) ==> !Identify(s, q).response.Rejected?
  {
  }

  /** Deduplication of the fetched primaries changes nothing: the ids are
      distinct, in creation order, so the first is the oldest. */
  lemma MatchedPrimariesOrdered(s: Store, q: Probe)
    ensures UniqueMatchingPrimaries(s, q) == MatchingPrimaries(s, q)
    ensures StrictlyIncreasing(UniqueMatchingPrimaries(s, q))
    ensures forall k | 0 <= k < |UniqueMatchingPrimaries(s, q)| ::
      UniqueMatchingPrimaries(s, q)[0] <= UniqueMatchingPrimaries(s, q)[k]
  {
    var m := MatchingPrimaries(s, q);
    StrictlyIncreasingIsDistinct(m);
    DedupOfDistinct(m);
  }

  /** The two matched primaries, in the order the handler sees them. */
  lemma TwoMatches(s: Store, q: Probe, older: nat, newer: nat)
    requires older < newer < |s|
    requires IsPrimaryMatch(s[older], q) && IsPrimaryMatch(s[newer], q)
    requires forall i | 0 <= i < |s| && IsPrimaryMatch(s[i], q) :: i == older || i == newer
    ensures UniqueMatchingPrimaries(s, q) == [older, newer]
  {
    MatchedPrimariesOrdered(s, q);
    var m := MatchingPrimaries(s, q);
    IncreasingUnique(m, [older, newer]);
  }

  /** With the invariant, at most two primaries ever match a probe, so the
      handler's fall-through case (more than two) is unreachable. */
  lemma AtMostTwoPrimariesMatch(s: Store, q: Probe)
    requires Valid(s)
    ensures |MatchingPrimaries(s, q)| <= 2
    ensures |UniqueMatchingPrimaries(s, q)| <= 2
  {
    MatchedPrimariesOrdered(s, q);
    var m := MatchingPrimaries(s, q);
    if |m| > 2 {
      assert m[0] in m && m[1] in m && m[2] in m;
      MatchedThroughDifferentFields(s, q, m[0], m[1]);
      MatchedThroughDifferentFields(s, q, m[0], m[2]);
      MatchedThroughDifferentFields(s, q, m[1], m[2]);
      assert false;
    }
  }

  // ---------------------------------------------------------------------
  // The three write paths

  /** No matching primary: exactly one record is added, a primary without a
      link carrying the probe's fields, and the answer is its view. */
  lemma ZeroMatchCreatesPrimary(s: Store, q: Probe)
    requires HasAttribute(q)
    requires forall i | 0 <= i < |s| :: !IsPrimaryMatch(s[i], q)
    ensures Identify(s, q).store == s + [Contact(q.email, q.phone, Primary, None)]
    ensures Identify(s, q).response.Created?
    ensures Identify(s, q).response.view.primaryId == |s|
    ensures Identify(s, q).response.view.secondaryIds == []
    ensures forall e :: e in Identify(s, q).response.view.emails <==> Present(q.email) && e == q.email.value
    ensures forall e :: e in Identify(s, q).response.view.phones <==> Present(q.phone) && e == q.phone.value
    ensures |Identify(s, q).response.view.emails| <= 1 && |Identify(s, q).response.view.phones| <= 1
  {
    assert |UniqueMatchingPrimaries(s, q)| == 0;
  }

  /** One matching primary: a record is appended if and only if the probe
      brings an email or a phone the cluster does not know; otherwise the
      store is unchanged. */
  lemma OneMatchAppendsIffNew(s: Store, q: Probe, p: nat)
    requires HasAttribute(q)
    requires p < |s| && IsPrimaryMatch(s[p], q)
    requires forall i | 0 <= i < |s| && IsPrimaryMatch(s[i], q) :: i == p
    ensures Identify(s, q).response == Listed([p])
    ensures Identify(s, q).store != s <==> IsNew(s, p, q, Email) || IsNew(s, p, q, Phone)
    ensures Identify(s, q).store == s
         || Identify(s, q).store == s + [Contact(q.email, q.phone, Secondary, Some(TruePrimaryId(s, p)))]
  {
    SoleMatch(s, q, p);
  }

  /** With the invariant, the matched primary has no link, so the appended
      secondary links to the primary's own id (link depth stays one). */
  lemma OneMatchLinksToPrimary(s: Store, q: Probe, p: nat)
    requires Valid(s) && HasAttribute(q)
    requires p < |s| && IsPrimaryMatch(s[p], q)
    requires forall i | 0 <= i < |s| && IsPrimaryMatch(s[i], q) :: i == p
    ensures TruePrimaryId(s, p) == p
    ensures |Identify(s, q).store| == |s| + 1 ==>
      Identify(s, q).store[|s|] == Contact(q.email, q.phone, Secondary, Some(p))
  {
    assert LinkedToOlderPrimary(s, p);
    SoleMatch(s, q, p);
  }

  /** Two matching primaries: the older stays primary, the newer becomes its
      secondary, and no record is created, even for a probe with new values. */
  lemma TwoMatchesMerge(s: Store, q: Probe, older: nat, newer: nat)
    requires HasAttribute(q)
    requires older < newer < |s|
    requires IsPrimaryMatch(s[older], q) && IsPrimaryMatch(s[newer], q)
    requires forall i | 0 <= i < |s| && IsPrimaryMatch(s[i], q) :: i == older || i == newer
    ensures Identify(s, q).response == Listed([older, newer])
    ensures |Identify(s, q).store| == |s|
    ensures Identify(s, q).store[older].prec == Primary
    ensures Identify(s, q).store[newer] == s[newer].(prec := Secondary, linkedId := Some(older))
  {
    TwoMatches(s, q, older, newer);
  }

  /** The flatten step: after the merge nothing links to the demoted primary,
      whatever linked to it links to the survivor, and every other record is
      untouched. */
  lemma MergeFlattens(s: Store, q: Probe, older: nat, newer: nat)
    requires HasAttribute(q)
    requires older < newer < |s|
    requires IsPrimaryMatch(s[older], q) && IsPrimaryMatch(s[newer], q)
    requires forall i | 0 <= i < |s| && IsPrimaryMatch(s[i], q) :: i == older || i == newer
    ensures |Identify(s, q).store| == |s|
    ensures forall i | 0 <= i < |s| :: Identify(s, q).store[i].linkedId != Some(newer)
    ensures forall i | 0 <= i < |s| && s[i].linkedId == Some(newer) ::
      Identify(s, q).store[i].linkedId == Some(older)
    ensures forall i | 0 <= i < |s| && i != newer && s[i].linkedId != Some(newer) ::
      Identify(s, q).store[i] == s[i]
  {
    TwoMatches(s, q, older, newer);
  }

  /** After a merge the survivor's cluster is the union of the two former
      clusters, so it knows every value either of them knew. */
  lemma MergeUnitesClusters(s: Store, older: nat, newer: nat)
    requires older < |s| && newer < |s| && older != newer
    ensures forall i | 0 <= i < |s| ::
      InCluster(Merge(s, older, newer), i, older) <==> InCluster(s, i, older) || InCluster(s, i, newer)
    ensures forall f: Field, e: string ::
      (e in KnownValues(Merge(s, older, newer), older, f)
       <==> e in KnownValues(s, older, f) || e in KnownValues(s, newer, f))
  {
    var s' := Merge(s, older, newer);
    assert s' == Relink(Demote(s, newer, older), newer, older);
    forall i | 0 <= i < |s|
      ensures InCluster(s', i, older) <==> InCluster(s, i, older) || InCluster(s, i, newer)
    {
      if i == newer {
        assert s'[i].linkedId == Some(older);
      } else if s[i].linkedId == Some(newer) {
        assert s'[i].linkedId == Some(older);
      } else {
        assert s'[i] == s[i];
      }
    }
    forall f: Field, e: string
      ensures e in KnownValues(s', older, f) <==> e in KnownValues(s, older, f) || e in KnownValues(s, newer, f)
    {
      if e in KnownValues(s', older, f) {
        var i :| 0 <= i < |s'| && InCluster(s', i, older) && Present(s'[i].Get(f)) && s'[i].Get(f).value == e;
        assert s'[i].Get(f) == s[i].Get(f);
        if InCluster(s, i, older) {
          KnownWitness(s, older, i, f);
        } else {
          KnownWitness(s, newer, i, f);
        }
      }
      if e in KnownValues(s, older, f) {
        var i :| 0 <= i < |s| && InCluster(s, i, older) && Present(s[i].Get(f)) && s[i].Get(f).value == e;
        assert s'[i].Get(f) == s[i].Get(f);
        KnownWitness(s', older, i, f);
      }
      if e in KnownValues(s, newer, f) {
        var i :| 0 <= i < |s| && InCluster(s, i, newer) && Present(s[i].Get(f)) && s[i].Get(f).value == e;
        assert s'[i].Get(f) == s[i].Get(f);
        KnownWitness(s', older, i, f);
      }
    }
  }

  /** More than two matching primaries: nothing is written. */
  lemma ManyMatchesWriteNothing(s: Store, q: Probe, a: nat, b: nat, c: nat)
    requires a < b < c < |s|
    requires IsPrimaryMatch(s[a], q) && IsPrimaryMatch(s[b], q) && IsPrimaryMatch(s[c], q)
    ensures Identify(s, q).store == s
    ensures Identify(s, q).response == Listed(MatchingPrimaries(s, q))
  {
    ThreeMatches(s, q, a, b, c);
    assert HasAttribute(q);
    assert Identify(s, q) == Step(s, Listed(UniqueMatchingPrimaries(s, q)));
    MatchedPrimariesOrdered(s, q);
  }

  /** Three distinct matching primaries survive deduplication. */
  lemma ThreeMatches(s: Store, q: Probe, a: nat, b: nat, c: nat)
    requires a < b < c < |s|
    requires IsPrimaryMatch(s[a], q) && IsPrimaryMatch(s[b], q) && IsPrimaryMatch(s[c], q)
    ensures |UniqueMatchingPrimaries(s, q)| > 2
  {
    ThreeMembers(UniqueMatchingPrimaries(s, q), a, b, c);
  }

  // ---------------------------------------------------------------------
  // Invariant preservation
  //
  // Each part of `Valid` is preserved on its own, so flat clusters and
  // populated records are kept even on a table where two primaries share a
  // value (the handler does not exclude such tables: its lookup and its
  // create run without a transaction).

  lemma FlatAfterCreate(s: Store, q: Probe)
    requires FlatClusters(s)
    ensures FlatClusters(s + [Contact(q.email, q.phone, Primary, None)])
  {
    var s' := s + [Contact(q.email, q.phone, Primary, None)];
    forall i | 0 <= i < |s'|
      ensures LinkedToOlderPrimary(s', i)
    {
      if i < |s| {
        assert LinkedToOlderPrimary(s, i);
      }
    }
  }

  lemma FlatAfterAppend(s: Store, q: Probe, p: nat)
    requires FlatClusters(s)
    requires p < |s| && s[p].prec == Primary
    ensures FlatClusters(s + [Contact(q.email, q.phone, Secondary, Some(p))])
  {
    var s' := s + [Contact(q.email, q.phone, Secondary, Some(p))];
    forall i | 0 <= i < |s'|
      ensures LinkedToOlderPrimary(s', i)
    {
      if i < |s| {
        assert LinkedToOlderPrimary(s, i);
      }
    }
  }

  lemma FlatAfterMerge(s: Store, older: nat, newer: nat)
    requires FlatClusters(s)
    requires older < newer < |s|
    requires s[older].prec == Primary && s[newer].prec == Primary
    ensures FlatClusters(Merge(s, older, newer))
  {
    var d := Demote(s, newer, older);
    var s' := Merge(s, older, newer);
    assert s' == Relink(d, newer, older);
    forall i | 0 <= i < |s'|
      ensures LinkedToOlderPrimary(s', i)
    {
      assert LinkedToOlderPrimary(s, i);
      if i == newer {
        assert s'[i].linkedId == Some(older);
      } else if s[i].linkedId == Some(newer) {
        assert s'[i].linkedId == Some(older);
      } else {
        assert s'[i] == s[i];
      }
    }
  }

  /** Primaries keep no link, and secondaries link to an older primary. */
  lemma {:induction false} IdentifyKeepsFlat(s: Store, q: Probe)
    requires FlatClusters(s)
    ensures FlatClusters(Identify(s, q).store)
  {
    if HasAttribute(q) {
      var u := UniqueMatchingPrimaries(s, q);
      if |u| == 0 {
        FlatAfterCreate(s, q);
      } else if |u| == 1 {
        assert LinkedToOlderPrimary(s, u[0]);
        if IsNew(s, u[0], q, Email) || IsNew(s, u[0], q, Phone) {
          FlatAfterAppend(s, q, u[0]);
        }
      } else if |u| == 2 {
        MatchedPrimariesOrdered(s, q);
        FlatAfterMerge(s, u[0], u[1]);
      }
    }
  }

  /** A store that extends a populated one by at most one populated record is
      populated. */
  lemma PopulatedExtension(s: Store, r: Store)
    requires Populated(s) && Extends(s, r) && |r| <= |s| + 1
    requires |r| == |s| + 1 ==> Present(r[|s|].email) || Present(r[|s|].phone)
    ensures Populated(r)
  {
    forall i | 0 <= i < |r|
      ensures Present(r[i].email) || Present(r[i].phone)
    {
      if i < |s| {
        assert r[i].email == s[i].email && r[i].phone == s[i].phone;
      }
    }
  }

  /** Every record keeps a present email or phone. */
  lemma IdentifyKeepsPopulated(s: Store, q: Probe)
    requires Populated(s)
    ensures Populated(Identify(s, q).store)
  {
    PopulatedExtension(s, Identify(s, q).store);
  }

  lemma KeysDistinctAfterCreate(s: Store, q: Probe)
    requires PrimaryKeysDistinct(s)
    requires forall i | 0 <= i < |s| :: !IsPrimaryMatch(s[i], q)
    ensures PrimaryKeysDistinct(s + [Contact(q.email, q.phone, Primary, None)])
  {
    var s' := s + [Contact(q.email, q.phone, Primary, None)];
    forall i, j | 0 <= i < j < |s'| && s'[i].prec == Primary && s'[j].prec == Primary
      ensures !SameValue(s'[i], s'[j], Email) && !SameValue(s'[i], s'[j], Phone)
    {
      if j == |s| {
        assert !IsPrimaryMatch(s[i], q);
      }
    }
  }

  lemma KeysDistinctAfterMerge(s: Store, older: nat, newer: nat)
    requires PrimaryKeysDistinct(s)
    requires newer < |s|
    ensures PrimaryKeysDistinct(Merge(s, older, newer))
  {
    var s' := Merge(s, older, newer);
    forall i, j | 0 <= i < j < |s'| && s'[i].prec == Primary && s'[j].prec == Primary
      ensures !SameValue(s'[i], s'[j], Email) && !SameValue(s'[i], s'[j], Phone)
    {
      assert s[i].prec == Primary && s[j].prec == Primary;
    }
  }

  /** No two primaries come to share a present email or phone. */
  lemma {:induction false} IdentifyKeepsKeysDistinct(s: Store, q: Probe)
    requires PrimaryKeysDistinct(s)
    ensures PrimaryKeysDistinct(Identify(s, q).store)
  {
    if HasAttribute(q) {
      var u := UniqueMatchingPrimaries(s, q);
      if |u| == 0 {
        KeysDistinctAfterCreate(s, q);
      } else if |u| == 2 {
        KeysDistinctAfterMerge(s, u[0], u[1]);
      }
    }
  }

  /** Every call keeps the contact table well formed: secondaries link to an
      older primary, primaries have no link, every record carries an email or
      a phone, and no two primaries share a value. */
  lemma IdentifyPreservesValid(s: Store, q: Probe)
    requires Valid(s)
    ensures Valid(Identify(s, q).store)
  {
    IdentifyKeepsFlat(s, q);
    IdentifyKeepsPopulated(s, q);
    IdentifyKeepsKeysDistinct(s, q);
  }

  // ---------------------------------------------------------------------
  // Resubmission

  lemma ResubmitAfterCreate(s: Store, q: Probe)
    requires Valid(s) && HasAttribute(q)
    requires forall i | 0 <= i < |s| :: !IsPrimaryMatch(s[i], q)
    ensures
      var s' := s + [Contact(q.email, q.phone, Primary, None)];
      Identify(s', q).store == s'
  {
    var s' := s + [Contact(q.email, q.phone, Primary, None)];
    var p := |s|;
    assert IsPrimaryMatch(s'[p], q);
    forall f: Field | Present(q.Get(f))
      ensures !IsNew(s', p, q, f)
    {
      KnownWitness(s', p, p, f);
    }
    OneMatchAppendsIffNew(s', q, p);
  }

  lemma ResubmitAfterAppend(s: Store, q: Probe, p: nat)
    requires HasAttribute(q)
    requires p < |s| && IsPrimaryMatch(s[p], q)
    requires forall i | 0 <= i < |s| && IsPrimaryMatch(s[i], q) :: i == p
    ensures
      var s' := s + [Contact(q.email, q.phone, Secondary, Some(p))];
      Identify(s', q).store == s'
  {
    var s' := s + [Contact(q.email, q.phone, Secondary, Some(p))];
    forall f: Field | Present(q.Get(f))
      ensures !IsNew(s', p, q, f)
    {
      KnownWitness(s', p, |s|, f);
    }
    OneMatchAppendsIffNew(s', q, p);
  }

  lemma ResubmitAfterMerge(s: Store, q: Probe, older: nat, newer: nat)
    requires Valid(s) && HasAttribute(q)
    requires older < newer < |s|
    requires IsPrimaryMatch(s[older], q) && IsPrimaryMatch(s[newer], q)
    requires forall i | 0 <= i < |s| && IsPrimaryMatch(s[i], q) :: i == older || i == newer
    ensures
      var s' := Merge(s, older, newer);
      Identify(s', q).store == s'
  {
    var s' := Merge(s, older, newer);
    assert s' == Relink(Demote(s, newer, older), newer, older);
    assert s'[newer].linkedId == Some(older);
    forall i | 0 <= i < |s'| && IsPrimaryMatch(s'[i], q)
      ensures i == older
    {
      assert IsPrimaryMatch(s[i], q);
    }
    assert IsPrimaryMatch(s'[older], q);
    MatchedThroughDifferentFields(s, q, older, newer);
    forall f: Field | Present(q.Get(f))
      ensures !IsNew(s', older, q, f)
    {
      if FieldMatches(s[older], q, f) {
        KnownWitness(s', older, older, f);
      } else {
        assert FieldMatches(s[newer], q, f);
        KnownWitness(s', older, newer, f);
      }
    }
    OneMatchAppendsIffNew(s', q, older);
  }

  /** The one-match case of `ResubmissionAddsNothing`. */
  lemma ResubmitOneMatch(s: Store, q: Probe)
    requires Valid(s) && HasAttribute(q) && |UniqueMatchingPrimaries(s, q)| == 1
    ensures Identify(Identify(s, q).store, q).store == Identify(s, q).store
  {
    var u := UniqueMatchingPrimaries(s, q);
    var p := u[0];
    assert Identify(s, q).store == AddIfNew(s, p, q);
    assert LinkedToOlderPrimary(s, p);
    if IsNew(s, p, q, Email) || IsNew(s, p, q, Phone) {
      ResubmitAfterAppend(s, q, p);
    }
  }

  /** The two-match case of `ResubmissionAddsNothing`. */
  lemma ResubmitTwoMatches(s: Store, q: Probe)
    requires Valid(s) && HasAttribute(q) && |UniqueMatchingPrimaries(s, q)| == 2
    ensures Identify(Identify(s, q).store, q).store == Identify(s, q).store
  {
    var u := UniqueMatchingPrimaries(s, q);
    assert Identify(s, q).store == Merge(s, u[0], u[1]);
    MatchedPrimariesOrdered(s, q);
    ResubmitAfterMerge(s, q, u[0], u[1]);
  }

  /** Submitting the same probe a second time writes nothing: whatever the
      first call created or merged already records the probe's values. */
  lemma {:induction false} ResubmissionAddsNothing(s: Store, q: Probe)
    requires Valid(s)
    ensures Identify(Identify(s, q).store, q).store == Identify(s, q).store
  {
    if HasAttribute(q) {
      var n := |UniqueMatchingPrimaries(s, q)|;
      if n == 0 {
        assert Identify(s, q).store == s + [Contact(q.email, q.phone, Primary, None)];
        ResubmitAfterCreate(s, q);
      } else if n == 1 {
        ResubmitOneMatch(s, q);
      } else if n == 2 {
        ResubmitTwoMatches(s, q);
      } else {
        AtMostTwoPrimariesMatch(s, q);
      }
    }
  }
}

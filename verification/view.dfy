/** The consolidated view of a cluster.

    The handler builds this view only on the zero-match path; for the other
    paths the response shape is documented in a comment of the handler but no
    code builds it. `ClusterView` is that documented shape, as a pure function
    of the store: the primary's id, the distinct emails and phone numbers of
    the cluster (the primary's first), and the ids of the records linked to
    the primary. */
module ClusterViews {
  import opened Sequences
  import opened Contacts
  import opened Consolidation

  /** Field `f` of each listed record, in list order. */
  function FieldValues(s: Store, ids: seq<nat>, f: Field): (r: seq<Option<string>>)
    requires forall k | 0 <= k < |ids| :: ids[k] < |s|
    ensures |r| == |ids|
    ensures forall k | 0 <= k < |ids| :: r[k] == s[ids[k]].Get(f)
  {
    seq(|ids|, k requires 0 <= k < |ids| => s[ids[k]].Get(f))
  }

  /** Ids of the records linked to `p`, in creation order. */
  function LinkedIds(s: Store, p: nat): (r: seq<nat>)
    ensures StrictlyIncreasing(r)
    ensures forall i: nat :: i in r <==> i < |s| && s[i].linkedId == Some(p)
  {
    IndicesWhere(s, (c: Contact) => c.linkedId == Some(p))
  }

  /** An ascending list naming exactly the records linked to `p` is their
      list of ids. */
  lemma LinkedIdsAre(s: Store, p: nat, ids: seq<nat>)
    requires StrictlyIncreasing(ids)
    requires forall k | 0 <= k < |ids| :: ids[k] < |s| && s[ids[k]].linkedId == Some(p)
    requires forall i | 0 <= i < |s| && s[i].linkedId == Some(p) :: i in ids
    ensures LinkedIds(s, p) == ids
  {
    IncreasingUnique(LinkedIds(s, p), ids);
  }

  /** The distinct present values of field `f` of the listed records. */
  function Consolidated(s: Store, ids: seq<nat>, f: Field): seq<string>
    requires forall k | 0 <= k < |ids| :: ids[k] < |s|
  {
    Dedup(PresentValues(FieldValues(s, ids, f)))
  }

  /** The cluster of `p`: `p` itself followed by the records linked to it. */
  function Members(s: Store, p: nat): (r: seq<nat>)
    requires p < |s|
    ensures forall k | 0 <= k < |r| :: r[k] < |s|
    ensures forall i: nat :: i in r <==> i < |s| && InCluster(s, i, p)
    ensures |r| > 0 && r[0] == p
  {
    [p] + LinkedIds(s, p)
  }

  /** A value is consolidated exactly when some listed record carries it. */
  lemma ConsolidatedMembers(s: Store, ids: seq<nat>, f: Field, e: string)
    requires forall k | 0 <= k < |ids| :: ids[k] < |s|
    ensures e in Consolidated(s, ids, f) <==>
      exists i: nat :: i in ids && i < |s| && Present(s[i].Get(f)) && s[i].Get(f).value == e
  {
    var fs := FieldValues(s, ids, f);
    var pv := PresentValues(fs);
    var r := Dedup(pv);
    if e in r {
      var j :| 0 <= j < |r| && r[j] == e;
      assert e in pv;
      var k :| 0 <= k < |fs| && fs[k] == Some(e);
      assert ids[k] in ids;
    }
    if exists i: nat :: i in ids && i < |s| && Present(s[i].Get(f)) && s[i].Get(f).value == e {
      var i: nat :| i in ids && i < |s| && Present(s[i].Get(f)) && s[i].Get(f).value == e;
      var k :| 0 <= k < |ids| && ids[k] == i;
      assert Present(fs[k]);
      assert e in pv;
      var j :| 0 <= j < |pv| && pv[j] == e;
    }
  }

  /** The values listed for the cluster of `p` are exactly the values the
      one-match path treats as known. */
  lemma ClusterValuesAreKnown(s: Store, p: nat, f: Field)
    requires p < |s|
    ensures forall e :: e in Consolidated(s, Members(s, p), f) <==> e in KnownValues(s, p, f)
  {
    var ids := Members(s, p);
    forall e
      ensures e in Consolidated(s, ids, f) <==> e in KnownValues(s, p, f)
    {
      ConsolidatedMembers(s, ids, f, e);
    }
  }

  /** The documented view of the cluster of `p` (documented-only: the handler
      answers with it only on the zero-match path). */
  function ClusterView(s: Store, p: nat): (v: View)
    requires p < |s|
    ensures v.primaryId == p
    ensures StrictlyIncreasing(v.secondaryIds)
    ensures forall i: nat :: i in v.secondaryIds <==> i < |s| && s[i].linkedId == Some(p)
    ensures Distinct(v.emails) && Distinct(v.phones)
    ensures forall e :: e in v.emails <==> e in KnownValues(s, p, Email)
    ensures forall e :: e in v.phones <==> e in KnownValues(s, p, Phone)
    ensures Present(s[p].email) ==> |v.emails| > 0 && v.emails[0] == s[p].email.value
    ensures Present(s[p].phone) ==> |v.phones| > 0 && v.phones[0] == s[p].phone.value
  {
    var members := Members(s, p);
    ClusterValuesAreKnown(s, p, Email);
    ClusterValuesAreKnown(s, p, Phone);
    View(p, Consolidated(s, members, Email), Consolidated(s, members, Phone), LinkedIds(s, p))
  }

  /** With the invariant, the listed ids are exactly the secondaries of the
      primary `p`, and `p` itself is not among them. */
  lemma ClusterViewListsSecondaries(s: Store, p: nat)
    requires Valid(s) && p < |s| && s[p].prec == Primary
    ensures p !in ClusterView(s, p).secondaryIds
    ensures forall i: nat :: i in ClusterView(s, p).secondaryIds <==>
      i < |s| && s[i].prec == Secondary && s[i].linkedId == Some(p)
  {
    assert LinkedToOlderPrimary(s, p);
    forall i: nat | i < |s| && s[i].linkedId == Some(p)
      ensures s[i].prec == Secondary
    {
      assert LinkedToOlderPrimary(s, i);
    }
  }

  /** A single record's consolidated values are its own present value. */
  lemma SingleMemberValues(s: Store, i: nat, f: Field)
    requires i < |s|
    ensures Consolidated(s, [i], f) == PresentValues([s[i].Get(f)])
  {
    assert FieldValues(s, [i], f) == [s[i].Get(f)];
    DedupOfDistinct(PresentValues([s[i].Get(f)]));
  }

  /** Nothing in a well-formed store links to the id the next record gets. */
  lemma NothingLinksToNewRecord(s: Store, c: Contact)
    requires Valid(s) && c.linkedId == None
    ensures LinkedIds(s + [c], |s|) == []
  {
    var s' := s + [c];
    var linked := LinkedIds(s', |s|);
    assert |linked| == 0 || linked[0] in linked;
    forall i: nat | i < |s'|
      ensures s'[i].linkedId != Some(|s|)
    {
      if i < |s| {
        assert LinkedToOlderPrimary(s, i);
      }
    }
  }

  /** The view of a cluster with no linked record holds only the primary's
      own present values. */
  lemma LoneRecordView(s: Store, p: nat)
    requires p < |s| && LinkedIds(s, p) == []
    ensures ClusterView(s, p)
         == View(p, PresentValues([s[p].email]), PresentValues([s[p].phone]), [])
  {
    assert Members(s, p) == [p];
    SingleMemberValues(s, p, Email);
    SingleMemberValues(s, p, Phone);
  }

  /** The view the zero-match path answers with is the documented view of the
      new primary's cluster in the updated store. */
  lemma NewPrimaryViewIsClusterView(s: Store, q: Probe)
    requires Valid(s) && HasAttribute(q)
    requires forall i | 0 <= i < |s| :: !IsPrimaryMatch(s[i], q)
    ensures Identify(s, q).response.Created?
    ensures Identify(s, q).response.view == ClusterView(Identify(s, q).store, |s|)
  {
    var c := Contact(q.email, q.phone, Primary, None);
    var s' := s + [c];
    assert |UniqueMatchingPrimaries(s, q)| == 0;
    assert Identify(s, q) == Step(s', Created(NewPrimaryView(|s|, q)));
    NothingLinksToNewRecord(s, c);
    LoneRecordView(s', |s|);
  }
}

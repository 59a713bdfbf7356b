/** Worked examples of the handler on small tables, for arbitrary distinct
    non-empty emails `a`, `b` and phone numbers `n1`, `n2`, `n3` (ids are
    positions, so the first record has id 0). */
module Scenarios {
  import opened Sequences
  import opened Contacts
  import opened Consolidation
  import opened ClusterViews
  import opened IdentifyProperties

  predicate DistinctValues(a: string, b: string, n1: string, n2: string, n3: string) {
    a != "" && b != "" && n1 != "" && n2 != "" && n3 != ""
    && a != b && n1 != n2 && n2 != n3 && n1 != n3
  }

  /** An empty table: the probe becomes primary 0 and is answered with its view. */
  lemma FirstProbeCreatesPrimary(a: string, n1: string)
    requires a != "" && n1 != ""
    ensures Identify([], Probe(Some(a), Some(n1)))
         == Step([Contact(Some(a), Some(n1), Primary, None)], Created(View(0, [a], [n1], [])))
  {
    ZeroMatchCreatesPrimary([], Probe(Some(a), Some(n1)));
  }

  /** A known email with a new phone: a secondary linked to primary 0 is
      appended. */
  lemma NewPhoneAppendsSecondary(a: string, n1: string, n2: string)
    requires a != "" && n1 != "" && n2 != "" && n1 != n2
    ensures Identify([Contact(Some(a), Some(n1), Primary, None)], Probe(Some(a), Some(n2)))
         == Step([Contact(Some(a), Some(n1), Primary, None), Contact(Some(a), Some(n2), Secondary, Some(0))],
                 Listed([0]))
  {
    var s := [Contact(Some(a), Some(n1), Primary, None)];
    var q := Probe(Some(a), Some(n2));
    assert forall i | 0 <= i < |s| :: s[i].Get(Phone) == Some(n1);
    assert IsNew(s, 0, q, Phone);
    OneMatchAppendsIffNew(s, q, 0);
  }

  function Grown(a: string, n1: string, n2: string): Store {
    [Contact(Some(a), Some(n1), Primary, None), Contact(Some(a), Some(n2), Secondary, Some(0))]
  }

  lemma GrownMembers(a: string, n1: string, n2: string)
    ensures LinkedIds(Grown(a, n1, n2), 0) == [1]
    ensures Members(Grown(a, n1, n2), 0) == [0, 1]
  {
    LinkedIdsAre(Grown(a, n1, n2), 0, [1]);
    assert [0] + [1] == [0, 1];
  }

  lemma GrownEmails(a: string, n1: string, n2: string)
    requires a != ""
    ensures Consolidated(Grown(a, n1, n2), [0, 1], Email) == [a]
  {
    var es := [Some(a), Some(a)];
    assert FieldValues(Grown(a, n1, n2), [0, 1], Email) == es;
    assert es[1..] == [Some(a)];
    assert PresentValues(es) == [a] + [a];
    DedupSnoc([a], a);
  }

  lemma GrownPhones(a: string, n1: string, n2: string)
    requires n1 != "" && n2 != "" && n1 != n2
    ensures Consolidated(Grown(a, n1, n2), [0, 1], Phone) == [n1, n2]
  {
    var ps := [Some(n1), Some(n2)];
    assert FieldValues(Grown(a, n1, n2), [0, 1], Phone) == ps;
    assert ps[1..] == [Some(n2)];
    assert PresentValues(ps) == [n1] + [n2];
    DedupOfDistinct([n1, n2]);
  }

  /** The documented view of that cluster lists one email, both phones and
      secondary 1. */
  lemma GrownClusterView(a: string, n1: string, n2: string)
    requires a != "" && n1 != "" && n2 != "" && n1 != n2
    ensures ClusterView(Grown(a, n1, n2), 0) == View(0, [a], [n1, n2], [1])
  {
    GrownMembers(a, n1, n2);
    GrownEmails(a, n1, n2);
    GrownPhones(a, n1, n2);
  }

  /** Only primaries are matched: a probe whose phone is carried only by a
      secondary opens a new cluster instead of joining the existing one. */
  lemma SecondaryOnlyMatchOpensCluster(a: string, n1: string, n2: string)
    requires a != "" && n1 != "" && n2 != "" && n1 != n2
    ensures
      var s := [Contact(Some(a), Some(n1), Primary, None), Contact(Some(a), Some(n2), Secondary, Some(0))];
      Identify(s, Probe(None, Some(n2)))
        == Step(s + [Contact(None, Some(n2), Primary, None)], Created(View(2, [], [n2], [])))
  {
    var s := [Contact(Some(a), Some(n1), Primary, None), Contact(Some(a), Some(n2), Secondary, Some(0))];
    var q := Probe(None, Some(n2));
    assert !IsPrimaryMatch(s[0], q) && !IsPrimaryMatch(s[1], q);
    ZeroMatchCreatesPrimary(s, q);
  }

  /** Two clusters: primary 0 with secondary 1, and primary 2 on its own. */
  function TwoClusters(a: string, b: string, n1: string, n2: string, n3: string): Store {
    [Contact(Some(a), Some(n1), Primary, None),
     Contact(Some(a), Some(n2), Secondary, Some(0)),
     Contact(Some(b), Some(n3), Primary, None)]
  }

  /** The same table once primary 2 has been demoted under primary 0. */
  function Merged(a: string, b: string, n1: string, n2: string, n3: string): Store {
    [Contact(Some(a), Some(n1), Primary, None),
     Contact(Some(a), Some(n2), Secondary, Some(0)),
     Contact(Some(b), Some(n3), Secondary, Some(0))]
  }

  /** A probe whose email is in one cluster and whose phone is in another:
      the newer primary is demoted under the older one and nothing is created. */
  lemma BridgingProbeMerges(a: string, b: string, n1: string, n2: string, n3: string)
    requires DistinctValues(a, b, n1, n2, n3)
    ensures Identify(TwoClusters(a, b, n1, n2, n3), Probe(Some(a), Some(n3)))
         == Step(Merged(a, b, n1, n2, n3), Listed([0, 2]))
  {
    var s := TwoClusters(a, b, n1, n2, n3);
    var q := Probe(Some(a), Some(n3));
    assert IsPrimaryMatch(s[0], q) && !IsPrimaryMatch(s[1], q) && IsPrimaryMatch(s[2], q);
    TwoMatches(s, q, 0, 2);
    assert Identify(s, q) == Step(Merge(s, 0, 2), Listed([0, 2]));
    var d := Merged(a, b, n1, n2, n3);
    assert Demote(s, 2, 0) == d;
    assert Relink(d, 2, 0) == d by {
      assert forall i | 0 <= i < |d| :: d[i].linkedId != Some(2);
    }
  }

  lemma MergedMembers(a: string, b: string, n1: string, n2: string, n3: string)
    ensures LinkedIds(Merged(a, b, n1, n2, n3), 0) == [1, 2]
    ensures Members(Merged(a, b, n1, n2, n3), 0) == [0, 1, 2]
  {
    LinkedIdsAre(Merged(a, b, n1, n2, n3), 0, [1, 2]);
    assert [0] + [1, 2] == [0, 1, 2];
  }

  /** Deduplicating `[a, a, b]` keeps `a` once, then `b`. */
  lemma DedupRepeatThenNew<T>(a: T, b: T)
    requires a != b
    ensures Dedup([a, a, b]) == [a, b]
  {
    var x1, x2, x3 := [a], [a, a], [a, a, b];
    assert x1[..0] == [];
    assert Dedup(x1) == [a];
    assert x2[..1] == x1;
    assert Dedup(x2) == [a];
    assert x3[..2] == x2;
    assert Dedup(x3) == [a] + [b];
  }

  /** Deduplicating three distinct values changes nothing. */
  lemma DedupThreeDistinct<T>(x: T, y: T, z: T)
    requires x != y && y != z && x != z
    ensures Dedup([x, y, z]) == [x, y, z]
  {
    DedupOfDistinct([x, y, z]);
  }

  lemma MergedEmails(a: string, b: string, n1: string, n2: string, n3: string)
    requires a != "" && b != "" && a != b
    ensures Consolidated(Merged(a, b, n1, n2, n3), [0, 1, 2], Email) == [a, b]
  {
    var es := [Some(a), Some(a), Some(b)];
    assert FieldValues(Merged(a, b, n1, n2, n3), [0, 1, 2], Email) == es;
    assert es[1..][1..] == [Some(b)];
    assert PresentValues(es[1..]) == [a] + [b];
    assert PresentValues(es) == [a, a, b];
    DedupRepeatThenNew(a, b);
  }

  lemma MergedPhones(a: string, b: string, n1: string, n2: string, n3: string)
    requires n1 != "" && n2 != "" && n3 != "" && n1 != n2 && n2 != n3 && n1 != n3
    ensures Consolidated(Merged(a, b, n1, n2, n3), [0, 1, 2], Phone) == [n1, n2, n3]
  {
    var ps := [Some(n1), Some(n2), Some(n3)];
    assert FieldValues(Merged(a, b, n1, n2, n3), [0, 1, 2], Phone) == ps;
    assert ps[1..][1..] == [Some(n3)];
    assert PresentValues(ps[1..]) == [n2] + [n3];
    assert PresentValues(ps) == [n1] + [n2, n3] == [n1, n2, n3];
    DedupThreeDistinct(n1, n2, n3);
  }

  /** The documented view of the merged cluster: both emails, the three
      phones in creation order, and secondaries 1 and 2. */
  lemma MergedClusterView(a: string, b: string, n1: string, n2: string, n3: string)
    requires DistinctValues(a, b, n1, n2, n3)
    ensures ClusterView(Merged(a, b, n1, n2, n3), 0) == View(0, [a, b], [n1, n2, n3], [1, 2])
  {
    MergedMembers(a, b, n1, n2, n3);
    MergedEmails(a, b, n1, n2, n3);
    MergedPhones(a, b, n1, n2, n3);
  }

  /** Two primaries sharing email `e`, as two concurrent first requests for
      `e` can leave them. */
  function SharedEmail(e: string, n1: string, n2: string): Store {
    [Contact(Some(e), Some(n1), Primary, None), Contact(Some(e), Some(n2), Primary, None)]
  }

  function SharedEmailMerged(e: string, n1: string, n2: string): Store {
    [Contact(Some(e), Some(n1), Primary, None), Contact(Some(e), Some(n2), Secondary, Some(0))]
  }

  /** That table is flat and populated, but its primaries share a key. */
  lemma SharedEmailShape(e: string, n1: string, n2: string)
    requires e != "" && n1 != "" && n2 != ""
    ensures FlatClusters(SharedEmail(e, n1, n2)) && Populated(SharedEmail(e, n1, n2))
    ensures !PrimaryKeysDistinct(SharedEmail(e, n1, n2))
  {
    var s := SharedEmail(e, n1, n2);
    assert SameValue(s[0], s[1], Email);
    assert LinkedToOlderPrimary(s, 0) && LinkedToOlderPrimary(s, 1);
  }

  /** The first call with the shared email and a new phone merges the two
      primaries. */
  lemma SharedEmailMerges(e: string, n1: string, n2: string, n3: string)
    requires e != "" && n3 != ""
    ensures Identify(SharedEmail(e, n1, n2), Probe(Some(e), Some(n3))).store
         == SharedEmailMerged(e, n1, n2)
  {
    var s := SharedEmail(e, n1, n2);
    var q := Probe(Some(e), Some(n3));
    assert IsPrimaryMatch(s[0], q) && IsPrimaryMatch(s[1], q);
    TwoMatches(s, q, 0, 1);
    assert Identify(s, q).store == Merge(s, 0, 1);
    var m := SharedEmailMerged(e, n1, n2);
    assert Demote(s, 1, 0) == m;
    assert Relink(m, 1, 0) == m by {
      assert forall i | 0 <= i < |m| :: m[i].linkedId != Some(1);
    }
  }

  /** The same probe again finds one cluster that does not know its phone. */
  lemma SharedEmailAppends(e: string, n1: string, n2: string, n3: string)
    requires e != "" && n3 != "" && n1 != n3 && n2 != n3
    ensures Identify(SharedEmailMerged(e, n1, n2), Probe(Some(e), Some(n3))).store
         == SharedEmailMerged(e, n1, n2) + [Contact(Some(e), Some(n3), Secondary, Some(0))]
  {
    var m := SharedEmailMerged(e, n1, n2);
    var q := Probe(Some(e), Some(n3));
    assert IsPrimaryMatch(m[0], q) && !IsPrimaryMatch(m[1], q);
    assert forall i | 0 <= i < |m| :: m[i].Get(Phone) != Some(n3);
    assert IsNew(m, 0, q, Phone);
    OneMatchAppendsIffNew(m, q, 0);
  }

  /** Without distinct primary keys a resubmitted probe can write again: the
      first call merges the two primaries, and the second finds one cluster
      that does not know the probe's phone and appends a secondary. The table
      is flat and populated throughout. */
  lemma SharedEmailResubmissionWrites(e: string, n1: string, n2: string, n3: string)
    requires e != "" && n1 != "" && n2 != "" && n3 != ""
    requires n1 != n2 && n2 != n3 && n1 != n3
    ensures FlatClusters(SharedEmail(e, n1, n2)) && Populated(SharedEmail(e, n1, n2))
    ensures !PrimaryKeysDistinct(SharedEmail(e, n1, n2))
    ensures Identify(SharedEmail(e, n1, n2), Probe(Some(e), Some(n3))).store
         == SharedEmailMerged(e, n1, n2)
    ensures Identify(SharedEmailMerged(e, n1, n2), Probe(Some(e), Some(n3))).store
         == SharedEmailMerged(e, n1, n2) + [Contact(Some(e), Some(n3), Secondary, Some(0))]
  {
    SharedEmailShape(e, n1, n2);
    SharedEmailMerges(e, n1, n2, n3);
    SharedEmailAppends(e, n1, n2, n3);
  }

  /** Three unrelated primaries. */
  function ThreePrimaries(a1: string, a2: string, a3: string, n1: string, n2: string, n3: string): Store {
    [Contact(Some(a1), Some(n1), Primary, None),
     Contact(Some(a2), Some(n2), Primary, None),
     Contact(Some(a3), Some(n3), Primary, None)]
  }

  /** Merging `newer` under `older` after another merge has demoted
      `older` links `newer` to a secondary. */
  lemma ChainedMergeLinksToSecondary(s: Store, first: nat, older: nat, newer: nat)
    requires first < older < newer < |s|
    ensures Merge(Merge(s, first, older), older, newer)[older].prec == Secondary
    ensures Merge(Merge(s, first, older), older, newer)[newer].linkedId == Some(older)
  {
    var m := Merge(s, first, older);
    var d := Demote(m, newer, older);
    assert d[newer].linkedId == Some(older);
    assert Relink(d, newer, older)[newer] == d[newer];
  }

  /** Each request of the pair, run alone, finds exactly its two primaries. */
  lemma ThreePrimariesMatch(a1: string, a2: string, a3: string, n1: string, n2: string, n3: string)
    requires a1 != "" && a2 != "" && a3 != "" && n1 != "" && n2 != "" && n3 != ""
    requires a1 != a2 && a2 != a3 && a1 != a3 && n1 != n2 && n2 != n3 && n1 != n3
    ensures UniqueMatchingPrimaries(ThreePrimaries(a1, a2, a3, n1, n2, n3), Probe(Some(a1), Some(n2))) == [0, 1]
    ensures UniqueMatchingPrimaries(ThreePrimaries(a1, a2, a3, n1, n2, n3), Probe(Some(a2), Some(n3))) == [1, 2]
  {
    var s := ThreePrimaries(a1, a2, a3, n1, n2, n3);
    var x := Probe(Some(a1), Some(n2));
    assert IsPrimaryMatch(s[0], x) && IsPrimaryMatch(s[1], x) && !IsPrimaryMatch(s[2], x);
    TwoMatches(s, x, 0, 1);
    var y := Probe(Some(a2), Some(n3));
    assert !IsPrimaryMatch(s[0], y) && IsPrimaryMatch(s[1], y) && IsPrimaryMatch(s[2], y);
    TwoMatches(s, y, 1, 2);
  }

  /** Each request of the pair, run alone, merges its two primaries. */
  lemma EachRequestMerges(a1: string, a2: string, a3: string, n1: string, n2: string, n3: string)
    requires a1 != "" && a2 != "" && a3 != "" && n1 != "" && n2 != "" && n3 != ""
    requires a1 != a2 && a2 != a3 && a1 != a3 && n1 != n2 && n2 != n3 && n1 != n3
    ensures Identify(ThreePrimaries(a1, a2, a3, n1, n2, n3), Probe(Some(a1), Some(n2)))
         == Step(Merge(ThreePrimaries(a1, a2, a3, n1, n2, n3), 0, 1), Listed([0, 1]))
    ensures Identify(ThreePrimaries(a1, a2, a3, n1, n2, n3), Probe(Some(a2), Some(n3)))
         == Step(Merge(ThreePrimaries(a1, a2, a3, n1, n2, n3), 1, 2), Listed([1, 2]))
  {
    ThreePrimariesMatch(a1, a2, a3, n1, n2, n3);
    assert HasAttribute(Probe(Some(a1), Some(n2)));
    assert HasAttribute(Probe(Some(a2), Some(n3)));
  }

  /** Two requests that both read primary 1 before either writes: one carries
      the email of 0 and the phone of 1, the other the email of 1 and the
      phone of 2. Each, run alone, merges its two primaries
      (`EachRequestMerges`). Applying both sets of writes demotes 1 under 0
      and then 2 under 1, so record 2 ends up linked to a secondary. */
  lemma InterleavedMergesBreakFlatness(a1: string, a2: string, a3: string, n1: string, n2: string, n3: string)
    requires a1 != "" && a2 != "" && a3 != "" && n1 != "" && n2 != "" && n3 != ""
    requires a1 != a2 && a2 != a3 && a1 != a3 && n1 != n2 && n2 != n3 && n1 != n3
    ensures FlatClusters(ThreePrimaries(a1, a2, a3, n1, n2, n3))
    ensures !FlatClusters(Merge(Merge(ThreePrimaries(a1, a2, a3, n1, n2, n3), 0, 1), 1, 2))
  {
    var s := ThreePrimaries(a1, a2, a3, n1, n2, n3);
    assert LinkedToOlderPrimary(s, 0) && LinkedToOlderPrimary(s, 1) && LinkedToOlderPrimary(s, 2);
    ChainedMergeLinksToSecondary(s, 0, 1, 2);
    var mm := Merge(Merge(s, 0, 1), 1, 2);
    assert !LinkedToOlderPrimary(mm, 2);
  }
}

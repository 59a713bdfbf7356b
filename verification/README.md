# Identity consolidation, modelled in Dafny

This project models the `IdentifyContact` handler of the contact-identity
service. A request carries an optional email and an optional phone number (a
*probe*). The contact table holds records that are either *primary* (the
canonical record of an identity cluster, with no link) or *secondary* (linked
to the id of a primary). The handler does the following:

- It rejects a probe whose email and phone are both empty.
- It fetches the primaries whose email or phone equals the probe's. They come
  oldest first and are deduplicated by id.
- With **no** matching primary, it creates a new primary from the probe. It
  answers with that record's consolidated view: its id, its email, its phone
  and no secondaries.
- With **one**, it collects the emails and phones known to that cluster. It
  appends a secondary linked to the primary only if the probe brings an email
  or a phone the cluster does not know.
- With **two**, it merges the clusters. The older primary survives. The
  newer one becomes its secondary, and every record linked to the newer one
  is relinked to the survivor (the *flatten* step).
- With more than two, it writes nothing.

Every path except the rejection and the zero-match path answers with the
list of matched primaries.

The model is a pure state transition: `Consolidation.Identify(store, probe)`
returns the new store and a `Response`. A store is a `seq<Contact>`. A
record's id is its position, so creation order (the `createdAt` ordering) is
id order. Ids are therefore 0-based, where the database's start at 1. Fields
are `Option<string>`. Following JavaScript truthiness, a field counts as
present only when it is a non-empty string (`Contacts.Present`). Records keep
the probe's raw fields, so an empty string can be stored, as in the source.

The structural invariant `Contacts.Valid` has three parts:

- Every primary has no link. Every secondary links to an older record that is
  a primary, so clusters are flat and their oldest member is the primary.
- Every record has a present email or phone.
- No two primaries share a present email or a present phone.

Each part is preserved by every call on its own
(`IdentifyProperties.IdentifyKeepsFlat`, `IdentifyKeepsPopulated`,
`IdentifyKeepsKeysDistinct`), so a table built by one request at a time is
always valid. The source runs its reads and writes without a transaction,
so concurrent requests can interleave:

- `Populated` holds under any interleaving, because every record written
  carries a probe that passed the guard.
- `PrimaryKeysDistinct` can break. Two concurrent first requests for one
  email each create a primary with that email.
- `FlatClusters` can break. Two concurrent merges that share a primary can
  demote a record under a primary that the other merge is demoting
  (`Scenarios.InterleavedMergesBreakFlatness`).

Two properties rest on `PrimaryKeysDistinct`:

- the "more than two" branch is unreachable
  (`IdentifyProperties.AtMostTwoPrimariesMatch`);
- resubmitting a probe writes nothing (`IdentifyProperties.ResubmissionAddsNothing`).

`Scenarios.SharedEmailResubmissionWrites` shows what happens without it. The
table holds two primaries with email `e`, and the probe is `e` with a new
phone. The first call merges the two primaries. The second call appends a
secondary.

Modules: `Sequences` (ordering, index filter, first-occurrence dedup),
`Contacts` (data model and invariant), `Consolidation` (the handler),
`IdentifyProperties` (branch contracts, invariant preservation, resubmission),
`ClusterViews` (the documented response view), and `Scenarios` (worked examples of the handler on small tables).

Three behaviours of the code shape the model:

- **Matching.** The code matches only primaries, so a value known only to a
  secondary does not find its cluster. `Scenarios.SecondaryOnlyMatchOpensCluster`
  shows such a probe opening a new cluster.
- **When a secondary is added.** The code adds one when the email *or* the
  phone is individually new. It does not add one merely because the
  (email, phone) combination is new.
- **Which paths return the view.** Only the zero-match path builds the
  consolidated view. The other paths return the matched primaries. The view
  shape for those paths exists only as a comment in the handler.
  `ClusterViews.ClusterView` models that documented shape and is labelled
  documented-only.

## Model

| member | source | states |
|---|---|---|
| Contacts.PresentValues | src/controllers/identifyController.ts:47-48 | `filter(Boolean)`: every value kept is non-empty and occurs in the input, every present input value is kept, and a present first value stays first |
| Consolidation.MatchingPrimaries | src/controllers/identifyController.ts:15-24 | ids in strictly ascending creation order; an id is listed iff its record is a primary whose email or phone equals the probe's present field (an absent probe field matches nothing) |
| Consolidation.UniqueMatchingPrimaries | src/controllers/identifyController.ts:26-31 | after dedup by id: distinct ids, each a matching primary, and every matching primary included |
| Consolidation.DedupById | src/controllers/identifyController.ts:26-31 | the Map-insertion loop yields the first-occurrence dedup: distinct ids, same id set as its input |
| Sequences.Dedup | src/controllers/identifyController.ts:27-31 | first-occurrence deduplication: no repetitions, same elements, first element kept first |
| Sequences.DedupOfDistinct | src/controllers/identifyController.ts:27-31 | deduplicating a list with no repeated id returns it unchanged |
| IdentifyProperties.MatchedPrimariesOrdered | src/controllers/identifyController.ts:15-31 | dedup leaves the fetched primaries unchanged; they are strictly ascending and the first is the oldest |
| IdentifyProperties.TwoMatches | src/controllers/identifyController.ts:88-89 | with exactly two matching primaries the handler sees them as `[older, newer]` |
| IdentifyProperties.AtMostTwoPrimariesMatch | src/controllers/identifyController.ts:15-24 | on a valid table at most two primaries match a probe, so the fall-through after the two-primary branch is unreachable |
| IdentifyProperties.MatchedThroughDifferentFields | src/controllers/identifyController.ts:18-21 | on a valid table two matched primaries never match through the same field |
| Consolidation.Identify | src/controllers/identifyController.ts:8-110 | rejected iff neither field is present, and then the store is unchanged; at most one record is added; no record is deleted or changes its email or phone; a secondary is never promoted; an added record carries the probe and a present field |
| IdentifyProperties.EmptyProbeRejected | src/controllers/identifyController.ts:8-12 | a probe with both fields empty or absent is rejected with the store untouched; any other probe is not rejected |
| IdentifyProperties.ZeroMatchCreatesPrimary | src/controllers/identifyController.ts:34-51 | no matching primary: exactly one unlinked primary carrying the probe is appended; the view has the new id, emails and phones equal to the probe's present fields, and no secondaries |
| ClusterViews.NewPrimaryViewIsClusterView | src/controllers/identifyController.ts:44-51 | on a valid table the zero-match answer equals the documented view of the new record's cluster |
| Consolidation.AddIfNew | src/controllers/identifyController.ts:72-87 | the store grows iff the probe's email or phone is present and unknown to the cluster; otherwise it is unchanged; when it grows it gains exactly one record, a secondary with the probe's fields linked to `truePrimaryId` |
| IdentifyProperties.OneMatchAppendsIffNew | src/controllers/identifyController.ts:55-87 | one matching primary: the answer lists it; the store changes iff the probe brings a new email or a new phone, and then exactly one secondary is appended |
| IdentifyProperties.OneMatchLinksToPrimary | src/controllers/identifyController.ts:76-86 | on a valid table `truePrimaryId` is the primary's own id and the appended secondary links to it |
| Consolidation.Demote | src/controllers/identifyController.ts:92-98 | only the demoted record changes: it becomes a secondary linked to the survivor |
| Consolidation.Relink | src/controllers/identifyController.ts:101-104 | afterwards nothing links to the old target; every record that did links to the new one; no other record and no email, phone or precedence changes |
| Consolidation.Merge | src/controllers/identifyController.ts:88-105 | same size; emails and phones unchanged; only the demoted record changes precedence, to secondary |
| IdentifyProperties.TwoMatchesMerge | src/controllers/identifyController.ts:88-98 | two matching primaries: the older stays primary, the newer becomes its secondary, no record is created, and the answer lists both |
| IdentifyProperties.MergeFlattens | src/controllers/identifyController.ts:100-104 | after the merge no record links to the demoted primary; those that did link to the survivor; every other record is untouched |
| IdentifyProperties.MergeUnitesClusters | src/controllers/identifyController.ts:92-104 | the survivor's cluster after the merge is exactly the union of the two former clusters, and so are its known emails and phones |
| IdentifyProperties.ManyMatchesWriteNothing | src/controllers/identifyController.ts:55-110 | with three or more matching primaries the store is unchanged and the answer lists exactly the matched primaries, oldest first |
| IdentifyProperties.FlatAfterCreate | src/controllers/identifyController.ts:34-42 | appending the new unlinked primary keeps every cluster flat |
| IdentifyProperties.FlatAfterAppend | src/controllers/identifyController.ts:78-86 | appending a secondary linked to a primary keeps every cluster flat |
| IdentifyProperties.FlatAfterMerge | src/controllers/identifyController.ts:92-104 | demoting the newer of two primaries under the older and relinking its cluster keeps every cluster flat |
| IdentifyProperties.IdentifyKeepsFlat | src/controllers/identifyController.ts:8-105 | on any flat table, every call leaves primaries unlinked and every secondary linked to an older primary |
| IdentifyProperties.IdentifyKeepsPopulated | src/controllers/identifyController.ts:8-42 | every call keeps a present email or phone on every record, the guard ensuring it for a created one |
| IdentifyProperties.KeysDistinctAfterCreate | src/controllers/identifyController.ts:15-42 | a primary created because no primary matched shares no value with an existing primary |
| IdentifyProperties.KeysDistinctAfterMerge | src/controllers/identifyController.ts:92-104 | a merge only removes a primary, so distinct primary keys stay distinct |
| IdentifyProperties.IdentifyKeepsKeysDistinct | src/controllers/identifyController.ts:8-105 | no call makes two primaries share a present email or phone |
| IdentifyProperties.IdentifyPreservesValid | src/controllers/identifyController.ts:8-105 | every call maps a valid table to a valid table, each part of the invariant being kept separately |
| IdentifyProperties.ResubmitAfterCreate | src/controllers/identifyController.ts:34-42 | after a zero-match creation, the same probe writes nothing |
| IdentifyProperties.ResubmitAfterAppend | src/controllers/identifyController.ts:78-86 | after a secondary is appended, the same probe writes nothing |
| IdentifyProperties.ResubmitAfterMerge | src/controllers/identifyController.ts:88-105 | after a merge, the same probe writes nothing: its email and phone are both known to the merged cluster |
| IdentifyProperties.ResubmissionAddsNothing | src/controllers/identifyController.ts:58-87 | on a valid table, submitting the same probe a second time leaves the store as the first call left it |
| Scenarios.SharedEmailResubmissionWrites | src/controllers/identifyController.ts:55-105 | on a flat, populated table whose two primaries share an email, a merging probe resubmitted appends a secondary, so resubmission needs distinct primary keys |
| Scenarios.EachRequestMerges | src/controllers/identifyController.ts:88-104 | on three unrelated primaries, a probe with the email of one and the phone of the next merges those two and answers both ids |
| Scenarios.InterleavedMergesBreakFlatness | src/controllers/identifyController.ts:88-104 | two merges computed from the same read that share a primary, applied one after the other, leave a record linked to a secondary |
| ClusterViews.ClusterView | src/controllers/identifyController.ts:112-121 | documented-only view: the primary's id; its emails and phones are distinct, exactly the cluster's known values, with the primary's first; secondary ids ascending, exactly the records linked to the primary |
| ClusterViews.ClusterValuesAreKnown | src/controllers/identifyController.ts:58-70 | the values the view lists for a cluster are exactly the known emails and phones of the one-match path |
| ClusterViews.ClusterViewListsSecondaries | src/controllers/identifyController.ts:118 | on a valid table the listed ids are exactly the secondaries of the primary, not the primary itself |
| ClusterViews.ConsolidatedMembers | src/controllers/identifyController.ts:65-70 | a value is listed iff some listed record carries it as a present field |
| Scenarios.FirstProbeCreatesPrimary | src/controllers/identifyController.ts:34-51 | on an empty table the probe becomes primary 0 and is answered with its view |
| Scenarios.NewPhoneAppendsSecondary | src/controllers/identifyController.ts:55-87 | a known email with a new phone appends a secondary linked to primary 0 |
| Scenarios.GrownClusterView | src/controllers/identifyController.ts:112-121 | the documented view of that cluster lists one email, both phones and secondary 1 |
| Scenarios.SecondaryOnlyMatchOpensCluster | src/controllers/identifyController.ts:15-24 | a probe whose phone only a secondary carries creates a new primary |
| Scenarios.BridgingProbeMerges | src/controllers/identifyController.ts:88-105 | a probe whose email is in one cluster and phone in another demotes the newer primary under the older one |
| Scenarios.MergedClusterView | src/controllers/identifyController.ts:112-121 | the documented view of the merged cluster lists both emails, three phones in creation order and secondaries 1 and 2 |

## Left out

- HTTP plumbing is not modelled: Express request and response handling, the
  400, 200 and 500 status codes, and the JSON framing. This includes the
  `primaryContatctId` key spelling. The outcome is the `Response` datatype.
- The `Listed` response carries the ids of the matched primaries. The source
  serialises the records themselves as they were fetched before any write.
  Those records are the input store's entries at those ids.
- Process startup, environment configuration and route wiring
  (`src/server.ts`, `src/routes/identify.ts`) are not modelled.
- The database client is not modelled. How it treats a filter such as
  `{ email: undefined }` is library behaviour. The model uses the intended
  predicate: an absent or empty probe field matches nothing.
- Database failures and the catch-all error path (logging, then a 500) are
  not modelled. Every store operation is taken to succeed.
- Timestamps are not modelled. Creation order is id order.
- Concurrency and transactions are not modelled. The source runs its reads
  and writes without a transaction, and interleavings of concurrent requests
  lie outside a sequential model.
- Request bodies whose fields are not strings are not modelled. Fields are
  optional strings.
- IdentifyProperties.TwoMatchesMerge: states only that the survivor stays
  primary. It does not state that the survivor's record is
  unchanged, because on a table that breaks the invariant (a primary linked
  to the newer one) the flatten step would rewrite the survivor's link too.

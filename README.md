# Content repository of the Winalum admin panel, in Dafny

Winalum keeps its pages, posts and announcements in an in-memory content
repository (`src/lib/data.ts`): a module-level list of content items, seeded
with four records at process start, with six operations — list all, get by
id, create, update by id, delete by id, and statistics by status and type.
This project models that repository and proves what its operations do.

Layout:

- `content_items.dfy` (module `ContentItems`): the `ContentItem` record, its
  type and status tags, the caller's part of a new item (`NewContent`), a
  partial item used as an update (`Updates`, every field optional), the
  spread-and-stamp merge an update performs (`Merge`), and the seed list.
- `collection.dfy` (module `Collection`): lookup (`IndexOf` for `findIndex`,
  `Find` for `find`) and the effect of create, update and delete on the
  sequence, as functions returning the new sequence and the operation's
  result; lemmas on id uniqueness, identity preservation and repeated delete.
- `stats.dfy` (module `Stats`): the filtered counts behind `getStats`, the
  partition identities, how each mutation moves the counts, the seed figures
  and a create/publish/delete scenario from the seed.
- `repository.dfy` (module `Repository`): class `ContentRepository` whose
  field `items` is the live collection; its three mutating methods change it
  in place and are proved equal to the `Collection` functions; `FindIndex`
  is the left-to-right search loop both update and delete run first.

External inputs become parameters: the id `Date.now().toString()` is
`newId`, and each `new Date().toISOString()` read is its own timestamp
parameter (`createdAt` and `updatedAt` for create, `now` for update), so two
reads may differ. Timestamps and ids are opaque strings.

The code does not guarantee three properties one might expect of such a
repository; the model follows the code:

- Ids are not guaranteed fresh: `createContentItem` takes whatever the clock
  yields. Id uniqueness is proved only as an invariant kept when the supplied
  id is not already present (`Collection.CreateKeepsIdsUnique`).
- `updateContentItem` spreads the whole partial record over the old one, so a
  supplied `id` or `createdAt` replaces the old value; only `updatedAt` is
  forced afterwards. Identity is preserved only for updates that omit both
  (`Collection.UpdateKeepsIdentities`).
- `createdAt == updatedAt` at creation holds only when the two clock reads
  agree; `createdAt <= updatedAt` is not guaranteed by the code.

## Model

| member | source | states |
|---|---|---|
| `ContentItems.Seed` | src/lib/data.ts:13-54 | the four seeded records, field for field, in the order of the seed list; there are four of them |
| `ContentItems.Merge` | src/lib/data.ts:79-83 | every field of the update that is supplied replaces the old one (id and createdAt included), every omitted field keeps the old value, and updatedAt is the clock value whether or not the update supplied one |
| `ContentItems.MergeKeepsIdentity` | src/lib/data.ts:79-83 | an update that omits id and createdAt keeps both |
| `ContentItems.MergeNothing` | src/lib/data.ts:79-83 | an empty update changes only updatedAt |
| `ContentItems.MergeIdempotent` | src/lib/data.ts:79-83 | applying one update twice at one time equals applying it once |
| `Collection.IndexOf` | src/lib/data.ts:76 | the result is -1 exactly when no item has the id; otherwise it is an in-range index whose item has the id and before which no item has it |
| `Collection.Find` | src/lib/data.ts:60-62 | an item is returned exactly when some item has the id, and the returned item has that id and is in the collection |
| `Collection.FindIsAtIndexOf` | src/lib/data.ts:60-62 | the item `find` returns is the one at the first matching index |
| `Collection.FindUnique` | src/lib/data.ts:60-62 | with unique ids, looking up any item's id finds that item at its own index |
| `Collection.Create` | src/lib/data.ts:64-73 | the collection grows by one, every old item stays at its index, the new item is last and is returned; it copies title, content, type, status and author from the caller and takes id and both timestamps from the id source and the two clock reads |
| `Collection.Update` | src/lib/data.ts:75-85 | the length is kept; an unknown id changes nothing and returns nothing; otherwise only the first matching index changes, to the merge of its item with the update, and that record is returned |
| `Collection.Delete` | src/lib/data.ts:87-93 | true exactly when some item has the id; false leaves the collection unchanged; true removes the first matching item, shrinks the length by one, keeps the others in order, and removes nothing else from the multiset of items |
| `Collection.CreateKeepsIdsUnique` | src/lib/data.ts:64-72 | when the new id is not already present, ids stay unique and looking up the new id finds the new item |
| `Collection.UpdateKeepsIdsUnique` | src/lib/data.ts:75-85 | ids stay unique when the update supplies no id, the looked-up id, or an id nobody holds |
| `Collection.UpdateKeepsIdentities` | src/lib/data.ts:79-83 | an update that omits id and createdAt leaves every item's id and createdAt unchanged |
| `Collection.FindAfterUpdate` | src/lib/data.ts:75-85 | after a successful update that supplies no id, looking up the id finds the returned record at the same index |
| `Collection.DeleteKeepsIdsUnique` | src/lib/data.ts:87-93 | deleting keeps ids unique |
| `Collection.DeleteTwice` | src/lib/data.ts:87-93 | with unique ids, after a successful delete the id is not found and a second delete returns false and changes nothing |
| `Collection.SeedIdsUnique` | src/lib/data.ts:13-54 | the seed ids are unique, and "4" is the id of the fourth item only |
| `Stats.Count` | src/lib/data.ts:97-101 | a filtered count never exceeds the number of items |
| `Stats.CountConcat` | src/lib/data.ts:97-101 | a filtered count over two concatenated lists is the sum of the counts |
| `Stats.StatusCountsPartition` | src/lib/data.ts:97-98 | the published and draft counts add up to the number of items |
| `Stats.TypeCountsPartition` | src/lib/data.ts:99-101 | the page, post and announcement counts add up to the number of items |
| `Stats.GetStats` | src/lib/data.ts:95-111 | total is the number of items, published + drafts == total, and pages + posts + announcements == total |
| `Stats.SeedStats` | src/lib/data.ts:13-54 | on the seed list the figures are total 4, published 3, drafts 1, pages 2, posts 1, announcements 1 |
| `Stats.CountAfterCreate` | src/lib/data.ts:64-73 | creating adds one to exactly the counts the new item matches |
| `Stats.CountAfterDelete` | src/lib/data.ts:87-93 | a successful delete takes one off exactly the counts the removed item matched; a failed one changes no count |
| `Stats.CountReplace` | src/lib/data.ts:79 | replacing one item moves it from the counts of the old item to those of the new one |
| `Stats.CountAfterUpdate` | src/lib/data.ts:75-85 | a successful update moves the item from the counts of its old record to those of its new one |
| `Stats.StatsAfterRetaggingFreeUpdate` | src/lib/data.ts:79-83 | an update that supplies neither status nor type leaves all figures unchanged |
| `Stats.SeedScenario` | src/lib/data.ts:13-110 | from the seed, creating a draft post gives total 5 and posts 2, publishing it gives published 4 and drafts 1, and deleting item "4" gives total 4 and announcements 0 |
| `Repository.FindIndex` | src/lib/data.ts:76 | the search loop returns the first index whose item has the id, or -1 exactly when none has it |
| `Repository.ContentRepository.constructor` | src/lib/data.ts:13-54 | the repository starts with the seed list, whose ids are unique |
| `Repository.ContentRepository.GetContentItems` | src/lib/data.ts:56-58 | returns the whole current collection, unfiltered and in insertion order |
| `Repository.ContentRepository.GetContentItem` | src/lib/data.ts:60-62 | returns an item exactly when some item has the id, namely the one at the first matching index; the collection is only read |
| `Repository.ContentRepository.GetStats` | src/lib/data.ts:95-111 | figures computed from the current collection, with published + drafts == total and pages + posts + announcements == total |
| `Repository.ContentRepository.CreateContentItem` | src/lib/data.ts:64-73 | the new collection and the returned item are those of `Collection.Create` (the item appended at the end), and ids stay unique when the new id is fresh |
| `Repository.ContentRepository.UpdateContentItem` | src/lib/data.ts:75-85 | the new collection and the result are those of `Collection.Update`; nothing is returned exactly when the id is unknown and then nothing changes; ids stay unique for a safe update |
| `Repository.ContentRepository.DeleteContentItem` | src/lib/data.ts:87-93 | the new collection and the result are those of `Collection.Delete`; success shrinks the collection by one; with unique ids they stay unique and the id is gone afterwards |
| `Repository.DeleteThenLookUp` | src/lib/data.ts:87-93 | with unique ids, deleting twice gives success exactly when the id was present, then failure, and a lookup afterwards finds nothing |

## Left out

- HTTP route handlers, session lookup and the React pages that call the repository: they are request/response plumbing, a foreign authentication library and UI state; the repository does not depend on them.
- The required-field check of the create route (`src/app/api/content/route.ts:32`): it runs before the repository is called and only tests that title, content, type and status are truthy, so `CreateContentItem` has no precondition on them.
- Runtime shape of creates: the create route (`src/app/api/content/route.ts:30-42`) forwards `type` and `status` from its JSON body untouched, checked only for truthiness, so a body such as `{"title":"a","content":"b","type":"banner","status":"archived"}` stores an item whose tags are none of the enumerated values. The model takes the caller's fields as a typed record (`NewContent`), so it cannot express such a create; `published + drafts == total` and the per-type identity hold only when creates are typed, and after such a create both can fail.
- Runtime shape of updates: the update route (`src/app/api/content/[id]/route.ts:40-41`) passes its JSON body unchecked into the spread, so a body such as `{"status":"archived"}` or `{"title":null}` is stored as given, and extra keys are stored too. The model takes updates as a typed partial record, so stored tags are always one of the enumerated values; `published + drafts == total` and the per-type identity therefore hold only for typed updates, and after an untyped update body they can fail. A key present with the value `null` or `undefined` overwrites the field in the spread, which `None` in `Updates` (an omitted key) cannot express.
- Clock and id generation (`Date.now`, `toISOString`): become parameters; ISO-8601 formatting and the ordering of timestamps are not modelled.
- Aliasing: `getContentItems` returns the live array, and `getContentItem` (the object `find` yields, `src/lib/data.ts:61`), `createContentItem` (the same `newItem` it pushes, `src/lib/data.ts:71-72`) and `updateContentItem` (`contentData[index]`, `src/lib/data.ts:84`) return the live stored record. The model returns values, so mutating a returned record or array and thereby the collection is not captured, nor is a record returned before an update going stale because the update replaces the stored object (`src/lib/data.ts:79`).
- Concurrency: each operation is one atomic step, as in the single-threaded runtime.

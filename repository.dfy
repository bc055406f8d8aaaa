/**
 * The content repository as `data.ts` keeps it: one mutable collection that
 * the three mutating operations change in place. Each method is proved
 * against the matching function of module Collection. The id source and the
 * clock are parameters: `newId` stands for `Date.now().toString()`, and each
 * timestamp parameter for one `new Date().toISOString()` read.
 */
module Repository {
  import opened ContentItems
  import opened Collection
  import opened Stats

  /** The first index whose item carries `id`, or -1: a left-to-right search. */
  method FindIndex(items: seq<ContentItem>, id: Id) returns (index: int)
    ensures index == IndexOf(items, id)
    ensures 0 <= index ==> index < |items| && items[index].id == id
    ensures index == -1 <==> !HasId(items, id)
  {
    index := 0;
    while index < |items|
      invariant 0 <= index <= |items|
      invariant forall j :: 0 <= j < index ==> items[j].id != id
    {
      if items[index].id == id {
        return;
      }
      index := index + 1;
    }
    index := -1;
  }

  class ContentRepository {
    /** The live collection, in insertion order. */
    var items: seq<ContentItem>

    /** The repository as the process starts: the four seeded items. */
    constructor ()
      ensures items == Seed()
      ensures UniqueIds(items)
    {
      items := Seed();
      SeedIdsUnique();
    }

    /** `getContentItems`: the whole collection, unfiltered and in insertion order. */
    function GetContentItems(): (r: seq<ContentItem>)
      reads this
      ensures r == items
    {
      items
    }

    /** `getContentItem`: the first item carrying `id`, or nothing; reading changes nothing. */
    function GetContentItem(id: Id): (r: Option<ContentItem>)
      reads this
      ensures r.Some? <==> HasId(items, id)
      ensures r.Some? ==> r == Some(items[IndexOf(items, id)])
    {
      FindIsAtIndexOf(items, id);
      Find(items, id)
    }

    /** `getStats`: figures computed afresh from the current collection. */
    function GetStats(): (r: Summary)
      reads this
      ensures r.total == |items|
      ensures r.published + r.drafts == r.total
      ensures r.pages + r.posts + r.announcements == r.total
    {
      Stats.GetStats(items)
    }

    /**
     * `createContentItem`: appends a record built from `fields`, `newId` and
     * the two clock reads, and returns it. Ids stay unique when `newId` is fresh.
     */
    method CreateContentItem(fields: NewContent, newId: Id, createdAt: Timestamp, updatedAt: Timestamp)
      returns (item: ContentItem)
      modifies this
      ensures (items, item) == Create(old(items), fields, newId, createdAt, updatedAt)
      ensures items == old(items) + [item]
      ensures UniqueIds(old(items)) && !HasId(old(items), newId) ==> UniqueIds(items)
    {
      item := ContentItem(newId, fields.title, fields.content, fields.contentType, fields.status,
                          createdAt, updatedAt, fields.author);
      items := items + [item];
      if UniqueIds(old(items)) && !HasId(old(items), newId) {
        CreateKeepsIdsUnique(old(items), fields, newId, createdAt, updatedAt);
      }
    }

    /**
     * `updateContentItem`: when no item carries `id`, returns nothing and leaves
     * the collection alone; otherwise overwrites the first such item with its
     * merge with `updates` at time `now` and returns the new record.
     */
    method UpdateContentItem(id: Id, updates: Updates, now: Timestamp) returns (r: Option<ContentItem>)
      modifies this
      ensures (items, r) == Update(old(items), id, updates, now)
      ensures r.None? <==> items == old(items) && !HasId(old(items), id)
      ensures UniqueIds(old(items)) && IdSafe(old(items), id, updates) ==> UniqueIds(items)
    {
      var index := FindIndex(items, id);
      if index == -1 {
        return None;
      }
      items := items[index := Merge(items[index], updates, now)];
      r := Some(items[index]);
      if UniqueIds(old(items)) && IdSafe(old(items), id, updates) {
        UpdateKeepsIdsUnique(old(items), id, updates, now);
      }
    }

    /**
     * `deleteContentItem`: when no item carries `id`, returns false and leaves
     * the collection alone; otherwise splices out the first such item and
     * returns true.
     */
    method DeleteContentItem(id: Id) returns (deleted: bool)
      modifies this
      ensures (items, deleted) == Delete(old(items), id)
      ensures deleted ==> |items| == |old(items)| - 1
      ensures UniqueIds(old(items)) ==> UniqueIds(items)
      ensures UniqueIds(old(items)) && deleted ==> !HasId(items, id)
    {
      var index := FindIndex(items, id);
      if index == -1 {
        return false;
      }
      items := items[..index] + items[index + 1..];
      deleted := true;
      if UniqueIds(old(items)) {
        DeleteKeepsIdsUnique(old(items), id);
        DeleteTwice(old(items), id);
      }
    }
  }

  /** A client that relies on the method contracts alone: delete twice, then look up. */
  method DeleteThenLookUp(repo: ContentRepository, id: Id) returns (first: bool, second: bool, found: Option<ContentItem>)
    requires UniqueIds(repo.items)
    modifies repo
    ensures first == HasId(old(repo.items), id)
    ensures !second && found == None
  {
    first := repo.DeleteContentItem(id);
    second := repo.DeleteContentItem(id);
    found := repo.GetContentItem(id);
  }
}

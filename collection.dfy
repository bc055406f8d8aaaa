/**
 * The collection of content items as a value: lookup by id, and the effect of
 * each mutating operation (create, update, delete) on the sequence, written as
 * functions from the old sequence to the new one and the operation's result.
 * The repository class proves its methods against these functions.
 */
module Collection {
  import opened ContentItems

  /** Some item carries `id`. */
  ghost predicate HasId(items: seq<ContentItem>, id: Id) {
    exists i :: 0 <= i < |items| && items[i].id == id
  }

  /** No two items share an id. `data.ts` does not enforce this; it is an invariant callers may keep. */
  ghost predicate UniqueIds(items: seq<ContentItem>) {
    forall i, j :: 0 <= i < j < |items| ==> items[i].id != items[j].id
  }

  /** The seeded items carry the distinct ids "1" to "4". */
  lemma SeedIdsUnique()
    ensures UniqueIds(Seed())
    ensures forall i :: 0 <= i < 3 ==> Seed()[i].id != "4"
    ensures Seed()[3].id == "4"
  {
  }

  /** The index of the first item carrying `id`, or -1 when there is none (`findIndex`). */
  function IndexOf(items: seq<ContentItem>, id: Id): (k: int)
    ensures -1 <= k < |items|
    ensures k == -1 <==> !HasId(items, id)
    ensures 0 <= k ==> items[k].id == id && forall j :: 0 <= j < k ==> items[j].id != id
  {
    if items == [] then -1
    else if items[0].id == id then 0
    else
      var k := IndexOf(items[1..], id);
      assert forall j :: 1 <= j < |items| ==> items[j] == items[1..][j - 1];
      if k == -1 then -1 else k + 1
  }

  /** The first item carrying `id`, or nothing (`find`). */
  function Find(items: seq<ContentItem>, id: Id): (r: Option<ContentItem>)
    ensures r.Some? <==> HasId(items, id)
    ensures r.Some? ==> r.value.id == id && r.value in items
  {
    if items == [] then None
    else if items[0].id == id then Some(items[0])
    else
      assert forall j :: 1 <= j < |items| ==> items[j] == items[1..][j - 1];
      Find(items[1..], id)
  }

  /** `Find` and `IndexOf` agree: the item found is the one at the first matching index. */
  lemma {:induction false} FindIsAtIndexOf(items: seq<ContentItem>, id: Id)
    ensures Find(items, id) == if IndexOf(items, id) == -1 then None else Some(items[IndexOf(items, id)])
  {
    if items != [] && items[0].id != id {
      FindIsAtIndexOf(items[1..], id);
    }
  }

  /** With unique ids, looking up an item's id finds exactly that item. */
  lemma FindUnique(items: seq<ContentItem>, i: nat)
    requires UniqueIds(items) && i < |items|
    ensures IndexOf(items, items[i].id) == i
    ensures Find(items, items[i].id) == Some(items[i])
  {
  }

  /**
   * `createContentItem`: the new record takes the caller's fields and the id
   * and timestamps supplied by the id source and the two clock reads; it is
   * appended at the end and returned.
   */
  function Create(items: seq<ContentItem>, fields: NewContent, newId: Id, createdAt: Timestamp, updatedAt: Timestamp)
    : (r: (seq<ContentItem>, ContentItem))
    ensures |r.0| == |items| + 1 && r.0[..|items|] == items && r.0[|items|] == r.1
    ensures r.1.title == fields.title && r.1.content == fields.content && r.1.author == fields.author
    ensures r.1.contentType == fields.contentType && r.1.status == fields.status
    ensures r.1.id == newId && r.1.createdAt == createdAt && r.1.updatedAt == updatedAt
  {
    var item := ContentItem(newId, fields.title, fields.content, fields.contentType, fields.status,
                            createdAt, updatedAt, fields.author);
    (items + [item], item)
  }

  /**
   * `updateContentItem`: when no item carries `id`, nothing changes and there
   * is no result; otherwise the first such item, and only it, is replaced by
   * its merge with `u` at time `now`, and the new record is returned.
   */
  function Update(items: seq<ContentItem>, id: Id, u: Updates, now: Timestamp)
    : (r: (seq<ContentItem>, Option<ContentItem>))
    ensures |r.0| == |items|
    ensures !HasId(items, id) ==> r.0 == items && r.1 == None
    ensures HasId(items, id) ==>
      var k := IndexOf(items, id);
      && r.0[k] == Merge(items[k], u, now)
      && (forall j :: 0 <= j < |items| && j != k ==> r.0[j] == items[j])
      && r.1 == Some(r.0[k])
  {
    var k := IndexOf(items, id);
    if k == -1 then (items, None)
    else
      var updated := Merge(items[k], u, now);
      (items[k := updated], Some(updated))
  }

  /**
   * `deleteContentItem`: reports whether some item carries `id`; if so the
   * first such item is spliced out and the others keep their relative order,
   * otherwise nothing changes.
   */
  function Delete(items: seq<ContentItem>, id: Id): (r: (seq<ContentItem>, bool))
    ensures r.1 <==> HasId(items, id)
    ensures !r.1 ==> r.0 == items
    ensures r.1 ==>
      var k := IndexOf(items, id);
      && |r.0| == |items| - 1
      && (forall j :: 0 <= j < k ==> r.0[j] == items[j])
      && (forall j :: k <= j < |r.0| ==> r.0[j] == items[j + 1])
      && multiset(r.0) + multiset{items[k]} == multiset(items)
  {
    var k := IndexOf(items, id);
    if k == -1 then (items, false)
    else
      assert items == items[..k] + [items[k]] + items[k + 1..];
      (items[..k] + items[k + 1..], true)
  }

  /** Creating an item under an id nobody holds keeps ids unique, and the new item is then found by its id. */
  lemma CreateKeepsIdsUnique(items: seq<ContentItem>, fields: NewContent, newId: Id, createdAt: Timestamp, updatedAt: Timestamp)
    requires UniqueIds(items) && !HasId(items, newId)
    ensures UniqueIds(Create(items, fields, newId, createdAt, updatedAt).0)
    ensures var r := Create(items, fields, newId, createdAt, updatedAt);
            Find(r.0, newId) == Some(r.1)
  {
  }

  /** The update `u` of the item carrying `id` supplies no id, the same id, or an id nobody holds. */
  ghost predicate IdSafe(items: seq<ContentItem>, id: Id, u: Updates) {
    u.id.None? || u.id.value == id || !HasId(items, u.id.value)
  }

  /** An update whose supplied id is safe keeps ids unique. */
  lemma UpdateKeepsIdsUnique(items: seq<ContentItem>, id: Id, u: Updates, now: Timestamp)
    requires UniqueIds(items) && IdSafe(items, id, u)
    ensures UniqueIds(Update(items, id, u, now).0)
  {
  }

  /** An update that supplies neither `id` nor `createdAt` leaves every item's id and creation time as they were. */
  lemma UpdateKeepsIdentities(items: seq<ContentItem>, id: Id, u: Updates, now: Timestamp)
    requires u.id.None? && u.createdAt.None?
    ensures var r := Update(items, id, u, now);
            forall j :: 0 <= j < |items| ==> r.0[j].id == items[j].id && r.0[j].createdAt == items[j].createdAt
  {
  }

  /** After a successful update that supplies no id, looking the id up finds the new record. */
  lemma FindAfterUpdate(items: seq<ContentItem>, id: Id, u: Updates, now: Timestamp)
    requires HasId(items, id) && u.id.None?
    ensures var r := Update(items, id, u, now);
            IndexOf(r.0, id) == IndexOf(items, id) && Find(r.0, id) == r.1
  {
    var r := Update(items, id, u, now);
    var k := IndexOf(items, id);
    assert r.0[k].id == id;
    assert forall j :: 0 <= j < k ==> r.0[j] == items[j];
    FindIsAtIndexOf(r.0, id);
  }

  /** Deleting never introduces a duplicate id. */
  lemma DeleteKeepsIdsUnique(items: seq<ContentItem>, id: Id)
    requires UniqueIds(items)
    ensures UniqueIds(Delete(items, id).0)
  {
  }

  /**
   * With unique ids, a successful delete removes the id for good: it is no
   * longer found, and a second delete of it reports failure and changes nothing.
   */
  lemma DeleteTwice(items: seq<ContentItem>, id: Id)
    requires UniqueIds(items)
    requires Delete(items, id).1
    ensures Find(Delete(items, id).0, id) == None
    ensures Delete(Delete(items, id).0, id) == (Delete(items, id).0, false)
  {
  }
}

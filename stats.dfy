/**
 * `getStats`: counts of the items by status and by type, computed from the
 * current collection, and how the mutating operations move those counts.
 */
module Stats {
  import opened ContentItems
  import opened Collection

  /** The attribute a count filters on: a status or a type. */
  datatype Tag = StatusIs(status: Status) | TypeIs(contentType: ContentType)

  predicate Matches(item: ContentItem, tag: Tag) {
    match tag
    case StatusIs(s) => item.status == s
    case TypeIs(t) => item.contentType == t
  }

  /** The length of the items filtered by `tag`. */
  function Count(items: seq<ContentItem>, tag: Tag): (n: nat)
    ensures n <= |items|
  {
    if items == [] then 0
    else (if Matches(items[0], tag) then 1 else 0) + Count(items[1..], tag)
  }

  /** The figures `getStats` reports. */
  datatype Summary = Summary(total: nat, published: nat, drafts: nat, pages: nat, posts: nat, announcements: nat)

  /** Counting distributes over concatenation. */
  lemma {:induction false} CountConcat(a: seq<ContentItem>, b: seq<ContentItem>, tag: Tag)
    ensures Count(a + b, tag) == Count(a, tag) + Count(b, tag)
  {
    if a == [] {
      assert a + b == b;
    } else {
      assert (a + b)[1..] == a[1..] + b;
      CountConcat(a[1..], b, tag);
    }
  }

  /** Every item is either published or a draft, never both. */
  lemma {:induction false} StatusCountsPartition(items: seq<ContentItem>)
    ensures Count(items, StatusIs(Published)) + Count(items, StatusIs(Draft)) == |items|
  {
    if items != [] {
      StatusCountsPartition(items[1..]);
    }
  }

  /** Every item is exactly one of page, post and announcement. */
  lemma {:induction false} TypeCountsPartition(items: seq<ContentItem>)
    ensures Count(items, TypeIs(Page)) + Count(items, TypeIs(Post)) + Count(items, TypeIs(Announcement)) == |items|
  {
    if items != [] {
      TypeCountsPartition(items[1..]);
    }
  }

  /**
   * `getStats`: the total, and the filtered counts per status and per type.
   * The status counts and the type counts each add up to the total.
   */
  function GetStats(items: seq<ContentItem>): (r: Summary)
    ensures r.total == |items|
    ensures r.published + r.drafts == r.total
    ensures r.pages + r.posts + r.announcements == r.total
  {
    StatusCountsPartition(items);
    TypeCountsPartition(items);
    Summary(|items|,
            Count(items, StatusIs(Published)), Count(items, StatusIs(Draft)),
            Count(items, TypeIs(Page)), Count(items, TypeIs(Post)), Count(items, TypeIs(Announcement)))
  }

  /** On the seeded collection: 4 items, 3 published, 1 draft, 2 pages, 1 post, 1 announcement. */
  lemma SeedStats()
    ensures GetStats(Seed()) == Summary(4, 3, 1, 2, 1, 1)
  {
  }

  /** Creating an item adds one to the total and one to each count its status and type fall under. */
  lemma CountAfterCreate(items: seq<ContentItem>, fields: NewContent, newId: Id, createdAt: Timestamp, updatedAt: Timestamp, tag: Tag)
    ensures var r := Create(items, fields, newId, createdAt, updatedAt);
            Count(r.0, tag) == Count(items, tag) + (if Matches(r.1, tag) then 1 else 0)
  {
    var r := Create(items, fields, newId, createdAt, updatedAt);
    assert r.0 == items + [r.1];
    CountConcat(items, [r.1], tag);
  }

  /** A successful delete takes one off each count the removed item fell under; a failed one changes nothing. */
  lemma CountAfterDelete(items: seq<ContentItem>, id: Id, tag: Tag)
    ensures var r := Delete(items, id);
            r.1 ==> Count(r.0, tag) + (if Matches(items[IndexOf(items, id)], tag) then 1 else 0) == Count(items, tag)
    ensures !Delete(items, id).1 ==> Count(Delete(items, id).0, tag) == Count(items, tag)
  {
    var r := Delete(items, id);
    if r.1 {
      var k := IndexOf(items, id);
      assert r.0 == items[..k] + items[k + 1..];
      assert items == items[..k] + ([items[k]] + items[k + 1..]);
      CountConcat(items[..k], items[k + 1..], tag);
      CountConcat(items[..k], [items[k]] + items[k + 1..], tag);
      CountConcat([items[k]], items[k + 1..], tag);
    }
  }

  /** Replacing the item at `k` by `x` moves it from the counts of the old item to those of `x`. */
  lemma {:induction false} CountReplace(items: seq<ContentItem>, k: nat, x: ContentItem, tag: Tag)
    requires k < |items|
    ensures Count(items[k := x], tag) + (if Matches(items[k], tag) then 1 else 0)
              == Count(items, tag) + (if Matches(x, tag) then 1 else 0)
  {
    if k > 0 {
      assert items[k := x][1..] == items[1..][k - 1 := x];
      CountReplace(items[1..], k - 1, x, tag);
    }
  }

  /** A successful update moves the updated item from the counts of its old record to those of its new one. */
  lemma CountAfterUpdate(items: seq<ContentItem>, id: Id, u: Updates, now: Timestamp, tag: Tag)
    requires HasId(items, id)
    ensures var k := IndexOf(items, id);
            var r := Update(items, id, u, now);
            Count(r.0, tag) + (if Matches(items[k], tag) then 1 else 0)
              == Count(items, tag) + (if Matches(r.0[k], tag) then 1 else 0)
  {
  }

  /** An update that changes neither status nor type leaves every count as it was. */
  lemma StatsAfterRetaggingFreeUpdate(items: seq<ContentItem>, id: Id, u: Updates, now: Timestamp)
    requires u.status.None? && u.contentType.None?
    ensures GetStats(Update(items, id, u, now).0) == GetStats(items)
  {
    if HasId(items, id) {
      CountAfterUpdate(items, id, u, now, StatusIs(Published));
      CountAfterUpdate(items, id, u, now, StatusIs(Draft));
      CountAfterUpdate(items, id, u, now, TypeIs(Page));
      CountAfterUpdate(items, id, u, now, TypeIs(Post));
      CountAfterUpdate(items, id, u, now, TypeIs(Announcement));
    }
  }

  /**
   * Starting from the seed: create a draft post "X" (total 5, posts 2), publish
   * it (published 4, drafts 1), then delete the draft announcement "4"
   * (total 4, announcements 0).
   */
  lemma SeedScenario(author: string, newId: Id, t1: Timestamp, t2: Timestamp, t3: Timestamp)
    requires !HasId(Seed(), newId)
    ensures var c := Create(Seed(), NewContent("X", "X", Post, Draft, author), newId, t1, t2).0;
            var u := Update(c, newId, NoUpdates.(status := Some(Published)), t3).0;
            var d := Delete(u, "4").0;
            && GetStats(c).total == 5 && GetStats(c).posts == 2
            && GetStats(u).published == 4 && GetStats(u).drafts == 1
            && GetStats(d).total == 4 && GetStats(d).announcements == 0
  {
    var s := Seed();
    var fields := NewContent("X", "X", Post, Draft, author);
    var upd := NoUpdates.(status := Some(Published));
    SeedStats();
    SeedIdsUnique();
    // create
    var c := Create(s, fields, newId, t1, t2);
    CountAfterCreate(s, fields, newId, t1, t2, TypeIs(Post));
    CountAfterCreate(s, fields, newId, t1, t2, StatusIs(Published));
    CountAfterCreate(s, fields, newId, t1, t2, StatusIs(Draft));
    CountAfterCreate(s, fields, newId, t1, t2, TypeIs(Announcement));
    // publish the new post
    assert c.0[4].id == newId;
    assert IndexOf(c.0, newId) == 4;
    var u := Update(c.0, newId, upd, t3);
    CountAfterUpdate(c.0, newId, upd, t3, StatusIs(Published));
    CountAfterUpdate(c.0, newId, upd, t3, StatusIs(Draft));
    CountAfterUpdate(c.0, newId, upd, t3, TypeIs(Announcement));
    // delete the announcement
    assert u.0[3] == s[3];
    assert forall j :: 0 <= j < 3 ==> u.0[j] == s[j];
    assert IndexOf(u.0, "4") == 3;
    CountAfterDelete(u.0, "4", TypeIs(Announcement));
  }
}

/**
 * The records of the content repository: a content item, the caller's part of
 * a new item, a partial item used as an update, and the four seeded items the
 * repository starts with.
 */
module ContentItems {

  /** An optional value; `None` stands for a field a partial record omits. */
  datatype Option<+T> = None | Some(value: T) {
    /** The value if present, otherwise `default`. */
    function GetOr(default: T): T {
      match this
      case Some(v) => v
      case None => default
    }
  }

  /** Identifiers are opaque strings (`data.ts` derives them from a clock). */
  type Id = string

  /** An ISO-8601 timestamp as a string; its format is not modelled. */
  type Timestamp = string

  datatype ContentType = Page | Post | Announcement

  datatype Status = Published | Draft

  /** One content item. The TypeScript field `type` is `contentType` here. */
  datatype ContentItem = ContentItem(
    id: Id,
    title: string,
    content: string,
    contentType: ContentType,
    status: Status,
    createdAt: Timestamp,
    updatedAt: Timestamp,
    author: string)

  /** What a caller supplies to create an item: everything but id and the two timestamps. */
  datatype NewContent = NewContent(
    title: string,
    content: string,
    contentType: ContentType,
    status: Status,
    author: string)

  /** A partial content item: every field may be omitted, and any may be supplied. */
  datatype Updates = Updates(
    id: Option<Id>,
    title: Option<string>,
    content: Option<string>,
    contentType: Option<ContentType>,
    status: Option<Status>,
    createdAt: Option<Timestamp>,
    updatedAt: Option<Timestamp>,
    author: Option<string>)

  /** The update that supplies no field at all. */
  const NoUpdates: Updates := Updates(None, None, None, None, None, None, None, None)

  /** `o` decides `updated` when it is present; otherwise `updated` keeps `previous`. */
  ghost predicate Overrides<T>(o: Option<T>, updated: T, previous: T) {
    (o.Some? ==> updated == o.value) && (o.None? ==> updated == previous)
  }

  /**
   * The record an update produces: the old record with every supplied field of
   * `u` spread over it, then `updatedAt` forced to the clock value `now`.
   * A supplied `id` or `createdAt` replaces the old one; a supplied `updatedAt`
   * is always superseded.
   */
  function Merge(item: ContentItem, u: Updates, now: Timestamp): (r: ContentItem)
    ensures Overrides(u.id, r.id, item.id)
    ensures Overrides(u.title, r.title, item.title)
    ensures Overrides(u.content, r.content, item.content)
    ensures Overrides(u.contentType, r.contentType, item.contentType)
    ensures Overrides(u.status, r.status, item.status)
    ensures Overrides(u.createdAt, r.createdAt, item.createdAt)
    ensures Overrides(u.author, r.author, item.author)
    ensures r.updatedAt == now
  {
    ContentItem(
      u.id.GetOr(item.id),
      u.title.GetOr(item.title),
      u.content.GetOr(item.content),
      u.contentType.GetOr(item.contentType),
      u.status.GetOr(item.status),
      u.createdAt.GetOr(item.createdAt),
      now,
      u.author.GetOr(item.author))
  }

  /** An update that omits `id` and `createdAt` keeps the item's identity and creation time. */
  lemma MergeKeepsIdentity(item: ContentItem, u: Updates, now: Timestamp)
    requires u.id.None? && u.createdAt.None?
    ensures Merge(item, u, now).id == item.id
    ensures Merge(item, u, now).createdAt == item.createdAt
  {
  }

  /** An empty update only refreshes `updatedAt`. */
  lemma MergeNothing(item: ContentItem, now: Timestamp)
    ensures Merge(item, NoUpdates, now) == item.(updatedAt := now)
  {
  }

  /** Applying the same update twice at the same time is the same as applying it once. */
  lemma MergeIdempotent(item: ContentItem, u: Updates, now: Timestamp)
    ensures Merge(Merge(item, u, now), u, now) == Merge(item, u, now)
  {
  }

  /**
   * The four items the repository holds when the process starts, in order.
   */
  function Seed(): (r: seq<ContentItem>)
    ensures |r| == 4
  {
    [ ContentItem("1", "Welcome to Winalum",
        "This is the main welcome page content. Here you can introduce your organization and its mission.",
        Page, Published, "2024-01-15T10:00:00Z", "2024-01-15T10:00:00Z", "Admin User"),
      ContentItem("2", "About Us",
        "Learn more about our organization, our history, and our commitment to excellence.",
        Page, Published, "2024-01-16T14:30:00Z", "2024-01-16T14:30:00Z", "Admin User"),
      ContentItem("3", "Latest News Update",
        "Stay updated with the latest news and announcements from our organization.",
        Post, Published, "2024-01-17T09:15:00Z", "2024-01-17T09:15:00Z", "Admin User"),
      ContentItem("4", "Important Announcement",
        "This is an important announcement that all members should be aware of.",
        Announcement, Draft, "2024-01-18T16:45:00Z", "2024-01-18T16:45:00Z", "Admin User") ]
  }
}

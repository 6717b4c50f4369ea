/**
 * The two stored entities. Timestamps (`createdAt`, `addedAt`, `publishedAt`),
 * which the application keeps as ISO-8601 text and compares through `new Date(..)`,
 * are modelled by the instant they denote, an integer.
 */
module Records {
  import opened Optional

  datatype Category = Category(id: string, name: string, createdAt: int)

  /** The metadata the YouTube collaborator returns for a video (the input of `addVideo`). */
  datatype VideoData = VideoData(
    videoId: string, title: string, channel: string, thumbnail: string,
    views: int, duration: Option<string>, publishedAt: int, description: string)

  /**
   * A stored video. `duration` is the ISO-8601 text the collaborator returned,
   * which may be missing; `categories` is the list of category ids the video
   * belongs to (its membership edges).
   */
  datatype Video = Video(
    id: string, videoId: string, title: string, channel: string, thumbnail: string,
    views: int, duration: Option<string>, publishedAt: int, description: string,
    addedAt: int, watched: bool, favorite: bool, categories: seq<string>)

  /** The `updates` object of `updateVideo`: the fields it carries overwrite the video's. */
  datatype VideoPatch = VideoPatch(
    id: Option<string>, videoId: Option<string>, title: Option<string>,
    channel: Option<string>, thumbnail: Option<string>, views: Option<int>,
    duration: Option<Option<string>>, publishedAt: Option<int>,
    description: Option<string>, addedAt: Option<int>, watched: Option<bool>,
    favorite: Option<bool>, categories: Option<seq<string>>)

  function Pick<T>(o: Option<T>, current: T): T {
    if o.Some? then o.value else current
  }

  /** `{ ...video, ...updates }`: each field the update carries overwrites the video's, every other field is kept. */
  function ApplyPatch(v: Video, u: VideoPatch): (r: Video)
    ensures u == VideoPatch(None, None, None, None, None, None, None, None, None, None, None, None, None) ==> r == v
    ensures (u.id.Some? ==> r.id == u.id.value) && (u.id.None? ==> r.id == v.id)
    ensures (u.videoId.Some? ==> r.videoId == u.videoId.value) && (u.videoId.None? ==> r.videoId == v.videoId)
    ensures (u.title.Some? ==> r.title == u.title.value) && (u.title.None? ==> r.title == v.title)
    ensures (u.channel.Some? ==> r.channel == u.channel.value) && (u.channel.None? ==> r.channel == v.channel)
    ensures (u.thumbnail.Some? ==> r.thumbnail == u.thumbnail.value) && (u.thumbnail.None? ==> r.thumbnail == v.thumbnail)
    ensures (u.views.Some? ==> r.views == u.views.value) && (u.views.None? ==> r.views == v.views)
    ensures (u.duration.Some? ==> r.duration == u.duration.value) && (u.duration.None? ==> r.duration == v.duration)
    ensures (u.publishedAt.Some? ==> r.publishedAt == u.publishedAt.value) && (u.publishedAt.None? ==> r.publishedAt == v.publishedAt)
    ensures (u.description.Some? ==> r.description == u.description.value) && (u.description.None? ==> r.description == v.description)
    ensures (u.addedAt.Some? ==> r.addedAt == u.addedAt.value) && (u.addedAt.None? ==> r.addedAt == v.addedAt)
    ensures (u.watched.Some? ==> r.watched == u.watched.value) && (u.watched.None? ==> r.watched == v.watched)
    ensures (u.favorite.Some? ==> r.favorite == u.favorite.value) && (u.favorite.None? ==> r.favorite == v.favorite)
    ensures (u.categories.Some? ==> r.categories == u.categories.value) && (u.categories.None? ==> r.categories == v.categories)
  {
    Video(Pick(u.id, v.id), Pick(u.videoId, v.videoId), Pick(u.title, v.title),
          Pick(u.channel, v.channel), Pick(u.thumbnail, v.thumbnail), Pick(u.views, v.views),
          Pick(u.duration, v.duration), Pick(u.publishedAt, v.publishedAt),
          Pick(u.description, v.description), Pick(u.addedAt, v.addedAt),
          Pick(u.watched, v.watched), Pick(u.favorite, v.favorite),
          Pick(u.categories, v.categories))
  }

  /** The `id` of a category, the key imports merge by. */
  function CategoryKey(c: Category): string {
    c.id
  }

  /** The `id` of a stored video (not its YouTube `videoId`), the key imports merge by. */
  function VideoKey(v: Video): string {
    v.id
  }

  /** `(video) => video.categories.includes(categoryId)`. */
  function InCategory(categoryId: string): Video -> bool {
    (v: Video) => categoryId in v.categories
  }
}

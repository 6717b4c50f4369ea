/**
 * `src/hooks/useVideos.js`: the list of stored videos and the operations the
 * interface performs on it. Each video's `categories` list is the set of
 * membership edges between that video and the categories.
 *
 * Every mutator of the hook replaces the whole list with a new one computed
 * from the previous list (`setVideos((prev) => ...)`). The functions below
 * compute those new lists; the `VideoStore` class holds the current list and
 * has one method per mutator. Generated ids and the clock are parameters.
 */
module Videos {
  import opened Optional
  import opened Records
  import opened Seqs
  import opened Keyed
  import ExportImport

  /** `(video) => video.id === id`. */
  function HasId(id: string): Video -> bool {
    (v: Video) => v.id == id
  }

  /** `(video) => idsSet.has(video.id)`. */
  function IdIn(ids: seq<string>): Video -> bool {
    (v: Video) => v.id in ids
  }

  /** The record `addVideo` creates. */
  function NewVideo(data: VideoData, categoryId: string, id: string, addedAt: int): Video {
    Video(id, data.videoId, data.title, data.channel, data.thumbnail, data.views, data.duration,
          data.publishedAt, data.description, addedAt, false, false, [categoryId])
  }

  /** The list after `deleteVideos(ids)`. */
  function WithoutIds(videos: seq<Video>, ids: seq<string>): (r: seq<Video>)
    ensures forall v :: v in r <==> v in videos && v.id !in ids
  {
    Filter(videos, (v: Video) => v.id !in ids)
  }

  /** The list after `deleteVideo(id)`. */
  function WithoutId(videos: seq<Video>, id: string): (r: seq<Video>)
    ensures forall v :: v in r <==> v in videos && v.id != id
  {
    Filter(videos, (v: Video) => v.id != id)
  }

  /** Deleting removes only records: the rest stay in their order. */
  lemma DeleteKeepsOrder(videos: seq<Video>, ids: seq<string>)
    ensures IsSubsequence(WithoutIds(videos, ids), videos)
  {
    FilterIsSubsequence(videos, (v: Video) => v.id !in ids);
  }

  /** Deleting ids no record has changes nothing. */
  lemma DeleteUnknownIsNoOp(videos: seq<Video>, ids: seq<string>)
    requires forall i :: 0 <= i < |videos| ==> videos[i].id !in ids
    ensures WithoutIds(videos, ids) == videos
  {
    FilterAllPass(videos, (v: Video) => v.id !in ids);
  }

  /** Deleting one id is deleting the one-element list of it. */
  lemma DeleteOneIsDeleteMany(videos: seq<Video>, id: string)
    ensures WithoutId(videos, id) == WithoutIds(videos, [id])
  {
    FilterExtensional(videos, (v: Video) => v.id != id, (v: Video) => v.id !in [id]);
  }

  /** The list after `updateVideo(id, updates)`. */
  function Updated(videos: seq<Video>, id: string, patch: VideoPatch): (r: seq<Video>)
    ensures |r| == |videos|
    ensures forall i :: 0 <= i < |videos| && videos[i].id != id ==> r[i] == videos[i]
    ensures forall i :: 0 <= i < |videos| && videos[i].id == id ==> r[i] == ApplyPatch(videos[i], patch)
  {
    MapWhere(videos, HasId(id), (v: Video) => ApplyPatch(v, patch))
  }

  /** An update naming an id no record has, or carrying no field, changes nothing. */
  lemma UpdateNoOp(videos: seq<Video>, id: string, patch: VideoPatch)
    requires (forall i :: 0 <= i < |videos| ==> videos[i].id != id)
          || patch == VideoPatch(None, None, None, None, None, None, None, None, None, None, None, None, None)
    ensures Updated(videos, id, patch) == videos
  {
  }

  /** The list after `toggleWatched(id)`: the matching records have `watched` flipped and nothing else changed. */
  function WatchedToggled(videos: seq<Video>, id: string): (r: seq<Video>)
    ensures |r| == |videos|
    ensures forall i :: 0 <= i < |videos| ==>
      && r[i].watched == (videos[i].watched != (videos[i].id == id))
      && r[i].(watched := videos[i].watched) == videos[i]
  {
    MapWhere(videos, HasId(id), (v: Video) => v.(watched := !v.watched))
  }

  /** The list after `toggleFavorite(id)`: the matching records have `favorite` flipped and nothing else changed. */
  function FavoriteToggled(videos: seq<Video>, id: string): (r: seq<Video>)
    ensures |r| == |videos|
    ensures forall i :: 0 <= i < |videos| ==>
      && r[i].favorite == (videos[i].favorite != (videos[i].id == id))
      && r[i].(favorite := videos[i].favorite) == videos[i]
  {
    MapWhere(videos, HasId(id), (v: Video) => v.(favorite := !v.favorite))
  }

  /** Toggling `watched` twice restores the list. */
  lemma ToggleWatchedTwice(videos: seq<Video>, id: string)
    ensures WatchedToggled(WatchedToggled(videos, id), id) == videos
  {
    var once := WatchedToggled(videos, id);
    var twice := WatchedToggled(once, id);
    forall i | 0 <= i < |videos|
      ensures twice[i] == videos[i]
    {
      assert once[i].id == videos[i].id by {
        assert once[i].(watched := videos[i].watched) == videos[i];
      }
      assert twice[i].(watched := once[i].watched) == once[i];
    }
  }

  /** Toggling `favorite` twice restores the list. */
  lemma ToggleFavoriteTwice(videos: seq<Video>, id: string)
    ensures FavoriteToggled(FavoriteToggled(videos, id), id) == videos
  {
    var once := FavoriteToggled(videos, id);
    var twice := FavoriteToggled(once, id);
    forall i | 0 <= i < |videos|
      ensures twice[i] == videos[i]
    {
      assert once[i].id == videos[i].id by {
        assert once[i].(favorite := videos[i].favorite) == videos[i];
      }
      assert twice[i].(favorite := once[i].favorite) == once[i];
    }
  }

  /** The list after `markMultipleWatched(ids, watched)`: the flag is set on the matching records, not toggled. */
  function WatchedSet(videos: seq<Video>, ids: seq<string>, watched: bool := true): (r: seq<Video>)
    ensures |r| == |videos|
    ensures forall i :: 0 <= i < |videos| ==>
      && r[i].watched == (if videos[i].id in ids then watched else videos[i].watched)
      && r[i].(watched := videos[i].watched) == videos[i]
  {
    MapWhere(videos, IdIn(ids), (v: Video) => v.(watched := watched))
  }

  /** Marking the same ids a second time changes nothing. */
  lemma MarkWatchedIdempotent(videos: seq<Video>, ids: seq<string>, watched: bool)
    ensures WatchedSet(WatchedSet(videos, ids, watched), ids, watched) == WatchedSet(videos, ids, watched)
  {
    var once := WatchedSet(videos, ids, watched);
    var twice := WatchedSet(once, ids, watched);
    forall i | 0 <= i < |videos|
      ensures twice[i] == once[i]
    {
      assert once[i].id == videos[i].id by {
        assert once[i].(watched := videos[i].watched) == videos[i];
      }
      assert twice[i].(watched := once[i].watched) == once[i];
    }
  }

  /** One video after `copyToCategory`: the category is appended unless it is there already. */
  function WithEdge(v: Video, categoryId: string): (r: Video)
    ensures categoryId in r.categories
    ensures r.(categories := v.categories) == v
    ensures categoryId in v.categories ==> r == v
    ensures forall c :: c in r.categories <==> c in v.categories || c == categoryId
  {
    if categoryId in v.categories then v else v.(categories := v.categories + [categoryId])
  }

  /** Adding an edge keeps a duplicate-free `categories` list duplicate-free. */
  lemma WithEdgeKeepsNoDup(v: Video, categoryId: string)
    requires NoDup(v.categories)
    ensures NoDup(WithEdge(v, categoryId).categories)
  {
  }

  /** The list after `copyToCategory(videoId, categoryId)`. */
  function CopiedTo(videos: seq<Video>, videoId: string, categoryId: string): (r: seq<Video>)
    ensures |r| == |videos|
    ensures forall i :: 0 <= i < |videos| ==> r[i] == if videos[i].id == videoId then WithEdge(videos[i], categoryId) else videos[i]
  {
    MapWhere(videos, HasId(videoId), (v: Video) => WithEdge(v, categoryId))
  }

  /** The list after `copyMultipleToCategory(videoIds, categoryId)`. */
  function CopiedAllTo(videos: seq<Video>, videoIds: seq<string>, categoryId: string): (r: seq<Video>)
    ensures |r| == |videos|
    ensures forall i :: 0 <= i < |videos| ==> r[i] == if videos[i].id in videoIds then WithEdge(videos[i], categoryId) else videos[i]
  {
    MapWhere(videos, IdIn(videoIds), (v: Video) => WithEdge(v, categoryId))
  }

  /** Copying is idempotent: a second copy to the same category changes nothing. */
  lemma CopyIdempotent(videos: seq<Video>, videoIds: seq<string>, categoryId: string)
    ensures CopiedAllTo(CopiedAllTo(videos, videoIds, categoryId), videoIds, categoryId) == CopiedAllTo(videos, videoIds, categoryId)
  {
    var once := CopiedAllTo(videos, videoIds, categoryId);
    forall i | 0 <= i < |videos|
      ensures once[i].id == videos[i].id
    {
      assert once[i].(categories := videos[i].categories) == videos[i];
    }
  }

  /** Copying one video is copying the one-element list of it. */
  lemma CopyOneIsCopyMany(videos: seq<Video>, videoId: string, categoryId: string)
    ensures CopiedTo(videos, videoId, categoryId) == CopiedAllTo(videos, [videoId], categoryId)
  {
  }

  /** Copying keeps every `categories` list duplicate-free. */
  lemma CopyKeepsNoDup(videos: seq<Video>, videoIds: seq<string>, categoryId: string)
    requires forall i :: 0 <= i < |videos| ==> NoDup(videos[i].categories)
    ensures var r := CopiedAllTo(videos, videoIds, categoryId);
            forall i :: 0 <= i < |r| ==> NoDup(r[i].categories)
  {
    forall i | 0 <= i < |videos| {
      WithEdgeKeepsNoDup(videos[i], categoryId);
    }
  }

  /** `(catId) => catId !== categoryId`. */
  function Other(categoryId: string): string -> bool {
    (c: string) => c != categoryId
  }

  /** The `categories` list after `moveToCategory`: the `from` edge removed, then the `to` edge appended unless present. */
  function MovedCategories(categories: seq<string>, from: string, to: string): seq<string> {
    var kept := Filter(categories, Other(from));
    if to in kept then kept else kept + [to]
  }

  /** One video after `moveToCategory`. */
  function Moved(v: Video, from: string, to: string): (r: Video)
    ensures to in r.categories
    ensures from != to ==> from !in r.categories
    ensures r.(categories := v.categories) == v
    ensures forall c :: c != from && c != to ==> (c in r.categories <==> c in v.categories)
  {
    v.(categories := MovedCategories(v.categories, from, to))
  }

  /** Moving a video a second time the same way changes nothing. */
  lemma MovedIdempotent(v: Video, from: string, to: string)
    ensures Moved(Moved(v, from, to), from, to) == Moved(v, from, to)
  {
    MovedCategoriesIdempotent(v.categories, from, to);
  }

  lemma MovedCategoriesIdempotent(categories: seq<string>, from: string, to: string)
    ensures MovedCategories(MovedCategories(categories, from, to), from, to) == MovedCategories(categories, from, to)
  {
    var kept := Filter(categories, Other(from));
    var once := MovedCategories(categories, from, to);
    FilterIdempotent(categories, Other(from));
    if from != to {
      forall i | 0 <= i < |once|
        ensures Other(from)(once[i])
      {
        assert once[i] in once;
      }
      FilterAllPass(once, Other(from));
    } else {
      FilterConcat(kept, [to], Other(from));
      assert Filter([to], Other(from)) == [];
    }
  }

  /** Moving keeps a duplicate-free `categories` list duplicate-free. */
  lemma MovedKeepsNoDup(v: Video, from: string, to: string)
    requires NoDup(v.categories)
    ensures NoDup(Moved(v, from, to).categories)
  {
    FilterNoDup(v.categories, Other(from));
  }

  /** The list after `moveToCategory(videoId, from, to)`. */
  function MovedTo(videos: seq<Video>, videoId: string, from: string, to: string): (r: seq<Video>)
    ensures |r| == |videos|
    ensures forall i :: 0 <= i < |videos| ==> r[i] == if videos[i].id == videoId then Moved(videos[i], from, to) else videos[i]
  {
    MapWhere(videos, HasId(videoId), (v: Video) => Moved(v, from, to))
  }

  /** The list after `moveMultipleToCategory(videoIds, from, to)`. */
  function MovedAllTo(videos: seq<Video>, videoIds: seq<string>, from: string, to: string): (r: seq<Video>)
    ensures |r| == |videos|
    ensures forall i :: 0 <= i < |videos| ==> r[i] == if videos[i].id in videoIds then Moved(videos[i], from, to) else videos[i]
  {
    MapWhere(videos, IdIn(videoIds), (v: Video) => Moved(v, from, to))
  }

  /** Repeating a move changes nothing. */
  lemma MoveIdempotent(videos: seq<Video>, videoIds: seq<string>, from: string, to: string)
    ensures MovedAllTo(MovedAllTo(videos, videoIds, from, to), videoIds, from, to) == MovedAllTo(videos, videoIds, from, to)
  {
    var once := MovedAllTo(videos, videoIds, from, to);
    forall i | 0 <= i < |videos|
      ensures MovedAllTo(once, videoIds, from, to)[i] == once[i]
    {
      assert once[i].id == videos[i].id by {
        assert once[i].(categories := videos[i].categories) == videos[i];
      }
      if videos[i].id in videoIds {
        MovedIdempotent(videos[i], from, to);
      }
    }
  }

  /** Moving one video is moving the one-element list of it. */
  lemma MoveOneIsMoveMany(videos: seq<Video>, videoId: string, from: string, to: string)
    ensures MovedTo(videos, videoId, from, to) == MovedAllTo(videos, [videoId], from, to)
  {
  }

  /** `getCategoryVideos(categoryId)`. */
  function CategoryVideos(videos: seq<Video>, categoryId: string): (r: seq<Video>)
    ensures forall v :: v in r <==> v in videos && categoryId in v.categories
  {
    Filter(videos, InCategory(categoryId))
  }

  /** How many times `categoryId` occurs in all the `categories` lists together. */
  function Occurrences(videos: seq<Video>, categoryId: string): nat {
    if |videos| == 0 then 0 else Count(videos[0].categories, categoryId) + Occurrences(videos[1..], categoryId)
  }

  /** One more entry of a `categories` list counted. */
  lemma CountStep(categories: seq<string>, j: nat)
    requires j < |categories|
    ensures forall d :: Count(categories[..j + 1], d) == Count(categories[..j], d) + (if d == categories[j] then 1 else 0)
  {
    assert categories[..j + 1] == categories[..j] + [categories[j]];
    forall d
      ensures Count(categories[..j + 1], d) == Count(categories[..j], d) + (if d == categories[j] then 1 else 0)
    {
      CountConcat(categories[..j], [categories[j]], d);
    }
  }

  /** One more video counted. */
  lemma OccurrencesStep(videos: seq<Video>, i: nat)
    requires i < |videos|
    ensures forall d :: Occurrences(videos[..i + 1], d) == Occurrences(videos[..i], d) + Count(videos[i].categories, d)
  {
    assert videos[..i + 1] == videos[..i] + [videos[i]];
    forall d
      ensures Occurrences(videos[..i + 1], d) == Occurrences(videos[..i], d) + Count(videos[i].categories, d)
    {
      OccurrencesSnoc(videos[..i], videos[i], d);
    }
  }

  lemma {:induction false} OccurrencesSnoc(videos: seq<Video>, v: Video, categoryId: string)
    ensures Occurrences(videos + [v], categoryId) == Occurrences(videos, categoryId) + Count(v.categories, categoryId)
  {
    if |videos| == 0 {
      assert videos + [v] == [v];
    } else {
      assert (videos + [v])[1..] == videos[1..] + [v];
      OccurrencesSnoc(videos[1..], v, categoryId);
    }
  }

  /**
   * When no video lists a category twice, the count of a category is the
   * number of videos `getCategoryVideos` returns for it.
   */
  lemma {:induction false} OccurrencesCountVideos(videos: seq<Video>, categoryId: string)
    requires forall i :: 0 <= i < |videos| ==> NoDup(videos[i].categories)
    ensures Occurrences(videos, categoryId) == |CategoryVideos(videos, categoryId)|
  {
    if |videos| > 0 {
      OccurrencesCountVideos(videos[1..], categoryId);
      CountNoDup(videos[0].categories, categoryId);
    }
  }

  /** One video after `removeCategoryFromVideos`: that edge removed and nothing else changed. */
  function Stripped(v: Video, categoryId: string): (r: Video)
    ensures categoryId !in r.categories
    ensures r.(categories := v.categories) == v
    ensures forall c :: c != categoryId ==> (c in r.categories <==> c in v.categories)
  {
    v.(categories := Filter(v.categories, Other(categoryId)))
  }

  /** The list after `removeCategoryFromVideos(categoryId)`. */
  function CategoryStripped(videos: seq<Video>, categoryId: string): (r: seq<Video>)
    ensures |r| == |videos|
    ensures forall i :: 0 <= i < |videos| ==> r[i] == Stripped(videos[i], categoryId)
  {
    seq(|videos|, i requires 0 <= i < |videos| => Stripped(videos[i], categoryId))
  }

  /** After the category is stripped no video belongs to it, and every video is still there, in order. */
  lemma {:induction false} StrippedCategoryIsGone(videos: seq<Video>, categoryId: string)
    ensures Occurrences(CategoryStripped(videos, categoryId), categoryId) == 0
    ensures CategoryVideos(CategoryStripped(videos, categoryId), categoryId) == []
    ensures forall i :: 0 <= i < |videos| ==> CategoryStripped(videos, categoryId)[i].id == videos[i].id
  {
    var r := CategoryStripped(videos, categoryId);
    if |videos| > 0 {
      assert r[1..] == CategoryStripped(videos[1..], categoryId);
      StrippedCategoryIsGone(videos[1..], categoryId);
      CountPositiveIff(r[0].categories, categoryId);
    }
    FilterNonePass(r, InCategory(categoryId));
    forall i | 0 <= i < |videos|
      ensures r[i].id == videos[i].id
    {
      assert r[i].(categories := videos[i].categories) == videos[i];
    }
  }

  /** `(video) => video.categories.length > 0`. */
  function HasCategory(): Video -> bool {
    (v: Video) => |v.categories| > 0
  }

  /** The list after `deleteOrphanVideos()`. */
  function OrphansSwept(videos: seq<Video>): (r: seq<Video>)
    ensures forall v :: v in r <==> v in videos && v.categories != []
  {
    Filter(videos, HasCategory())
  }

  /** Sweeping keeps order and a second sweep changes nothing. */
  lemma SweepKeepsOrder(videos: seq<Video>)
    ensures IsSubsequence(OrphansSwept(videos), videos)
    ensures OrphansSwept(OrphansSwept(videos)) == OrphansSwept(videos)
  {
    FilterIsSubsequence(videos, HasCategory());
    FilterIdempotent(videos, HasCategory());
  }

  /**
   * Deleting a category with its videos: after stripping the category, the
   * sweep keeps a video exactly when it belonged to some other category.
   */
  lemma StripThenSweep(videos: seq<Video>, categoryId: string, i: nat)
    requires i < |videos|
    ensures Stripped(videos[i], categoryId) in OrphansSwept(CategoryStripped(videos, categoryId))
        <==> exists c :: c in videos[i].categories && c != categoryId
  {
    var r := CategoryStripped(videos, categoryId);
    var v := Stripped(videos[i], categoryId);
    assert r[i] == v;
    if exists c :: c in videos[i].categories && c != categoryId {
      var c :| c in videos[i].categories && c != categoryId;
      assert c in v.categories;
    }
    if v.categories != [] {
      assert v.categories[0] in v.categories;
    }
  }

  /** The list after `importVideos(importedVideos, merge)`. */
  function Imported(videos: seq<Video>, importedVideos: seq<Video>, merge: bool := true): (r: seq<Video>)
    ensures !merge ==> r == importedVideos
    ensures merge ==> |videos| <= |r| && r[..|videos|] == videos
  {
    if merge then MergeById(videos, importedVideos, VideoKey) else importedVideos
  }

  /** Importing the same videos twice, in either mode, is importing them once. */
  lemma ImportIdempotent(videos: seq<Video>, importedVideos: seq<Video>, merge: bool)
    ensures Imported(Imported(videos, importedVideos, merge), importedVideos, merge) == Imported(videos, importedVideos, merge)
  {
    if merge {
      MergeIdempotent(videos, importedVideos, VideoKey);
    } else {
      MergeWithItself(importedVideos, VideoKey);
    }
  }

  /** The hook's import leaves the same videos as the import service. */
  lemma ImportAgreesWithService(videos: seq<Video>, categories: seq<Category>, snapshot: ExportImport.Snapshot, merge: bool)
    ensures Imported(videos, snapshot.videos, merge) == ExportImport.ProcessImport(snapshot, categories, videos, merge).videos
  {
  }

  /** The state of the hook: the stored list of videos. */
  class VideoStore {
    var videos: seq<Video>

    constructor ()
      ensures videos == []
    {
      videos := [];
    }

    /** `addVideo(videoData, categoryId)`, with the generated id and the current instant given. */
    method AddVideo(data: VideoData, categoryId: string, id: string, addedAt: int) returns (v: Video)
      modifies this
      ensures videos == old(videos) + [v]
      ensures v.id == id && v.addedAt == addedAt
      ensures !v.watched && !v.favorite && v.categories == [categoryId]
      ensures v.videoId == data.videoId && v.title == data.title && v.channel == data.channel
      ensures v.thumbnail == data.thumbnail && v.views == data.views && v.duration == data.duration
      ensures v.publishedAt == data.publishedAt && v.description == data.description
    {
      v := NewVideo(data, categoryId, id, addedAt);
      videos := videos + [v];
    }

    method DeleteVideo(id: string)
      modifies this
      ensures videos == WithoutId(old(videos), id)
    {
      videos := WithoutId(videos, id);
    }

    method DeleteVideos(ids: seq<string>)
      modifies this
      ensures videos == WithoutIds(old(videos), ids)
    {
      videos := WithoutIds(videos, ids);
    }

    method UpdateVideo(id: string, updates: VideoPatch)
      modifies this
      ensures videos == Updated(old(videos), id, updates)
    {
      videos := Updated(videos, id, updates);
    }

    method ToggleWatched(id: string)
      modifies this
      ensures videos == WatchedToggled(old(videos), id)
    {
      videos := WatchedToggled(videos, id);
    }

    method ToggleFavorite(id: string)
      modifies this
      ensures videos == FavoriteToggled(old(videos), id)
    {
      videos := FavoriteToggled(videos, id);
    }

    method MarkMultipleWatched(ids: seq<string>, watched: bool := true)
      modifies this
      ensures videos == WatchedSet(old(videos), ids, watched)
    {
      videos := WatchedSet(videos, ids, watched);
    }

    method CopyToCategory(videoId: string, categoryId: string)
      modifies this
      ensures videos == CopiedTo(old(videos), videoId, categoryId)
    {
      videos := CopiedTo(videos, videoId, categoryId);
    }

    method CopyMultipleToCategory(videoIds: seq<string>, categoryId: string)
      modifies this
      ensures videos == CopiedAllTo(old(videos), videoIds, categoryId)
    {
      videos := CopiedAllTo(videos, videoIds, categoryId);
    }

    method MoveToCategory(videoId: string, fromCategoryId: string, toCategoryId: string)
      modifies this
      ensures videos == MovedTo(old(videos), videoId, fromCategoryId, toCategoryId)
    {
      videos := MovedTo(videos, videoId, fromCategoryId, toCategoryId);
    }

    method MoveMultipleToCategory(videoIds: seq<string>, fromCategoryId: string, toCategoryId: string)
      modifies this
      ensures videos == MovedAllTo(old(videos), videoIds, fromCategoryId, toCategoryId)
    {
      videos := MovedAllTo(videos, videoIds, fromCategoryId, toCategoryId);
    }

    /** `getVideoById(id)`: the first video with that id, or nothing when none has it. */
    function GetVideoById(id: string): (r: Option<Video>)
      reads this
      ensures r.None? <==> forall i :: 0 <= i < |videos| ==> videos[i].id != id
      ensures r.Some? ==> exists i :: 0 <= i < |videos| && videos[i] == r.value && videos[i].id == id
                                   && forall j :: 0 <= j < i ==> videos[j].id != id
    {
      FindByIdFirst(videos, VideoKey, id);
      FindById(videos, VideoKey, id)
    }

    function GetCategoryVideos(categoryId: string): (r: seq<Video>)
      reads this
      ensures forall v :: v in r <==> v in videos && categoryId in v.categories
      ensures IsSubsequence(r, videos)
    {
      FilterIsSubsequence(videos, InCategory(categoryId));
      CategoryVideos(videos, categoryId)
    }

    /**
     * `getVideoCounts()`: a category id is a key exactly when some video
     * belongs to it, and its value is how many times it occurs.
     */
    method GetVideoCounts() returns (counts: map<string, nat>)
      ensures forall c :: c in counts <==> Occurrences(videos, c) > 0
      ensures forall c :: c in counts ==> counts[c] == Occurrences(videos, c)
    {
      counts := map[];
      var i := 0;
      while i < |videos|
        invariant 0 <= i <= |videos|
        invariant forall c :: c in counts <==> Occurrences(videos[..i], c) > 0
        invariant forall c :: c in counts ==> counts[c] == Occurrences(videos[..i], c)
      {
        var categories := videos[i].categories;
        var j := 0;
        while j < |categories|
          invariant 0 <= j <= |categories|
          invariant forall c :: c in counts <==> Occurrences(videos[..i], c) + Count(categories[..j], c) > 0
          invariant forall c :: c in counts ==> counts[c] == Occurrences(videos[..i], c) + Count(categories[..j], c)
        {
          var c := categories[j];
          counts := counts[c := if c in counts then counts[c] + 1 else 1];
          CountStep(categories, j);
          j := j + 1;
        }
        assert categories[..j] == categories;
        OccurrencesStep(videos, i);
        i := i + 1;
      }
      assert videos[..i] == videos;
    }

    method RemoveCategoryFromVideos(categoryId: string)
      modifies this
      ensures videos == CategoryStripped(old(videos), categoryId)
    {
      videos := CategoryStripped(videos, categoryId);
    }

    method DeleteOrphanVideos()
      modifies this
      ensures videos == OrphansSwept(old(videos))
    {
      videos := OrphansSwept(videos);
    }

    method ImportVideos(importedVideos: seq<Video>, merge: bool := true)
      modifies this
      ensures videos == Imported(old(videos), importedVideos, merge)
    {
      videos := Imported(videos, importedVideos, merge);
    }
  }
}

/**
 * Ordering of the video list: the comparator table and `sortVideos` of
 * `src/utils/sortFunctions.js`, and the `useSort` hook of `src/hooks/useSort.js`,
 * which repeats the table with its own duration parser.
 *
 * Timestamps are integers, so `new Date(b.addedAt) - new Date(a.addedAt)` is
 * an integer difference. `title.localeCompare(other, 'pt-BR')` is a collation
 * function passed in by the caller.
 */
module VideoSort {
  import opened Optional
  import opened Records
  import opened Text
  import opened Duration
  import opened Sorting

  /** The keys of the `sortFunctions` table (and the cases of the `useSort` switch). */
  datatype SortKey =
    | DateAddedDesc | DateAddedAsc | DatePublishedDesc | DatePublishedAsc
    | TitleAsc | TitleDesc | ViewsDesc | ViewsAsc | DurationDesc | DurationAsc

  function TokenOf(k: SortKey): string {
    match k
    case DateAddedDesc => "dateAddedDesc"
    case DateAddedAsc => "dateAddedAsc"
    case DatePublishedDesc => "datePublishedDesc"
    case DatePublishedAsc => "datePublishedAsc"
    case TitleAsc => "titleAsc"
    case TitleDesc => "titleDesc"
    case ViewsDesc => "viewsDesc"
    case ViewsAsc => "viewsAsc"
    case DurationDesc => "durationDesc"
    case DurationAsc => "durationAsc"
  }

  /** `sortFunctions[sortOption]`: the key a sort option names, if it names one. */
  function KeyOf(token: string): (r: Option<SortKey>)
    ensures r.Some? ==> TokenOf(r.value) == token
  {
    if token == "dateAddedDesc" then Some(DateAddedDesc)
    else if token == "dateAddedAsc" then Some(DateAddedAsc)
    else if token == "datePublishedDesc" then Some(DatePublishedDesc)
    else if token == "datePublishedAsc" then Some(DatePublishedAsc)
    else if token == "titleAsc" then Some(TitleAsc)
    else if token == "titleDesc" then Some(TitleDesc)
    else if token == "viewsDesc" then Some(ViewsDesc)
    else if token == "viewsAsc" then Some(ViewsAsc)
    else if token == "durationDesc" then Some(DurationDesc)
    else if token == "durationAsc" then Some(DurationAsc)
    else None
  }

  /** Every key is found under its own name. */
  lemma KeyOfTokenOf(k: SortKey)
    ensures KeyOf(TokenOf(k)) == Some(k)
  {
  }

  /** `localeCompare` with a fixed locale: negative, zero or positive. */
  type Collation = (string, string) -> int

  /** The comparator the table holds for key `k`. */
  function Compare(k: SortKey, collate: Collation, a: Video, b: Video): int {
    match k
    case DateAddedDesc => b.addedAt - a.addedAt
    case DateAddedAsc => a.addedAt - b.addedAt
    case DatePublishedDesc => b.publishedAt - a.publishedAt
    case DatePublishedAsc => a.publishedAt - b.publishedAt
    case TitleAsc => collate(a.title, b.title)
    case TitleDesc => collate(b.title, a.title)
    case ViewsDesc => b.views - a.views
    case ViewsAsc => a.views - b.views
    case DurationDesc => ParseDuration(b.duration) - ParseDuration(a.duration)
    case DurationAsc => ParseDuration(a.duration) - ParseDuration(b.duration)
  }

  function Comparator(k: SortKey, collate: Collation): (Video, Video) -> int {
    (a: Video, b: Video) => Compare(k, collate, a, b)
  }

  /** The `Asc` key paired with each `Desc` key, and the other way round. */
  function Opposite(k: SortKey): (r: SortKey)
    ensures r != k
  {
    match k
    case DateAddedDesc => DateAddedAsc
    case DateAddedAsc => DateAddedDesc
    case DatePublishedDesc => DatePublishedAsc
    case DatePublishedAsc => DatePublishedDesc
    case TitleAsc => TitleDesc
    case TitleDesc => TitleAsc
    case ViewsDesc => ViewsAsc
    case ViewsAsc => ViewsDesc
    case DurationDesc => DurationAsc
    case DurationAsc => DurationDesc
  }

  /** Each comparator is its opposite with the arguments swapped. */
  lemma OppositeSwapsArguments(k: SortKey, collate: Collation, a: Video, b: Video)
    ensures Compare(Opposite(k), collate, a, b) == Compare(k, collate, b, a)
    ensures Opposite(Opposite(k)) == k
  {
  }

  /** The numeric key a comparator subtracts, for the keys that are not titles. */
  function NumericKey(k: SortKey, v: Video): int
    requires k != TitleAsc && k != TitleDesc
  {
    match k
    case DateAddedDesc | DateAddedAsc => v.addedAt
    case DatePublishedDesc | DatePublishedAsc => v.publishedAt
    case ViewsDesc | ViewsAsc => v.views
    case DurationDesc | DurationAsc => ParseDuration(v.duration)
  }

  predicate IsAscending(k: SortKey) {
    k in {DateAddedAsc, DatePublishedAsc, TitleAsc, ViewsAsc, DurationAsc}
  }

  /** Every non-title comparator is a difference of numeric keys, in the order its name says. */
  lemma CompareIsKeyDifference(k: SortKey, collate: Collation, a: Video, b: Video)
    requires k != TitleAsc && k != TitleDesc
    ensures Compare(k, collate, a, b)
         == if IsAscending(k) then NumericKey(k, a) - NumericKey(k, b) else NumericKey(k, b) - NumericKey(k, a)
  {
  }

  /** Every comparator of the table is consistent, provided the collation is. */
  lemma ComparatorConsistent(k: SortKey, collate: Collation)
    requires Consistent(collate)
    ensures Consistent(Comparator(k, collate))
  {
    var cmp := Comparator(k, collate);
    forall a, b
      ensures cmp(a, b) > 0 <==> cmp(b, a) < 0
    {
      if k == TitleAsc || k == TitleDesc {
        assert collate(a.title, b.title) > 0 <==> collate(b.title, a.title) < 0;
      }
    }
    forall a, b, c | cmp(a, b) <= 0 && cmp(b, c) <= 0
      ensures cmp(a, c) <= 0
    {
      if k == TitleAsc {
        assert collate(a.title, b.title) <= 0 && collate(b.title, c.title) <= 0;
      } else if k == TitleDesc {
        assert collate(c.title, b.title) <= 0 && collate(b.title, a.title) <= 0;
      }
    }
  }

  /** `[...videos].sort(fn)` for a key, on the contents of the list. */
  function SortedBy(s: seq<Video>, k: SortKey, collate: Collation): (r: seq<Video>)
    ensures |r| == |s|
  {
    Sort(s, Comparator(k, collate))
  }

  /**
   * The result of sorting by a key is a permutation of the input, in the order
   * the comparator asks for, and videos the comparator ranks equal keep their
   * input order.
   */
  lemma SortedByMeaning(s: seq<Video>, k: SortKey, collate: Collation)
    requires Consistent(collate)
    ensures multiset(SortedBy(s, k, collate)) == multiset(s)
    ensures forall i, j :: 0 <= i < j < |s| ==> Compare(k, collate, SortedBy(s, k, collate)[i], SortedBy(s, k, collate)[j]) <= 0
    ensures forall x :: Equivalents(SortedBy(s, k, collate), x, Comparator(k, collate)) == Equivalents(s, x, Comparator(k, collate))
  {
    var cmp := Comparator(k, collate);
    SortPermutation(s, cmp);
    ComparatorConsistent(k, collate);
    SortSorted(s, cmp);
    forall x
      ensures Equivalents(Sort(s, cmp), x, cmp) == Equivalents(s, x, cmp)
    {
      SortStable(s, x, cmp);
    }
  }

  /**
   * Sorting by the opposite key gives the reverse list when no two videos are
   * ranked equal (with ties, both orders keep tied videos in input order).
   */
  lemma OppositeReverses(s: seq<Video>, k: SortKey, collate: Collation)
    requires Consistent(collate) && NoTies(s, Comparator(k, collate))
    ensures SortedBy(s, Opposite(k), collate) == Reverse(SortedBy(s, k, collate))
  {
    ComparatorConsistent(k, collate);
    forall a, b
      ensures Comparator(Opposite(k), collate)(a, b) == Comparator(k, collate)(b, a)
    {
      OppositeSwapsArguments(k, collate, a, b);
    }
    SwappedSortReverses(s, Comparator(k, collate), Comparator(Opposite(k), collate));
  }

  /** Under `viewsDesc` the views never increase along the result. */
  lemma ViewsDescNonIncreasing(s: seq<Video>, collate: Collation)
    ensures forall i, j :: 0 <= i < j < |s| ==> SortedBy(s, ViewsDesc, collate)[i].views >= SortedBy(s, ViewsDesc, collate)[j].views
  {
    var cmp := Comparator(ViewsDesc, collate);
    assert Consistent(cmp);
    SortSorted(s, cmp);
  }

  /** Under `durationAsc` the parsed seconds never decrease along the result; a missing or malformed duration counts as 0. */
  lemma DurationAscNonDecreasing(s: seq<Video>, collate: Collation)
    ensures forall i, j :: 0 <= i < j < |s| ==>
      ParseDuration(SortedBy(s, DurationAsc, collate)[i].duration) <= ParseDuration(SortedBy(s, DurationAsc, collate)[j].duration)
  {
    var cmp := Comparator(DurationAsc, collate);
    assert Consistent(cmp);
    SortSorted(s, cmp);
  }

  /** Three videos whose durations strictly decrease come out reversed under `durationAsc`. */
  lemma DurationAscReverses(a: Video, b: Video, c: Video, collate: Collation)
    requires ParseDuration(a.duration) > ParseDuration(b.duration) > ParseDuration(c.duration)
    ensures SortedBy([a, b, c], DurationAsc, collate) == [c, b, a]
  {
    DurationAscSubtracts(a, b, collate);
    DurationAscSubtracts(a, c, collate);
    DurationAscSubtracts(b, c, collate);
    SortThreeReversed(a, b, c, Comparator(DurationAsc, collate));
  }

  lemma DurationAscSubtracts(x: Video, y: Video, collate: Collation)
    ensures Comparator(DurationAsc, collate)(x, y) == ParseDuration(x.duration) - ParseDuration(y.duration)
  {
  }

  /** `durationAsc` puts "PT1M30S" (90 s) before "PT2M" (120 s), and a missing duration (0 s) before both. */
  lemma DurationAscExample(a: Video, b: Video, c: Video, collate: Collation)
    requires a.duration == Some("PT2M") && b.duration == Some("PT1M30S") && c.duration == None
    ensures SortedBy([a, b, c], DurationAsc, collate) == [c, b, a]
  {
    ExampleTwoMinutes();
    ExampleMinuteAndAHalf();
    DurationAscReverses(a, b, c, collate);
  }

  /**
   * `sortVideos(videos, sortOption)`: for an unknown option the very same array
   * comes back; otherwise a new array holding the sorted copy. The input array is
   * never written.
   */
  method SortVideos(videos: array<Video>, sortOption: string, collate: Collation) returns (r: array<Video>)
    ensures KeyOf(sortOption).None? ==> r == videos
    ensures KeyOf(sortOption).Some? ==> fresh(r) && r[..] == SortedBy(videos[..], KeyOf(sortOption).value, collate)
  {
    var key := KeyOf(sortOption);
    if key.None? {
      return videos;
    }
    r := Copy(videos);
    SortInPlace(r, Comparator(key.value, collate));
  }

  /**
   * The duration parser `useSort` declares inline: the same pattern as
   * `parseDuration`, but applied to the text directly, with no guard for a
   * missing value.
   */
  function InlineParseDuration(iso: string): (r: nat)
    ensures !Contains(iso, "PT") ==> r == 0
  {
    match MatchDuration(iso)
    case None => 0
    case Some(c) => TotalSeconds(c)
  }

  /** On a present duration the inline parser agrees with `parseDuration`, the empty text included. */
  lemma InlineParseAgrees(iso: string)
    ensures InlineParseDuration(iso) == ParseDuration(Some(iso))
  {
    if iso == "" {
      assert FindPT(iso, 0) == None;
    }
  }

  /**
   * `useSort` evaluates `isoDuration.match(..)` on every video it compares; a
   * missing duration there is a TypeError. A list of two or more videos has
   * each video compared at least once, so the sort throws exactly when a
   * duration key is selected, there are at least two videos and one of them
   * has no duration.
   */
  predicate ThrowsOnMissingDuration(k: SortKey, s: seq<Video>) {
    (k == DurationAsc || k == DurationDesc) && |s| >= 2 && exists i :: 0 <= i < |s| && s[i].duration.None?
  }

  /** The seconds `useSort` reads for a video; only ever asked of videos that have a duration. */
  function InlineSeconds(v: Video): nat {
    match v.duration
    case Some(iso) => InlineParseDuration(iso)
    case None => 0
  }

  /** The comparator `useSort` builds for each case of its switch. */
  function HookCompare(k: SortKey, collate: Collation, a: Video, b: Video): int {
    match k
    case DurationDesc => InlineSeconds(b) - InlineSeconds(a)
    case DurationAsc => InlineSeconds(a) - InlineSeconds(b)
    case _ => Compare(k, collate, a, b)
  }

  /** When `useSort` does not throw, it orders exactly as `sortVideos` does. */
  lemma HookAgreesWithTable(s: seq<Video>, k: SortKey, collate: Collation)
    ensures Sort(s, (a: Video, b: Video) => HookCompare(k, collate, a, b)) == SortedBy(s, k, collate)
  {
    forall v: Video
      ensures InlineSeconds(v) == ParseDuration(v.duration)
    {
      if v.duration.Some? {
        InlineParseAgrees(v.duration.value);
      }
    }
    SortAgree(s, (a: Video, b: Video) => HookCompare(k, collate, a, b), Comparator(k, collate));
  }

  /** The `useSort` hook: the selected sort option and the sorted copy it derives. */
  class SortHook {
    var sortOption: string

    /** `useState(initialSort)`, with `'dateAddedDesc'` as the default. */
    constructor (initialSort: string := "dateAddedDesc")
      ensures sortOption == initialSort
    {
      sortOption := initialSort;
    }

    method SetSortOption(option: string)
      modifies this
      ensures sortOption == option
    {
      sortOption := option;
    }

    /**
     * `sortedVideos`: a fresh copy of the list, sorted by the selected key; an
     * unknown option leaves the copy in input order. `typeError` reports the
     * TypeError the inline duration parser raises on a missing duration.
     */
    method SortedVideos(videos: array<Video>, collate: Collation) returns (r: array<Video>, typeError: bool)
      ensures fresh(r)
      ensures typeError <==> KeyOf(sortOption).Some? && ThrowsOnMissingDuration(KeyOf(sortOption).value, videos[..])
      ensures !typeError && KeyOf(sortOption).None? ==> r[..] == videos[..]
      ensures !typeError && KeyOf(sortOption).Some? ==> r[..] == SortedBy(videos[..], KeyOf(sortOption).value, collate)
    {
      r := Copy(videos);
      var key := KeyOf(sortOption);
      if key.None? {
        return r, false;
      }
      var k := key.value;
      if ThrowsOnMissingDuration(k, videos[..]) {
        return r, true;
      }
      typeError := false;
      ghost var before := r[..];
      SortInPlace(r, (a: Video, b: Video) => HookCompare(k, collate, a, b));
      HookAgreesWithTable(before, k, collate);
    }
  }
}

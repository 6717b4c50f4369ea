/**
 * `src/hooks/useSearch.js`: the search term and the list of videos it keeps.
 */
module Search {
  import opened Text
  import opened Records
  import opened Seqs

  /** The lowered title or the lowered channel contains `term`. */
  predicate Matches(v: Video, term: string) {
    Contains(ToLower(v.title), term) || Contains(ToLower(v.channel), term)
  }

  /** `(video) => titleMatch || channelMatch` for the lowered, trimmed term. */
  function MatchesTerm(searchTerm: string): Video -> bool {
    (v: Video) => Matches(v, Trim(ToLower(searchTerm)))
  }

  /** `filteredVideos`: a blank term keeps the whole list, otherwise the matching videos. */
  function FilterVideos(videos: seq<Video>, searchTerm: string): (r: seq<Video>)
    ensures Trim(searchTerm) == "" ==> r == videos
    ensures Trim(searchTerm) != "" ==>
              forall v :: v in r <==> v in videos && Matches(v, Trim(ToLower(searchTerm)))
  {
    if Trim(searchTerm) == "" then videos else Filter(videos, MatchesTerm(searchTerm))
  }

  /** The result keeps the videos in their order. */
  lemma FilterKeepsOrder(videos: seq<Video>, searchTerm: string)
    ensures IsSubsequence(FilterVideos(videos, searchTerm), videos)
  {
    if Trim(searchTerm) == "" {
      SubsequenceOfItself(videos);
    } else {
      FilterIsSubsequence(videos, MatchesTerm(searchTerm));
    }
  }

  /** The search ignores the case of the term. */
  lemma SearchIgnoresCase(videos: seq<Video>, searchTerm: string)
    ensures FilterVideos(videos, ToLower(searchTerm)) == FilterVideos(videos, searchTerm)
  {
    ToLowerKeepsBlank(searchTerm);
    ToLowerIdempotent(searchTerm);
    FilterExtensional(videos, MatchesTerm(ToLower(searchTerm)), MatchesTerm(searchTerm));
  }

  /** Searching for a video's own title, in any case, keeps that video. */
  lemma OwnTitleFindsVideo(videos: seq<Video>, v: Video)
    requires v in videos && v.title != "" && Trim(v.title) == v.title
    ensures v in FilterVideos(videos, v.title)
  {
    var lowered := ToLower(v.title);
    LowerCharKeepsSpace(v.title[0]);
    LowerCharKeepsSpace(v.title[|v.title| - 1]);
    TrimUnchanged(lowered);
    assert OccursAt(lowered, lowered, 0);
  }

  /** The state of the hook: the search term. */
  class SearchState {
    var searchTerm: string

    constructor ()
      ensures searchTerm == ""
    {
      searchTerm := "";
    }

    method SetSearchTerm(term: string)
      modifies this
      ensures searchTerm == term
    {
      searchTerm := term;
    }

    method ClearSearch()
      modifies this
      ensures searchTerm == ""
    {
      searchTerm := "";
    }

    function FilteredVideos(videos: seq<Video>): (r: seq<Video>)
      reads this
      ensures IsSubsequence(r, videos)
      ensures !HasSearchTerm() ==> r == videos
    {
      FilterKeepsOrder(videos, searchTerm);
      FilterVideos(videos, searchTerm)
    }

    /** `hasSearchTerm`: the term has a character other than white space. */
    function HasSearchTerm(): (r: bool)
      reads this
      ensures r <==> exists i :: 0 <= i < |searchTerm| && !IsSpace(searchTerm[i])
    {
      TrimEmptyIff(searchTerm);
      Trim(searchTerm) != ""
    }
  }
}

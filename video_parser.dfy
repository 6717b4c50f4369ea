/**
 * `src/utils/videoParser.js`: getting the video id out of a pasted YouTube
 * link, building the watch link back from an id, and the thumbnail address.
 */
module VideoParser {
  import opened Optional
  import opened Text
  import opened UrlPatterns

  const WatchMarker: string := "youtube.com/watch?v="
  const ShortMarker: string := "youtu.be/"
  const EmbedMarker: string := "youtube.com/embed/"
  const MobileMarker: string := "m.youtube.com/watch?v="
  const OldEmbedMarker: string := "youtube.com/v/"

  /** The patterns of `extractVideoId`, in the order they are tried. */
  const Patterns: seq<Pattern> := [
    Markers([WatchMarker]),
    Markers([ShortMarker]),
    Markers([EmbedMarker]),
    Markers([MobileMarker]),
    Markers([OldEmbedMarker]),
    BareId
  ]

  /** `extractVideoId(url)`: `null` for a missing or empty argument, otherwise the first pattern's group on the trimmed text. */
  function ExtractVideoId(url: Option<string>): (r: Option<string>)
    ensures url.None? || url == Some("") ==> r.None?
    ensures r.Some? ==> IsIdText(r.value)
  {
    if url.None? || url.value == "" then None
    else FirstMatch(Trim(url.value), Patterns)
  }

  /** `isValidYouTubeUrl(url)`. */
  predicate IsValidYouTubeUrl(url: Option<string>) {
    ExtractVideoId(url) != None
  }

  const WatchPrefix: string := "https://www.youtube.com/watch?v="

  /** `generateYouTubeUrl(videoId)`. */
  function GenerateYouTubeUrl(videoId: string): string {
    WatchPrefix + videoId
  }

  /** Surrounding white space does not change the id a link yields. */
  lemma ExtractIgnoresSurroundingSpace(url: string)
    requires Trim(url) != ""
    ensures ExtractVideoId(Some(url)) == ExtractVideoId(Some(Trim(url)))
  {
    TrimIdempotent(url);
  }

  /** The first pattern finds the id right after the watch prefix. */
  lemma WatchPatternOnGenerated(id: string)
    requires IsIdText(id)
    ensures MatchPattern(WatchPrefix + id, Patterns[0]) == Some(id)
  {
    WatchPrefixShape();
    var markers := [WatchMarker];
    assert markers[0] == WatchMarker;
    ReadAfterLead(WatchPrefix, 12, 'y', markers, 0, id);
  }

  /** The watch link is twelve characters of scheme and host, none of them a 'y', and then the watch marker. */
  lemma WatchPrefixShape()
    ensures |WatchPrefix| == 32 && |WatchMarker| == 20 && WatchMarker[0] == 'y'
    ensures WatchPrefix[12..] == WatchMarker && !IsSpace(WatchPrefix[0])
    ensures forall x :: 0 <= x < 12 ==> WatchPrefix[x] != 'y'
  {
  }

  /**
   * Round trip: the id is read back from the link built for it, for any
   * non-empty id made of id characters that does not end in white space.
   */
  lemma ExtractGenerated(id: string)
    requires IsIdText(id) && !IsSpace(id[|id| - 1])
    ensures ExtractVideoId(Some(GenerateYouTubeUrl(id))) == Some(id)
  {
    var s := GenerateYouTubeUrl(id);
    WatchPrefixShape();
    assert s[0] == WatchPrefix[0] && s[|s| - 1] == id[|id| - 1];
    TrimUnchanged(s);
    WatchPatternOnGenerated(id);
  }

  /** A link built for such an id is a valid YouTube link. */
  lemma GeneratedIsValid(id: string)
    requires IsIdText(id) && !IsSpace(id[|id| - 1])
    ensures IsValidYouTubeUrl(Some(GenerateYouTubeUrl(id)))
  {
    ExtractGenerated(id);
  }

  /** No link pattern matches a bare id, since every alternative contains a '.' and an id has none. */
  lemma MarkersMissBareId(s: string, patterns: seq<Pattern>)
    requires IsBareId(s)
    requires forall i :: 0 <= i < |patterns| ==> patterns[i].Markers? && Dotted(patterns[i].alternatives)
    ensures FirstMatch(s, patterns).None?
  {
    forall i | 0 <= i < |patterns|
      ensures MatchPattern(s, patterns[i]).None?
    {
      NoMarkerInDotless(s, patterns[i].alternatives);
    }
    FirstMatchWins(s, patterns);
  }

  /** The five link patterns come first, and each of their alternatives has a '.'. */
  lemma LinkPatternsDotted()
    ensures Patterns == Patterns[..5] + [BareId]
    ensures forall i :: 0 <= i < 5 ==> Patterns[i].Markers? && Dotted(Patterns[i].alternatives)
  {
    DottedSingle(WatchMarker, 7);
    DottedSingle(ShortMarker, 5);
    DottedSingle(EmbedMarker, 7);
    DottedSingle(MobileMarker, 1);
    DottedSingle(OldEmbedMarker, 7);
  }

  /** The first match among patterns none of which matches before a last one is that last one's. */
  lemma FirstMatchAfterMisses(s: string, misses: seq<Pattern>, last: Pattern)
    requires FirstMatch(s, misses).None?
    ensures FirstMatch(s, misses + [last]) == MatchPattern(s, last)
    decreases |misses|
  {
    if |misses| > 0 {
      assert (misses + [last])[1..] == misses[1..] + [last];
      FirstMatchAfterMisses(s, misses[1..], last);
    } else {
      assert misses + [last] == [last];
    }
  }

  /** An 11-character `[A-Za-z0-9_-]` string is returned as it is. */
  lemma BareIdExtractsItself(s: string)
    requires IsBareId(s)
    ensures ExtractVideoId(Some(s)) == Some(s)
  {
    TrimUnchanged(s);
    LinkPatternsDotted();
    var links := Patterns[..5];
    MarkersMissBareId(s, links);
    FirstMatchAfterMisses(s, links, BareId);
  }

  /**
   * The mobile pattern never decides the result: wherever "m.youtube.com/watch?v="
   * occurs with an id after it, the first pattern, tried earlier, matches too.
   */
  lemma MobilePatternIsShadowed(s: string)
    requires MatchPattern(s, Patterns[3]).Some?
    ensures MatchPattern(s, Patterns[0]).Some?
  {
    MobileShape();
    var x := SearchFoundAt(s, 0, [MobileMarker]);
    SingleGroup(s, x, MobileMarker);
    OccursInside(s, MobileMarker, x, 2);
    SingleGroup(s, x + 2, WatchMarker);
    SearchFindsAt(s, 0, [WatchMarker], x + 2);
  }

  /** The mobile marker is "m." followed by the watch marker. */
  lemma MobileShape()
    ensures Patterns[0] == Markers([WatchMarker]) && Patterns[3] == Markers([MobileMarker])
    ensures |MobileMarker| == 22 && MobileMarker[2..] == WatchMarker
  {
  }

  /** `qualityMap[quality] || qualityMap.medium`. */
  function QualityKey(quality: string): (r: string)
    ensures quality !in {"default", "medium", "high", "maxres"} ==> r == "mqdefault"
    ensures r in {"default", "mqdefault", "hqdefault", "maxresdefault"}
  {
    if quality == "default" then "default"
    else if quality == "high" then "hqdefault"
    else if quality == "maxres" then "maxresdefault"
    else "mqdefault"
  }

  const ThumbnailPrefix: string := "https://i.ytimg.com/vi/"

  /** `getThumbnailUrl(videoId, quality = 'medium')`. */
  function ThumbnailUrl(videoId: string, quality: string := "medium"): string {
    ThumbnailPrefix + videoId + "/" + QualityKey(quality) + ".jpg"
  }

  /** The thumbnail address holds the id right after the fixed prefix, and the default quality is the medium image. */
  lemma ThumbnailUrlParts(videoId: string, quality: string)
    ensures var u := ThumbnailUrl(videoId, quality);
      && StartsWith(u, ThumbnailPrefix)
      && u[|ThumbnailPrefix|..|ThumbnailPrefix| + |videoId|] == videoId
      && u[|ThumbnailPrefix| + |videoId|..] == "/" + QualityKey(quality) + ".jpg"
    ensures ThumbnailUrl(videoId) == ThumbnailPrefix + videoId + "/mqdefault.jpg"
  {
    ThreeParts(ThumbnailPrefix, videoId, "/" + QualityKey(quality) + ".jpg");
    DefaultThumbnail(ThumbnailPrefix + videoId);
  }

  /** The parts of `a + b + c` are found at their offsets. */
  lemma ThreeParts(a: string, b: string, c: string)
    ensures var u := a + b + c;
      u[..|a|] == a && u[|a|..|a| + |b|] == b && u[|a| + |b|..] == c
  {
  }

  /** The default quality is the medium image. */
  lemma DefaultThumbnail(head: string)
    ensures head + "/" + QualityKey("medium") + ".jpg" == head + "/mqdefault.jpg"
  {
    assert "/" + "mqdefault" + ".jpg" == "/mqdefault.jpg";
  }
}

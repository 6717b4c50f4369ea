/**
 * The pure helpers of `src/services/youtubeAPI.js`: the API key shape and a
 * second link parser, which folds the three link forms into one alternation.
 */
module YoutubeApi {
  import opened Optional
  import opened Text
  import opened Json
  import opened UrlPatterns
  import VideoParser

  /** Length of the run of `[A-Za-z0-9_-]` characters starting at `i`. */
  function KeyRun(s: string, i: nat): (k: nat)
    requires i <= |s|
    ensures i + k <= |s|
    ensures forall j :: i <= j < i + k ==> BareChar(s[j])
    ensures i + k == |s| || !BareChar(s[i + k])
    decreases |s| - i
  {
    if i < |s| && BareChar(s[i]) then 1 + KeyRun(s, i + 1) else 0
  }

  /** `/^AIza[A-Za-z0-9_-]{35}$/.test(s)`. */
  function MatchesKeyPattern(s: string): (r: bool)
    ensures r <==> |s| == 39 && StartsWith(s, "AIza") && forall i :: 4 <= i < 39 ==> BareChar(s[i])
  {
    if |s| == 39 && s[..4] == "AIza" then
      assert KeyRun(s, 4) == 35 <==> forall i :: 4 <= i < 39 ==> BareChar(s[i]);
      KeyRun(s, 4) == 35
    else false
  }

  /**
   * `validateApiKeyFormat(apiKey)`: false for a falsy or non-string value,
   * otherwise the pattern test.
   */
  function ValidateApiKeyFormat(apiKey: Json): (r: bool)
    ensures !apiKey.JString? || apiKey.s == "" ==> !r
    ensures r <==> apiKey.JString? && |apiKey.s| == 39 && StartsWith(apiKey.s, "AIza")
                   && forall i :: 4 <= i < 39 ==> BareChar(apiKey.s[i])
  {
    if !Truthy(Some(apiKey)) || !apiKey.JString? then false
    else MatchesKeyPattern(apiKey.s)
  }

  /**
   * The alternatives of the first pattern, tried in this order at each
   * position; they are the texts of the first three patterns of `videoParser.js`.
   */
  const LinkMarkers: seq<string> := [VideoParser.WatchMarker, VideoParser.ShortMarker, VideoParser.EmbedMarker]

  const Patterns: seq<Pattern> := [Markers(LinkMarkers), BareId]

  /** `extractVideoId(url)` of this module. */
  function ExtractVideoId(url: Option<string>): (r: Option<string>)
    ensures url.None? || url == Some("") ==> r.None?
    ensures r.Some? ==> IsIdText(r.value)
  {
    if url.None? || url.value == "" then None
    else FirstMatch(Trim(url.value), Patterns)
  }

  predicate IsValidYouTubeUrl(url: Option<string>) {
    ExtractVideoId(url) != None
  }

  /** Reading `prefix + id` where no character of the prefix starts an alternative, and the alternative at the end of the prefix is the `k`-th. */
  lemma ReadsAfterPrefix(prefix: string, lead: nat, k: nat, id: string)
    requires IsIdText(id) && !IsSpace(id[|id| - 1])
    requires |prefix| > 0 && !IsSpace(prefix[0])
    requires k < |LinkMarkers| && lead + |LinkMarkers[k]| == |prefix|
    requires prefix[lead..] == LinkMarkers[k]
    requires forall x :: 0 <= x < lead ==> prefix[x] != 'y'
    requires forall j :: 0 <= j < k ==> !OccursAt(prefix + id, LinkMarkers[j], lead)
    ensures ExtractVideoId(Some(prefix + id)) == Some(id)
  {
    var s := prefix + id;
    assert s[0] == prefix[0] && s[|s| - 1] == id[|id| - 1];
    TrimUnchanged(s);
    LinkMarkersLead();
    ReadAfterLead(prefix, lead, 'y', LinkMarkers, k, id);
  }

  /** Every alternative starts with 'y'. */
  lemma LinkMarkersLead()
    ensures forall i :: 0 <= i < |LinkMarkers| ==> |LinkMarkers[i]| > 0 && LinkMarkers[i][0] == 'y'
  {
  }

  /** A watch link yields its id. */
  lemma ExtractWatchLink(id: string)
    requires IsIdText(id) && !IsSpace(id[|id| - 1])
    ensures ExtractVideoId(Some(VideoParser.WatchPrefix + id)) == Some(id)
  {
    VideoParser.WatchPrefixShape();
    ReadsAfterPrefix(VideoParser.WatchPrefix, 12, 0, id);
  }

  /** A short link yields its id. */
  lemma ExtractShortLink(id: string)
    requires IsIdText(id) && !IsSpace(id[|id| - 1])
    ensures ExtractVideoId(Some("https://youtu.be/" + id)) == Some(id)
  {
    var prefix := "https://youtu.be/";
    ShortLinkShape(prefix);
    MismatchAt(prefix + id, LinkMarkers[0], 8, 5);
    ReadsAfterPrefix(prefix, 8, 1, id);
  }

  lemma ShortLinkShape(prefix: string)
    requires prefix == "https://youtu.be/"
    ensures |prefix| == 17 && prefix[8..] == LinkMarkers[1] && !IsSpace(prefix[0])
    ensures forall x :: 0 <= x < 8 ==> prefix[x] != 'y'
    ensures prefix[13] != LinkMarkers[0][5]
  {
  }

  /** An embed link yields its id. */
  lemma ExtractEmbedLink(id: string)
    requires IsIdText(id) && !IsSpace(id[|id| - 1])
    ensures ExtractVideoId(Some("https://www.youtube.com/embed/" + id)) == Some(id)
  {
    var prefix := "https://www.youtube.com/embed/";
    EmbedLinkShape(prefix);
    MismatchAt(prefix + id, LinkMarkers[0], 12, 12);
    MismatchAt(prefix + id, LinkMarkers[1], 12, 5);
    ReadsAfterPrefix(prefix, 12, 2, id);
  }

  lemma EmbedLinkShape(prefix: string)
    requires prefix == "https://www.youtube.com/embed/"
    ensures |prefix| == 30 && prefix[12..] == LinkMarkers[2] && !IsSpace(prefix[0])
    ensures forall x :: 0 <= x < 12 ==> prefix[x] != 'y'
    ensures prefix[24] != LinkMarkers[0][12] && prefix[17] != LinkMarkers[1][5]
  {
  }

  /** The two patterns tried in order: the link alternation, then the bare id. */
  lemma ExtractSteps(url: string)
    requires url != ""
    ensures ExtractVideoId(Some(url))
         == if SearchFrom(Trim(url), 0, LinkMarkers).Some? then SearchFrom(Trim(url), 0, LinkMarkers)
            else if IsBareId(Trim(url)) then Some(Trim(url)) else None
  {
    var t := Trim(url);
    assert Patterns[0] == Markers(LinkMarkers);
    assert Patterns[1..] == [BareId] && Patterns[1..][1..] == [];
    assert FirstMatch(t, Patterns[1..]) == MatchPattern(t, BareId);
  }

  /** Without a link form, only a bare id of exactly 11 characters is accepted, and it is returned as it is. */
  lemma BareIdOnlyIfEleven(url: string)
    requires url != "" && SearchFrom(Trim(url), 0, LinkMarkers).None?
    ensures ExtractVideoId(Some(url)).Some? ==> |Trim(url)| == 11 && ExtractVideoId(Some(url)) == Some(Trim(url))
  {
    ExtractSteps(url);
  }

  /** An 11-character `[A-Za-z0-9_-]` string is returned as it is. */
  lemma BareIdExtractsItself(s: string)
    requires IsBareId(s)
    ensures ExtractVideoId(Some(s)) == Some(s)
  {
    TrimUnchanged(s);
    LinkMarkersDotted();
    NoMarkerInDotless(s, LinkMarkers);
    ExtractSteps(s);
  }

  /** Each alternative has a '.'. */
  lemma LinkMarkersDotted()
    ensures Dotted(LinkMarkers)
  {
    DotIn(LinkMarkers[0], 7);
    DotIn(LinkMarkers[1], 5);
    DotIn(LinkMarkers[2], 7);
  }

  /** Whatever this parser accepts, the parser of `videoParser.js` accepts too. */
  lemma ValidHereValidInVideoParser(url: Option<string>)
    requires IsValidYouTubeUrl(url)
    ensures VideoParser.IsValidYouTubeUrl(url)
  {
    var s := Trim(url.value);
    ExtractSteps(url.value);
    FirstMatchWins(s, VideoParser.Patterns);
    if SearchFrom(s, 0, LinkMarkers).Some? {
      SearchSomeAlternative(s, LinkMarkers);
      var k :| 0 <= k < |LinkMarkers| && SearchFrom(s, 0, [LinkMarkers[k]]).Some?;
      var i := if k == 0 then 0 else if k == 1 then 1 else 2;
      assert MatchPattern(s, VideoParser.Patterns[i]).Some?;
    } else {
      assert MatchPattern(s, VideoParser.Patterns[5]).Some?;
    }
  }

  /** The converse fails: the `youtube.com/v/` form is known only to `videoParser.js`. */
  lemma OldEmbedFormOnlyInVideoParser()
    ensures VideoParser.IsValidYouTubeUrl(Some("youtube.com/v/x"))
    ensures !IsValidYouTubeUrl(Some("youtube.com/v/x"))
  {
    OldEmbedFormInVideoParser("youtube.com/v/x");
    OldEmbedFormNotHere("youtube.com/v/x");
  }

  lemma OldEmbedFormInVideoParser(s: string)
    requires s == "youtube.com/v/x"
    ensures VideoParser.IsValidYouTubeUrl(Some(s))
  {
    OldEmbedFormShape(s);
    OldEmbedMarkerLeads(s);
    SingleGroup(s, 0, VideoParser.OldEmbedMarker);
    SearchFindsAt(s, 0, [VideoParser.OldEmbedMarker], 0);
    assert VideoParser.Patterns[4] == Markers([VideoParser.OldEmbedMarker]);
    assert MatchPattern(s, VideoParser.Patterns[4]).Some?;
    FirstMatchWins(s, VideoParser.Patterns);
  }

  lemma OldEmbedFormNotHere(s: string)
    requires s == "youtube.com/v/x"
    ensures !IsValidYouTubeUrl(Some(s))
  {
    NoLinkFormIn(s);
    OldEmbedFormShape(s);
    RejectedWithoutAnyForm(s);
  }

  lemma OldEmbedFormShape(s: string)
    requires s == "youtube.com/v/x"
    ensures Trim(s) == s && !IsBareId(s) && s != ""
  {
    TrimUnchanged(s);
  }

  lemma OldEmbedMarkerLeads(s: string)
    requires s == "youtube.com/v/x"
    ensures OccursAt(s, VideoParser.OldEmbedMarker, 0) && IdChar(s[14]) && |s| == 15
  {
    var m := VideoParser.OldEmbedMarker;
    forall i | 0 <= i < 14
      ensures s[i] == m[i]
    {
    }
    assert s[..14] == m;
  }

  lemma RejectedWithoutAnyForm(s: string)
    requires Trim(s) == s && !IsBareId(s) && s != "" && SearchFrom(s, 0, LinkMarkers).None?
    ensures !IsValidYouTubeUrl(Some(s))
  {
    ExtractSteps(s);
  }

  lemma NoLinkFormIn(s: string)
    requires s == "youtube.com/v/x"
    ensures SearchFrom(s, 0, LinkMarkers).None?
  {
    forall x | 0 <= x < |s|
      ensures GroupAt(s, x, LinkMarkers).None?
    {
      if x > 0 {
        NoGroupInside(s, x);
      } else {
        NoGroupAtStart(s);
      }
    }
    SearchSkips(s, 0, |s|, LinkMarkers);
    NoGroupAtEnd(s, LinkMarkers);
  }

  lemma NoGroupInside(s: string, x: nat)
    requires s == "youtube.com/v/x" && 0 < x < |s|
    ensures GroupAt(s, x, LinkMarkers).None?
  {
    assert s[x] != 'y';
    assert LinkMarkers[0][0] == LinkMarkers[1][0] == LinkMarkers[2][0] == 'y';
    NoGroupAt(s, x, LinkMarkers);
  }

  lemma NoGroupAtStart(s: string)
    requires s == "youtube.com/v/x"
    ensures GroupAt(s, 0, LinkMarkers).None?
  {
    assert s[0..|LinkMarkers[1]|][5] == 'b' != LinkMarkers[1][5];
    GroupSkipsAbsent(s, 0, LinkMarkers);
    GroupSkipsAbsent(s, 0, LinkMarkers[1..]);
    GroupSkipsAbsent(s, 0, LinkMarkers[2..]);
    assert LinkMarkers[1..][1..] == LinkMarkers[2..] && LinkMarkers[2..][1..] == [];
  }
}

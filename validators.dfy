/**
 * `src/utils/validators.js`: the checks the forms run before a category, an
 * API key, a pasted link or an import file is accepted.
 */
module Validators {
  import opened Optional
  import opened Text
  import opened Json
  import opened Records
  import opened Seqs
  import opened UrlPatterns
  import YoutubeApi
  import VideoParser

  const EmptyName: string := "O nome da categoria não pode estar vazio"
  const ShortName: string := "O nome deve ter pelo menos 2 caracteres"
  const LongName: string := "O nome deve ter no máximo 50 caracteres"
  const DuplicateName: string := "Já existe uma categoria com este nome"

  /**
   * Some existing category other than `excludeId` has the name `trimmed`, up to
   * case. The existing names are compared as stored, without trimming.
   */
  predicate IsDuplicate(trimmed: string, existing: seq<Category>, excludeId: Option<string>) {
    exists c :: c in existing && ToLower(c.name) == ToLower(trimmed) && Some(c.id) != excludeId
  }

  /** `validateCategoryName(name, existingCategories, excludeId)`. */
  function ValidateCategoryName(name: string, existing: seq<Category> := [], excludeId: Option<string> := None): (r: Validation)
    ensures r == Valid ==> 2 <= |Trim(name)| <= 50
    ensures r.Invalid? ==> r.error in {EmptyName, ShortName, LongName, DuplicateName}
  {
    var trimmed := Trim(name);
    if trimmed == "" then Invalid(EmptyName)
    else if |trimmed| < 2 then Invalid(ShortName)
    else if |trimmed| > 50 then Invalid(LongName)
    else if IsDuplicate(trimmed, existing, excludeId) then Invalid(DuplicateName)
    else Valid
  }

  /**
   * The checks run in order and the first failure is reported: blank names,
   * then names under 2 characters once trimmed, then names over 50, then
   * duplicates; a name passing all four is valid.
   */
  lemma CategoryNameChecks(name: string, existing: seq<Category>, excludeId: Option<string>)
    ensures var r := ValidateCategoryName(name, existing, excludeId);
            var t := Trim(name);
            && (r == Invalid(EmptyName) <==> forall i :: 0 <= i < |name| ==> IsSpace(name[i]))
            && (r == Invalid(ShortName) <==> |t| == 1)
            && (r == Invalid(LongName) <==> |t| > 50)
            && (r == Invalid(DuplicateName) <==> 2 <= |t| <= 50 && IsDuplicate(t, existing, excludeId))
            && (r == Valid <==> 2 <= |t| <= 50 && !IsDuplicate(t, existing, excludeId))
  {
    TrimEmptyIff(name);
    MessagesDistinct();
  }

  /** The four messages differ, so the message tells which check failed. */
  lemma MessagesDistinct()
    ensures EmptyName != ShortName && EmptyName != LongName && EmptyName != DuplicateName
    ensures ShortName != LongName && ShortName != DuplicateName && LongName != DuplicateName
  {
    assert |EmptyName| == 40 && |ShortName| == 39 && |LongName| == 39 && |DuplicateName| == 37;
    assert ShortName[22] != LongName[22];
  }

  /** Passing the id being edited is the same as leaving that category out of the list. */
  lemma ExcludeIsLeavingOut(name: string, existing: seq<Category>, id: string)
    ensures ValidateCategoryName(name, existing, Some(id))
         == ValidateCategoryName(name, Filter(existing, (c: Category) => c.id != id), None)
  {
    DuplicateIgnoringIsLeavingOut(Trim(name), existing, id);
  }

  lemma DuplicateIgnoringIsLeavingOut(t: string, existing: seq<Category>, id: string)
    ensures IsDuplicate(t, existing, Some(id)) == IsDuplicate(t, Filter(existing, (c: Category) => c.id != id), None)
  {
    var others := Filter(existing, (c: Category) => c.id != id);
    if IsDuplicate(t, existing, Some(id)) {
      var c :| c in existing && ToLower(c.name) == ToLower(t) && Some(c.id) != Some(id);
      var i :| 0 <= i < |existing| && existing[i] == c;
      assert c in others;
    }
    if IsDuplicate(t, others, None) {
      var c :| c in others && ToLower(c.name) == ToLower(t);
      var i :| 0 <= i < |others| && others[i] == c;
      assert c in existing && c.id != id;
    }
  }

  /**
   * When no two categories share a name up to case, renaming a category to a
   * name equal to its own up to case (and to surrounding white space) is valid.
   */
  lemma KeepingOwnNameIsValid(name: string, existing: seq<Category>, i: nat)
    requires i < |existing|
    requires forall j, k :: 0 <= j < k < |existing| ==> ToLower(existing[j].name) != ToLower(existing[k].name)
    requires ToLower(Trim(name)) == ToLower(existing[i].name)
    requires 2 <= |Trim(name)| <= 50
    ensures ValidateCategoryName(name, existing, Some(existing[i].id)) == Valid
  {
    var t := Trim(name);
    OnlyOwnNameMatches(t, existing, i);
    assert t != "" && !(|t| < 2) && !(|t| > 50);
  }

  lemma OnlyOwnNameMatches(t: string, existing: seq<Category>, i: nat)
    requires i < |existing|
    requires forall j, k :: 0 <= j < k < |existing| ==> ToLower(existing[j].name) != ToLower(existing[k].name)
    requires ToLower(t) == ToLower(existing[i].name)
    ensures !IsDuplicate(t, existing, Some(existing[i].id))
  {
    forall j | 0 <= j < |existing| && j != i
      ensures ToLower(existing[j].name) != ToLower(existing[i].name)
    {
    }
  }

  /** `validateApiKey(apiKey)`: false for a falsy or non-string value, otherwise the key pattern. */
  function ValidateApiKey(apiKey: Json): (r: bool)
    ensures r <==> apiKey.JString? && |apiKey.s| == 39 && StartsWith(apiKey.s, "AIza")
                   && forall i :: 4 <= i < 39 ==> BareChar(apiKey.s[i])
  {
    if !Truthy(Some(apiKey)) || !apiKey.JString? then false
    else YoutubeApi.MatchesKeyPattern(apiKey.s)
  }

  /** The validator and the API helper accept the same keys. */
  lemma ApiKeyCheckersAgree(apiKey: Json)
    ensures ValidateApiKey(apiKey) == YoutubeApi.ValidateApiKeyFormat(apiKey)
  {
  }

  const MissingUrl: string := "Cole o link do vídeo do YouTube"
  const InvalidUrl: string := "Link do YouTube inválido"

  /** The five patterns of `validateYouTubeUrl`: the first four link forms of `videoParser.js` and the bare id. */
  const LinkPatterns: seq<Pattern> := [
    Markers([VideoParser.WatchMarker]),
    Markers([VideoParser.ShortMarker]),
    Markers([VideoParser.EmbedMarker]),
    Markers([VideoParser.MobileMarker]),
    BareId
  ]

  /** `validateYouTubeUrl(url)`: blank input, then no pattern matching the trimmed text. */
  function ValidateYouTubeUrl(url: Option<string>): (r: Validation)
    ensures url.None? || Trim(url.value) == "" <==> r == Invalid(MissingUrl)
    ensures r.Invalid? ==> r.error in {MissingUrl, InvalidUrl}
  {
    if url.None? || url.value == "" || Trim(url.value) == "" then Invalid(MissingUrl)
    else if !AnyMatches(Trim(url.value), LinkPatterns) then
      assert MissingUrl[0] != InvalidUrl[0];
      Invalid(InvalidUrl)
    else Valid
  }

  /** The empty text matches none of the link patterns. */
  lemma NothingMatchesEmpty(patterns: seq<Pattern>)
    ensures !AnyMatches("", patterns)
  {
    forall i | 0 <= i < |patterns|
      ensures MatchPattern("", patterns[i]).None?
    {
      if patterns[i].Markers? {
        NoGroupAtEnd("", patterns[i].alternatives);
      }
    }
  }

  /**
   * The validator accepts a link exactly when `videoParser.js` extracts an id
   * from it by a pattern other than the `youtube.com/v/` form, which the
   * validator does not list.
   */
  lemma UrlValidatorAgreesWithParser(url: Option<string>)
    ensures ValidateYouTubeUrl(url) == Valid ==> VideoParser.IsValidYouTubeUrl(url)
    ensures VideoParser.IsValidYouTubeUrl(url) && MatchPattern(Trim(url.value), VideoParser.Patterns[4]).None?
            ==> ValidateYouTubeUrl(url) == Valid
  {
    if url.Some? && url.value != "" {
      var t := Trim(url.value);
      FirstMatchWins(t, VideoParser.Patterns);
      if AnyMatches(t, LinkPatterns) {
        var i :| 0 <= i < |LinkPatterns| && MatchPattern(t, LinkPatterns[i]).Some?;
        var j := if i < 4 then i else 5;
        assert LinkPatterns[i] == VideoParser.Patterns[j];
      }
      if VideoParser.IsValidYouTubeUrl(url) && MatchPattern(t, VideoParser.Patterns[4]).None? {
        var j :| 0 <= j < |VideoParser.Patterns| && MatchPattern(t, VideoParser.Patterns[j]).Some?;
        var i := if j < 4 then j else 4;
        assert LinkPatterns[i] == VideoParser.Patterns[j];
        if t == "" {
          NothingMatchesEmpty(VideoParser.Patterns);
        }
      }
    }
  }

  /** A bare 11-character id, with or without surrounding white space, is accepted. */
  lemma BareIdIsAccepted(url: string)
    requires IsBareId(Trim(url))
    ensures ValidateYouTubeUrl(Some(url)) == Valid
  {
    assert MatchPattern(Trim(url), LinkPatterns[4]).Some?;
  }

  const BadFormat: string := "Formato de arquivo inválido"
  const NoCategories: string := "Estrutura inválida: \"categories\" ausente"
  const NoVideos: string := "Estrutura inválida: \"videos\" ausente"
  const BadCategory: string := "Categoria com estrutura inválida"
  const BadVideo: string := "Vídeo com estrutura inválida"

  /** The elements of an array-valued property, and nothing for anything else. */
  function Items(v: Option<Json>): (r: seq<Json>)
    ensures IsArray(v) ==> r == v.value.items
  {
    if IsArray(v) then v.value.items else []
  }

  /** `!cat.id || !cat.name` fails: the shape this validator asks of a category. */
  predicate CategoryShape(c: Json) {
    Truthy(Get(c, "id")) && Truthy(Get(c, "name"))
  }

  /** The shape both import validators ask of a video. */
  predicate VideoShape(v: Json) {
    Truthy(Get(v, "id")) && Truthy(Get(v, "videoId")) && Truthy(Get(v, "title"))
    && IsArray(Get(v, "categories"))
  }

  /** `validateImportData(data)` of `validators.js`. */
  function ValidateImportData(data: Json): (r: Outcome)
    ensures r.Returned? && r.validation.Invalid? ==>
              r.validation.error in {BadFormat, NoCategories, NoVideos, BadCategory, BadVideo}
  {
    if !Truthy(Some(data)) || !IsObjectType(data) then Returned(Invalid(BadFormat))
    else if !Truthy(Get(data, "categories")) || !IsArray(Get(data, "categories")) then Returned(Invalid(NoCategories))
    else if !Truthy(Get(data, "videos")) || !IsArray(Get(data, "videos")) then Returned(Invalid(NoVideos))
    else
      var categories := CheckEach(Items(Get(data, "categories")), CategoryShape, BadCategory);
      if categories != Returned(Valid) then categories
      else CheckEach(Items(Get(data, "videos")), VideoShape, BadVideo)
  }

  /**
   * The file is accepted exactly when it is an object with array properties
   * `categories` and `videos` whose elements are non-null and have the shapes above.
   */
  lemma ImportDataValidIff(data: Json)
    ensures ValidateImportData(data) == Returned(Valid) <==>
      && data.JObject?
      && IsArray(Get(data, "categories")) && IsArray(Get(data, "videos"))
      && (forall i :: 0 <= i < |Items(Get(data, "categories"))| ==>
            !Items(Get(data, "categories"))[i].JNull? && CategoryShape(Items(Get(data, "categories"))[i]))
      && (forall i :: 0 <= i < |Items(Get(data, "videos"))| ==>
            !Items(Get(data, "videos"))[i].JNull? && VideoShape(Items(Get(data, "videos"))[i]))
  {
    CheckEachValidIff(Items(Get(data, "categories")), CategoryShape, BadCategory);
    CheckEachValidIff(Items(Get(data, "videos")), VideoShape, BadVideo);
  }
}

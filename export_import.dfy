/**
 * `src/services/exportImport.js`: the backup and per-category snapshots, the
 * import validator of the service, and the merge-or-replace import. The wall
 * clock (`exportedAt`, the date in file names) is a parameter; writing the
 * file and reading it back are not part of this model.
 */
module ExportImport {
  import opened Optional
  import opened Text
  import opened Json
  import opened Records
  import opened Seqs
  import opened Keyed
  import Validators

  const Version: string := "1.0.0"

  /** The object an export writes and an import reads back. */
  datatype Snapshot = Snapshot(version: string, exportedAt: string, categories: seq<Category>, videos: seq<Video>)

  /** What is handed to the download: the snapshot and the file name. */
  datatype Download = Download(data: Snapshot, filename: string)

  /** `exportAll(categories, videos)`, with the export instant and the date of the file name given. */
  function ExportAll(categories: seq<Category>, videos: seq<Video>, exportedAt: string, date: string): (r: Download)
    ensures r.data.version == Version
    ensures r.data.exportedAt == exportedAt && r.data.categories == categories && r.data.videos == videos
    ensures r.filename == "youtube-organizer-backup-" + date + ".json"
  {
    Download(Snapshot(Version, exportedAt, categories, videos), "youtube-organizer-backup-" + date + ".json")
  }

  /** A letter or digit of ASCII: what `/[^a-z0-9]/gi` does not match. */
  predicate AsciiAlnum(c: char) {
    'a' <= c <= 'z' || 'A' <= c <= 'Z' || '0' <= c <= '9'
  }

  /** The characters a safe name is made of. */
  predicate SafeChar(c: char) {
    'a' <= c <= 'z' || '0' <= c <= '9' || c == '-'
  }

  /** `s.replace(/[^a-z0-9]/gi, '-')`. */
  function DashNonAlnum(s: string): (r: string)
    ensures |r| == |s|
    ensures forall i :: 0 <= i < |s| ==> r[i] == if AsciiAlnum(s[i]) then s[i] else '-'
  {
    seq(|s|, i requires 0 <= i < |s| => if AsciiAlnum(s[i]) then s[i] else '-')
  }

  /**
   * `name.replace(/[^a-z0-9]/gi, '-').toLowerCase()`: every ASCII letter is
   * lowered, every digit kept and every other character becomes `-`.
   */
  function SafeName(name: string): (r: string)
    ensures |r| == |name|
    ensures forall i :: 0 <= i < |r| ==> SafeChar(r[i])
    ensures forall i :: 0 <= i < |r| ==> (r[i] == '-' <==> !AsciiAlnum(name[i]))
    ensures forall i :: 0 <= i < |r| && AsciiAlnum(name[i]) ==> r[i] == LowerChar(name[i])
  {
    ToLower(DashNonAlnum(name))
  }

  /** A safe name is its own safe name. */
  lemma SafeNameIdempotent(name: string)
    ensures SafeName(SafeName(name)) == SafeName(name)
  {
  }

  /**
   * `exportCategory(category, videos)`: the snapshot holds the category alone
   * and the videos that list it, in their order, each as often as in `videos`.
   */
  function ExportCategory(category: Category, videos: seq<Video>, exportedAt: string, date: string): (r: Download)
    ensures r.data.version == Version && r.data.exportedAt == exportedAt
    ensures r.data.categories == [category]
    ensures forall v :: v in r.data.videos <==> v in videos && category.id in v.categories
    ensures IsSubsequence(r.data.videos, videos)
    ensures forall v :: Count(r.data.videos, v) == if category.id in v.categories then Count(videos, v) else 0
    ensures r.filename == "category-" + SafeName(category.name) + "-" + date + ".json"
  {
    FilterIsSubsequence(videos, InCategory(category.id));
    FilterCount(videos, InCategory(category.id));
    var categoryVideos := Filter(videos, InCategory(category.id));
    Download(Snapshot(Version, exportedAt, [category], categoryVideos),
             "category-" + SafeName(category.name) + "-" + date + ".json")
  }

  const MissingCategories: string := "Propriedade \"categories\" ausente ou inválida"
  const MissingVideos: string := "Propriedade \"videos\" ausente ou inválida"

  /** The service also asks every category for a truthy `createdAt`. */
  predicate DatedCategoryShape(c: Json) {
    Validators.CategoryShape(c) && Truthy(Get(c, "createdAt"))
  }

  /** `validateImportData(data)` of the service. */
  function ValidateImportData(data: Json): (r: Outcome)
    ensures r.Returned? && r.validation.Invalid? ==>
              r.validation.error in {Validators.BadFormat, MissingCategories, MissingVideos,
                                     Validators.BadCategory, Validators.BadVideo}
  {
    if !Truthy(Some(data)) || !IsObjectType(data) then Returned(Invalid(Validators.BadFormat))
    else if !Truthy(Get(data, "categories")) || !IsArray(Get(data, "categories")) then Returned(Invalid(MissingCategories))
    else if !Truthy(Get(data, "videos")) || !IsArray(Get(data, "videos")) then Returned(Invalid(MissingVideos))
    else
      var categories := CheckEach(Validators.Items(Get(data, "categories")), DatedCategoryShape, Validators.BadCategory);
      if categories != Returned(Valid) then categories
      else CheckEach(Validators.Items(Get(data, "videos")), Validators.VideoShape, Validators.BadVideo)
  }

  /**
   * The service accepts a file exactly when it is an object whose `categories`
   * and `videos` are arrays of non-null entries, every category having a
   * truthy `id`, `name` and `createdAt`, every video a truthy `id`, `videoId`
   * and `title` and an array `categories`.
   */
  lemma ImportDataValidIff(data: Json)
    ensures ValidateImportData(data) == Returned(Valid) <==>
      && data.JObject?
      && IsArray(Get(data, "categories")) && IsArray(Get(data, "videos"))
      && (forall i :: 0 <= i < |Validators.Items(Get(data, "categories"))| ==>
            !Validators.Items(Get(data, "categories"))[i].JNull?
            && DatedCategoryShape(Validators.Items(Get(data, "categories"))[i]))
      && (forall i :: 0 <= i < |Validators.Items(Get(data, "videos"))| ==>
            !Validators.Items(Get(data, "videos"))[i].JNull?
            && Validators.VideoShape(Validators.Items(Get(data, "videos"))[i]))
  {
    CheckEachValidIff(Validators.Items(Get(data, "categories")), DatedCategoryShape, Validators.BadCategory);
    CheckEachValidIff(Validators.Items(Get(data, "videos")), Validators.VideoShape, Validators.BadVideo);
  }

  /** Every file the service accepts is accepted by `validators.js` too. */
  lemma ServiceIsStricter(data: Json)
    ensures ValidateImportData(data) == Returned(Valid) ==> Validators.ValidateImportData(data) == Returned(Valid)
  {
    if ValidateImportData(data) == Returned(Valid) {
      CheckEachMonotone(Validators.Items(Get(data, "categories")), DatedCategoryShape, Validators.CategoryShape,
                        Validators.BadCategory);
    }
  }

  /** The converse fails: a category without `createdAt` passes only `validators.js`. */
  lemma UndatedCategoryPassesOnlyUtils()
    ensures var category := JObject(map["id" := JString("c1"), "name" := JString("Music")]);
            var data := JObject(map["categories" := JArray([category]), "videos" := JArray([])]);
            && Validators.ValidateImportData(data) == Returned(Valid)
            && ValidateImportData(data) == Returned(Invalid(Validators.BadCategory))
  {
    var category := JObject(map["id" := JString("c1"), "name" := JString("Music")]);
    var data := JObject(map["categories" := JArray([category]), "videos" := JArray([])]);
    assert Get(data, "categories") == Some(JArray([category]));
    assert Get(data, "videos") == Some(JArray([]));
    assert Validators.CategoryShape(category);
    assert !DatedCategoryShape(category);
  }

  /** The lists an import leaves in the stores. */
  datatype Library = Library(categories: seq<Category>, videos: seq<Video>)

  /** `processImport(importedData, currentCategories, currentVideos, merge)`. */
  function ProcessImport(imported: Snapshot, currentCategories: seq<Category>, currentVideos: seq<Video>, merge: bool): (r: Library)
    ensures !merge ==> r == Library(imported.categories, imported.videos)
  {
    if !merge then Library(imported.categories, imported.videos)
    else Library(MergeById(currentCategories, imported.categories, CategoryKey),
                 MergeById(currentVideos, imported.videos, VideoKey))
  }

  /**
   * A merge keeps the current lists as prefixes and appends, in imported
   * order, exactly the imported entries whose id is not present yet.
   */
  lemma MergeImportShape(imported: Snapshot, currentCategories: seq<Category>, currentVideos: seq<Video>)
    ensures var r := ProcessImport(imported, currentCategories, currentVideos, true);
      && r.categories[..|currentCategories|] == currentCategories
      && r.videos[..|currentVideos|] == currentVideos
      && (forall c :: c in r.categories[|currentCategories|..] <==>
            c in imported.categories && c.id !in Ids(currentCategories, CategoryKey))
      && (forall v :: v in r.videos[|currentVideos|..] <==>
            v in imported.videos && v.id !in Ids(currentVideos, VideoKey))
      && IsSubsequence(r.categories[|currentCategories|..], imported.categories)
      && IsSubsequence(r.videos[|currentVideos|..], imported.videos)
      && (forall c :: Count(r.categories[|currentCategories|..], c)
                   == if c.id !in Ids(currentCategories, CategoryKey) then Count(imported.categories, c) else 0)
      && (forall v :: Count(r.videos[|currentVideos|..], v)
                   == if v.id !in Ids(currentVideos, VideoKey) then Count(imported.videos, v) else 0)
  {
    MergeShape(currentCategories, imported.categories, CategoryKey);
    MergeShape(currentVideos, imported.videos, VideoKey);
  }

  /** Importing the same snapshot twice in merge mode is importing it once. */
  lemma MergeImportIdempotent(imported: Snapshot, currentCategories: seq<Category>, currentVideos: seq<Video>)
    ensures var once := ProcessImport(imported, currentCategories, currentVideos, true);
            ProcessImport(imported, once.categories, once.videos, true) == once
  {
    MergeIdempotent(currentCategories, imported.categories, CategoryKey);
    MergeIdempotent(currentVideos, imported.videos, VideoKey);
  }

  /** Importing a full backup of the current lists, in either mode, gives the current lists back. */
  lemma BackupRoundTrip(categories: seq<Category>, videos: seq<Video>, exportedAt: string, date: string, merge: bool)
    ensures ProcessImport(ExportAll(categories, videos, exportedAt, date).data, categories, videos, merge)
         == Library(categories, videos)
  {
    MergeWithItself(categories, CategoryKey);
    MergeWithItself(videos, VideoKey);
  }

  /** Merging back the export of one of the current categories changes nothing. */
  lemma CategoryExportRoundTrip(category: Category, categories: seq<Category>, videos: seq<Video>, exportedAt: string, date: string)
    requires category in categories
    ensures ProcessImport(ExportCategory(category, videos, exportedAt, date).data, categories, videos, true)
         == Library(categories, videos)
  {
    var data := ExportCategory(category, videos, exportedAt, date).data;
    forall k | k in Ids(data.categories, CategoryKey)
      ensures k in Ids(categories, CategoryKey)
    {
      var i :| 0 <= i < |categories| && categories[i] == category;
    }
    forall k | k in Ids(data.videos, VideoKey)
      ensures k in Ids(videos, VideoKey)
    {
      var i :| 0 <= i < |data.videos| && VideoKey(data.videos[i]) == k;
      assert data.videos[i] in videos;
      var j :| 0 <= j < |videos| && videos[j] == data.videos[i];
    }
    MergeKnownIsNoOp(categories, data.categories, CategoryKey);
    MergeKnownIsNoOp(videos, data.videos, VideoKey);
  }
}

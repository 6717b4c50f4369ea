/**
 * `src/hooks/useCategories.js`: the list of categories and the operations the
 * interface performs on it. As for the videos, every mutator replaces the list
 * with one computed from the previous list; the functions below compute it and
 * the `CategoryStore` class holds the current list.
 */
module Categories {
  import opened Optional
  import opened Text
  import opened Json
  import opened Records
  import opened Seqs
  import opened Keyed
  import Validators
  import ExportImport

  /** The record `addCategory` creates: the name is trimmed. */
  function NewCategory(name: string, id: string, createdAt: int): (c: Category)
    ensures c.name == Trim(name) && c.id == id && c.createdAt == createdAt
  {
    Category(id, Trim(name), createdAt)
  }

  /** The list after `updateCategory(id, newName)`: only the names of the matching entries change, to the trimmed name. */
  function Renamed(categories: seq<Category>, id: string, newName: string): (r: seq<Category>)
    ensures |r| == |categories|
    ensures forall i :: 0 <= i < |categories| ==>
      && r[i].id == categories[i].id && r[i].createdAt == categories[i].createdAt
      && r[i].name == (if categories[i].id == id then Trim(newName) else categories[i].name)
  {
    MapWhere(categories, (c: Category) => c.id == id, (c: Category) => c.(name := Trim(newName)))
  }

  /** Renaming an id no entry has changes nothing. */
  lemma RenameUnknownIsNoOp(categories: seq<Category>, id: string, newName: string)
    requires forall i :: 0 <= i < |categories| ==> categories[i].id != id
    ensures Renamed(categories, id, newName) == categories
  {
  }

  /** Renaming is idempotent, and renaming to a trimmed form of the name gives the same list. */
  lemma RenameIdempotent(categories: seq<Category>, id: string, newName: string)
    ensures Renamed(Renamed(categories, id, newName), id, newName) == Renamed(categories, id, newName)
    ensures Renamed(categories, id, Trim(newName)) == Renamed(categories, id, newName)
  {
    TrimIdempotent(newName);
    var once := Renamed(categories, id, newName);
    var twice := Renamed(once, id, newName);
    forall i | 0 <= i < |categories|
      ensures twice[i] == once[i]
    {
      assert twice[i] == Category(twice[i].id, twice[i].name, twice[i].createdAt);
    }
    var trimmed := Renamed(categories, id, Trim(newName));
    forall i | 0 <= i < |categories|
      ensures trimmed[i] == once[i]
    {
      assert trimmed[i] == Category(trimmed[i].id, trimmed[i].name, trimmed[i].createdAt);
    }
  }

  /** The list after `deleteCategory(id)`. */
  function WithoutCategory(categories: seq<Category>, id: string): (r: seq<Category>)
    ensures forall c :: c in r <==> c in categories && c.id != id
  {
    Filter(categories, (c: Category) => c.id != id)
  }

  /** Deleting keeps the other entries in order, and deleting an absent id changes nothing. */
  lemma DeleteCategoryShape(categories: seq<Category>, id: string)
    ensures IsSubsequence(WithoutCategory(categories, id), categories)
    ensures (forall i :: 0 <= i < |categories| ==> categories[i].id != id) ==> WithoutCategory(categories, id) == categories
  {
    FilterIsSubsequence(categories, (c: Category) => c.id != id);
    if forall i :: 0 <= i < |categories| ==> categories[i].id != id {
      FilterAllPass(categories, (c: Category) => c.id != id);
    }
  }

  /** `categories.some((cat) => cat.name.toLowerCase() === name.toLowerCase())`: no trimming on either side. */
  predicate NameTaken(categories: seq<Category>, name: string) {
    exists c :: c in categories && ToLower(c.name) == ToLower(name)
  }

  /**
   * For a name that is already trimmed and of an allowed length, the existence
   * test agrees with the duplicate rule of `validateCategoryName` when no
   * category is excluded.
   */
  lemma NameTakenIsDuplicate(categories: seq<Category>, name: string)
    requires Trim(name) == name && 2 <= |name| <= 50
    ensures NameTaken(categories, name) <==>
            Validators.ValidateCategoryName(name, categories) == Invalid(Validators.DuplicateName)
  {
    Validators.CategoryNameChecks(name, categories, None);
  }

  /** A category just added is found by its trimmed name. */
  lemma AddedNameIsTaken(categories: seq<Category>, name: string, id: string, createdAt: int)
    ensures NameTaken(categories + [NewCategory(name, id, createdAt)], Trim(name))
  {
    var c := NewCategory(name, id, createdAt);
    assert c in categories + [c];
  }

  /** The list after `importCategories(importedCategories, merge)`. */
  function ImportedCategories(categories: seq<Category>, importedCategories: seq<Category>, merge: bool := true): (r: seq<Category>)
    ensures !merge ==> r == importedCategories
    ensures merge ==> |categories| <= |r| && r[..|categories|] == categories
  {
    if merge then MergeById(categories, importedCategories, CategoryKey) else importedCategories
  }

  /** Importing the same categories twice, in either mode, is importing them once. */
  lemma ImportIdempotent(categories: seq<Category>, importedCategories: seq<Category>, merge: bool)
    ensures ImportedCategories(ImportedCategories(categories, importedCategories, merge), importedCategories, merge)
         == ImportedCategories(categories, importedCategories, merge)
  {
    if merge {
      MergeIdempotent(categories, importedCategories, CategoryKey);
    } else {
      MergeWithItself(importedCategories, CategoryKey);
    }
  }

  /** A merge appends, in imported order, exactly the imported categories whose id is not present yet. */
  lemma ImportAppendsUnseen(categories: seq<Category>, importedCategories: seq<Category>)
    ensures var r := ImportedCategories(categories, importedCategories);
            && (forall c :: c in r[|categories|..] <==> c in importedCategories && c.id !in Ids(categories, CategoryKey))
            && IsSubsequence(r[|categories|..], importedCategories)
            && (forall c :: Count(r[|categories|..], c)
                         == if c.id !in Ids(categories, CategoryKey) then Count(importedCategories, c) else 0)
  {
    MergeShape(categories, importedCategories, CategoryKey);
  }

  /** The hook's import leaves the same categories as the import service. */
  lemma ImportAgreesWithService(categories: seq<Category>, videos: seq<Video>, snapshot: ExportImport.Snapshot, merge: bool)
    ensures ImportedCategories(categories, snapshot.categories, merge)
         == ExportImport.ProcessImport(snapshot, categories, videos, merge).categories
  {
  }

  /** The state of the hook: the stored list of categories. */
  class CategoryStore {
    var categories: seq<Category>

    constructor ()
      ensures categories == []
    {
      categories := [];
    }

    /** `addCategory(name)`, with the generated id and the current instant given. */
    method AddCategory(name: string, id: string, createdAt: int) returns (c: Category)
      modifies this
      ensures categories == old(categories) + [c]
      ensures c.id == id && c.name == Trim(name) && c.createdAt == createdAt
    {
      c := NewCategory(name, id, createdAt);
      categories := categories + [c];
    }

    method UpdateCategory(id: string, newName: string)
      modifies this
      ensures categories == Renamed(old(categories), id, newName)
    {
      categories := Renamed(categories, id, newName);
    }

    method DeleteCategory(id: string)
      modifies this
      ensures categories == WithoutCategory(old(categories), id)
    {
      categories := WithoutCategory(categories, id);
    }

    /** `getCategoryById(id)`: the first entry with that id, or nothing when none has it. */
    function GetCategoryById(id: string): (r: Option<Category>)
      reads this
      ensures r.None? <==> forall i :: 0 <= i < |categories| ==> categories[i].id != id
      ensures r.Some? ==> exists i :: 0 <= i < |categories| && categories[i] == r.value && categories[i].id == id
                                   && forall j :: 0 <= j < i ==> categories[j].id != id
    {
      FindByIdFirst(categories, CategoryKey, id);
      FindById(categories, CategoryKey, id)
    }

    /** `categoryExists(name)`. */
    function CategoryExists(name: string): (r: bool)
      reads this
      ensures r <==> exists i :: 0 <= i < |categories| && ToLower(categories[i].name) == ToLower(name)
    {
      NameTaken(categories, name)
    }

    method ImportCategories(importedCategories: seq<Category>, merge: bool := true)
      modifies this
      ensures categories == ImportedCategories(old(categories), importedCategories, merge)
    {
      categories := ImportedCategories(categories, importedCategories, merge);
    }
  }
}

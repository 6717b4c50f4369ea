/**
 * The `useCategorySort` hook of `src/hooks/useCategorySort.js`: a sort option
 * (newest first by default) and the sorted copy of the category list it derives.
 * `name.localeCompare(other)` (default locale) is a collation passed in by the caller.
 */
module CategorySort {
  import opened Optional
  import opened Records
  import opened Sorting

  datatype CategorySortKey = DateCreatedDesc | DateCreatedAsc | NameAsc | NameDesc

  /** The case of the switch a sort option selects, if any. */
  function KeyOf(token: string): (r: Option<CategorySortKey>)
    ensures r.Some? <==> token in {"dateCreatedDesc", "dateCreatedAsc", "nameAsc", "nameDesc"}
  {
    if token == "dateCreatedDesc" then Some(DateCreatedDesc)
    else if token == "dateCreatedAsc" then Some(DateCreatedAsc)
    else if token == "nameAsc" then Some(NameAsc)
    else if token == "nameDesc" then Some(NameDesc)
    else None
  }

  type Collation = (string, string) -> int

  function Compare(k: CategorySortKey, collate: Collation, a: Category, b: Category): int {
    match k
    case DateCreatedDesc => b.createdAt - a.createdAt
    case DateCreatedAsc => a.createdAt - b.createdAt
    case NameAsc => collate(a.name, b.name)
    case NameDesc => collate(b.name, a.name)
  }

  function Comparator(k: CategorySortKey, collate: Collation): (Category, Category) -> int {
    (a: Category, b: Category) => Compare(k, collate, a, b)
  }

  function SortedBy(s: seq<Category>, k: CategorySortKey, collate: Collation): (r: seq<Category>)
    ensures |r| == |s|
  {
    Sort(s, Comparator(k, collate))
  }

  /** The descending cases are the ascending ones with the arguments swapped. */
  lemma DescSwapsAsc(collate: Collation, a: Category, b: Category)
    ensures Compare(DateCreatedDesc, collate, a, b) == Compare(DateCreatedAsc, collate, b, a)
    ensures Compare(NameDesc, collate, a, b) == Compare(NameAsc, collate, b, a)
  {
  }

  lemma ComparatorConsistent(k: CategorySortKey, collate: Collation)
    requires Consistent(collate)
    ensures Consistent(Comparator(k, collate))
  {
    var cmp := Comparator(k, collate);
    forall a, b
      ensures cmp(a, b) > 0 <==> cmp(b, a) < 0
    {
      if k == NameAsc || k == NameDesc {
        assert collate(a.name, b.name) > 0 <==> collate(b.name, a.name) < 0;
      }
    }
    forall a, b, c | cmp(a, b) <= 0 && cmp(b, c) <= 0
      ensures cmp(a, c) <= 0
    {
      if k == NameAsc {
        assert collate(a.name, b.name) <= 0 && collate(b.name, c.name) <= 0;
      } else if k == NameDesc {
        assert collate(c.name, b.name) <= 0 && collate(b.name, a.name) <= 0;
      }
    }
  }

  /** Any case yields a permutation of the input, and ties keep their input order. */
  lemma SortedByMeaning(s: seq<Category>, k: CategorySortKey, collate: Collation)
    requires Consistent(collate)
    ensures multiset(SortedBy(s, k, collate)) == multiset(s)
    ensures forall x :: Equivalents(SortedBy(s, k, collate), x, Comparator(k, collate)) == Equivalents(s, x, Comparator(k, collate))
  {
    var cmp := Comparator(k, collate);
    SortPermutation(s, cmp);
    ComparatorConsistent(k, collate);
    forall x
      ensures Equivalents(Sort(s, cmp), x, cmp) == Equivalents(s, x, cmp)
    {
      SortStable(s, x, cmp);
    }
  }

  /** Under `dateCreatedAsc` creation times never decrease; under `dateCreatedDesc` they never increase. */
  lemma DateCreatedOrder(s: seq<Category>, collate: Collation)
    ensures forall i, j :: 0 <= i < j < |s| ==> SortedBy(s, DateCreatedAsc, collate)[i].createdAt <= SortedBy(s, DateCreatedAsc, collate)[j].createdAt
    ensures forall i, j :: 0 <= i < j < |s| ==> SortedBy(s, DateCreatedDesc, collate)[i].createdAt >= SortedBy(s, DateCreatedDesc, collate)[j].createdAt
  {
    assert Consistent(Comparator(DateCreatedAsc, collate));
    assert Consistent(Comparator(DateCreatedDesc, collate));
    SortSorted(s, Comparator(DateCreatedAsc, collate));
    SortSorted(s, Comparator(DateCreatedDesc, collate));
  }

  /** When no two categories share a creation time, newest-first is exactly oldest-first reversed. */
  lemma DateCreatedDescIsReverse(s: seq<Category>, collate: Collation)
    requires forall a, b :: a in s && b in s && a.createdAt == b.createdAt ==> a == b
    ensures SortedBy(s, DateCreatedDesc, collate) == Reverse(SortedBy(s, DateCreatedAsc, collate))
  {
    var up := Comparator(DateCreatedAsc, collate);
    assert Consistent(up);
    assert NoTies(s, up);
    SwappedSortReverses(s, up, Comparator(DateCreatedDesc, collate));
  }

  /** `nameAsc` and `nameDesc` order by the collation in opposite directions. */
  lemma NameOrder(s: seq<Category>, collate: Collation)
    requires Consistent(collate)
    ensures forall i, j :: 0 <= i < j < |s| ==> collate(SortedBy(s, NameAsc, collate)[i].name, SortedBy(s, NameAsc, collate)[j].name) <= 0
    ensures forall i, j :: 0 <= i < j < |s| ==> collate(SortedBy(s, NameDesc, collate)[j].name, SortedBy(s, NameDesc, collate)[i].name) <= 0
  {
    ComparatorConsistent(NameAsc, collate);
    ComparatorConsistent(NameDesc, collate);
    SortSorted(s, Comparator(NameAsc, collate));
    SortSorted(s, Comparator(NameDesc, collate));
  }

  /** When the collation ranks no two names of the list equal, `nameDesc` is `nameAsc` reversed. */
  lemma NameDescIsReverse(s: seq<Category>, collate: Collation)
    requires Consistent(collate)
    requires forall a, b :: a in s && b in s && collate(a.name, b.name) == 0 ==> a == b
    ensures SortedBy(s, NameDesc, collate) == Reverse(SortedBy(s, NameAsc, collate))
  {
    var up := Comparator(NameAsc, collate);
    ComparatorConsistent(NameAsc, collate);
    assert NoTies(s, up);
    SwappedSortReverses(s, up, Comparator(NameDesc, collate));
  }

  /** The hook's state: the selected sort option. */
  class CategorySortHook {
    var sortOption: string

    /** `useState('dateCreatedDesc')`: newest first. */
    constructor ()
      ensures sortOption == "dateCreatedDesc"
    {
      sortOption := "dateCreatedDesc";
    }

    method SetSortOption(option: string)
      modifies this
      ensures sortOption == option
    {
      sortOption := option;
    }

    /**
     * `sortedCategories`: a fresh copy of the list, sorted in place by the
     * selected case; an unknown option leaves the copy in input order.
     */
    method SortedCategories(categories: array<Category>, collate: Collation) returns (r: array<Category>)
      ensures fresh(r)
      ensures KeyOf(sortOption).None? ==> r[..] == categories[..]
      ensures KeyOf(sortOption).Some? ==> r[..] == SortedBy(categories[..], KeyOf(sortOption).value, collate)
    {
      r := Copy(categories);
      var key := KeyOf(sortOption);
      if key.Some? {
        SortInPlace(r, Comparator(key.value, collate));
      }
    }
  }
}

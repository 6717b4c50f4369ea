/**
 * Lists of records identified by their `id` field: `find` by id, and the
 * merge every import performs (`src/hooks/useVideos.js`,
 * `src/hooks/useCategories.js`, `src/services/exportImport.js`): keep the
 * current list and append the incoming records whose id is not present yet.
 */
module Keyed {
  import opened Optional
  import opened Seqs

  /** `new Set(s.map(id))`. */
  function Ids<T>(s: seq<T>, id: T -> string): set<string> {
    set i | 0 <= i < |s| :: id(s[i])
  }

  /** `(x) => !existing.has(x.id)` for the ids of `current`. */
  function Unseen<T>(current: seq<T>, id: T -> string): T -> bool {
    x => id(x) !in Ids(current, id)
  }

  /** `s.find((x) => x.id === key)`. */
  function FindById<T(==)>(s: seq<T>, id: T -> string, key: string): (r: Option<T>)
    ensures r.Some? ==> r.value in s && id(r.value) == key
  {
    if |s| == 0 then None
    else if id(s[0]) == key then Some(s[0])
    else FindById(s[1..], id, key)
  }

  /** `find` gives the first record with the id, and nothing exactly when no record has it. */
  lemma {:induction false} FindByIdFirst<T>(s: seq<T>, id: T -> string, key: string)
    ensures FindById(s, id, key).None? <==> forall i :: 0 <= i < |s| ==> id(s[i]) != key
    ensures FindById(s, id, key).Some? ==>
      exists i :: 0 <= i < |s| && s[i] == FindById(s, id, key).value
               && forall j :: 0 <= j < i ==> id(s[j]) != key
  {
    if |s| > 0 && id(s[0]) != key {
      FindByIdFirst(s[1..], id, key);
      if FindById(s, id, key).Some? {
        var i :| 0 <= i < |s| - 1 && s[1..][i] == FindById(s, id, key).value
                 && forall j :: 0 <= j < i ==> id(s[1..][j]) != key;
        assert forall j :: 0 <= j < i + 1 ==> id(s[j]) != key by {
          forall j | 0 <= j < i + 1
            ensures id(s[j]) != key
          {
            if j > 0 { assert s[j] == s[1..][j - 1]; }
          }
        }
        assert s[i + 1] == FindById(s, id, key).value;
      } else {
        forall i | 0 <= i < |s|
          ensures id(s[i]) != key
        {
          if i > 0 { assert s[i] == s[1..][i - 1]; }
        }
      }
    }
  }

  /** `[...current, ...incoming.filter((x) => !existing.has(x.id))]`. */
  function MergeById<T(==)>(current: seq<T>, incoming: seq<T>, id: T -> string): (r: seq<T>)
    ensures |current| <= |r| <= |current| + |incoming|
  {
    current + Filter(incoming, Unseen(current, id))
  }

  /**
   * The current list is kept as a prefix, and what follows it is taken from
   * the incoming list, in its order: exactly its records with an id not yet
   * present, each as often as it occurs there.
   */
  lemma MergeShape<T>(current: seq<T>, incoming: seq<T>, id: T -> string)
    ensures var r := MergeById(current, incoming, id);
            && r[..|current|] == current
            && (forall x :: x in r[|current|..] <==> x in incoming && id(x) !in Ids(current, id))
            && IsSubsequence(r[|current|..], incoming)
            && (forall x :: Count(r[|current|..], x) == if id(x) !in Ids(current, id) then Count(incoming, x) else 0)
  {
    var r := MergeById(current, incoming, id);
    assert r[|current|..] == Filter(incoming, Unseen(current, id));
    FilterIsSubsequence(incoming, Unseen(current, id));
    FilterCount(incoming, Unseen(current, id));
    forall x | x in incoming && id(x) !in Ids(current, id)
      ensures x in r[|current|..]
    {
      var i :| 0 <= i < |incoming| && incoming[i] == x;
      assert Unseen(current, id)(incoming[i]);
    }
  }

  /** After a merge every incoming id is present, and no other id is added. */
  lemma MergeIds<T>(current: seq<T>, incoming: seq<T>, id: T -> string)
    ensures Ids(MergeById(current, incoming, id), id) == Ids(current, id) + Ids(incoming, id)
  {
    var r := MergeById(current, incoming, id);
    var added := Filter(incoming, Unseen(current, id));
    assert r == current + added;
    forall k | k in Ids(r, id)
      ensures k in Ids(current, id) + Ids(incoming, id)
    {
      var i :| 0 <= i < |r| && id(r[i]) == k;
      if i >= |current| {
        assert r[i] == added[i - |current|];
        assert r[i] in incoming;
        var j :| 0 <= j < |incoming| && incoming[j] == r[i];
      }
    }
    forall k | k in Ids(current, id) + Ids(incoming, id)
      ensures k in Ids(r, id)
    {
      if k in Ids(current, id) {
        var i :| 0 <= i < |current| && id(current[i]) == k;
        assert r[i] == current[i];
      } else {
        var j :| 0 <= j < |incoming| && id(incoming[j]) == k;
        assert Unseen(current, id)(incoming[j]);
        assert incoming[j] in added;
        var i :| 0 <= i < |added| && added[i] == incoming[j];
        assert r[|current| + i] == added[i];
      }
    }
  }

  /** Merging records whose ids are all present already changes nothing. */
  lemma MergeKnownIsNoOp<T>(current: seq<T>, incoming: seq<T>, id: T -> string)
    requires Ids(incoming, id) <= Ids(current, id)
    ensures MergeById(current, incoming, id) == current
  {
    forall i | 0 <= i < |incoming|
      ensures !Unseen(current, id)(incoming[i])
    {
      assert id(incoming[i]) in Ids(incoming, id);
    }
    FilterNonePass(incoming, Unseen(current, id));
  }

  /** Merging the same records a second time changes nothing. */
  lemma MergeIdempotent<T>(current: seq<T>, incoming: seq<T>, id: T -> string)
    ensures MergeById(MergeById(current, incoming, id), incoming, id) == MergeById(current, incoming, id)
  {
    MergeIds(current, incoming, id);
    MergeKnownIsNoOp(MergeById(current, incoming, id), incoming, id);
  }

  /** A list merged with itself is unchanged. */
  lemma MergeWithItself<T>(current: seq<T>, id: T -> string)
    ensures MergeById(current, current, id) == current
  {
    MergeKnownIsNoOp(current, current, id);
  }
}

/**
 * `src/hooks/useSelection.js`: the set of video ids ticked for a bulk action.
 */
module Selection {
  import opened Seqs

  /** The selection after `toggleSelection(id)`: membership of `id` flipped, nothing else changed. */
  function Toggled(selected: set<string>, id: string): (r: set<string>)
    ensures id in r <==> id !in selected
    ensures forall x :: x != id ==> (x in r <==> x in selected)
  {
    if id in selected then selected - {id} else selected + {id}
  }

  /** Toggling twice restores the selection. */
  lemma ToggleTwice(selected: set<string>, id: string)
    ensures Toggled(Toggled(selected, id), id) == selected
  {
  }

  /** `new Set(ids)`. */
  function SetOf(ids: seq<string>): (r: set<string>)
    ensures forall x :: x in r <==> x in ids
  {
    set x | x in ids
  }

  /** A list without repeated ids selects as many ids as it has entries. */
  lemma {:induction false} SetOfSize(ids: seq<string>)
    requires NoDup(ids)
    ensures |SetOf(ids)| == |ids|
  {
    if |ids| > 0 {
      SetOfSize(ids[1..]);
      assert SetOf(ids) == SetOf(ids[1..]) + {ids[0]};
      assert ids[0] !in ids[1..];
    }
  }

  /** `areAllSelected(ids)`: false for an empty list, otherwise every id is selected. */
  function AllSelected(selected: set<string>, ids: seq<string>): (r: bool)
    ensures r <==> |ids| > 0 && forall i :: 0 <= i < |ids| ==> ids[i] in selected
  {
    if |ids| == 0 then false else forall i :: 0 <= i < |ids| ==> ids[i] in selected
  }

  /** After `selectAll(ids)` a non-empty `ids` is all selected, and a list is all selected exactly when its set is. */
  lemma AllSelectedIsSubset(selected: set<string>, ids: seq<string>)
    ensures AllSelected(selected, ids) <==> |ids| > 0 && SetOf(ids) <= selected
    ensures |ids| > 0 ==> AllSelected(SetOf(ids), ids)
  {
  }

  /** The state of the hook: the ids selected. */
  class SelectionState {
    var selectedIds: set<string>

    constructor ()
      ensures selectedIds == {}
    {
      selectedIds := {};
    }

    method ToggleSelection(id: string)
      modifies this
      ensures selectedIds == Toggled(old(selectedIds), id)
    {
      var newSet := selectedIds;
      if id in newSet {
        newSet := newSet - {id};
      } else {
        newSet := newSet + {id};
      }
      selectedIds := newSet;
    }

    method SelectAll(ids: seq<string>)
      modifies this
      ensures selectedIds == SetOf(ids)
    {
      selectedIds := SetOf(ids);
    }

    method ClearSelection()
      modifies this
      ensures selectedIds == {}
    {
      selectedIds := {};
    }

    function IsSelected(id: string): (r: bool)
      reads this
      ensures r <==> id in selectedIds
    {
      id in selectedIds
    }

    function AreAllSelected(ids: seq<string>): (r: bool)
      reads this
      ensures r <==> |ids| > 0 && SetOf(ids) <= selectedIds
    {
      AllSelectedIsSubset(selectedIds, ids);
      AllSelected(selectedIds, ids)
    }

    /** `selectedCount`. */
    function SelectedCount(): (r: nat)
      reads this
      ensures r == |selectedIds|
    {
      |selectedIds|
    }

    /** `hasSelection`: the size is positive exactly when something is selected. */
    function HasSelection(): (r: bool)
      reads this
      ensures r <==> selectedIds != {}
    {
      SelectedCount() > 0
    }
  }
}

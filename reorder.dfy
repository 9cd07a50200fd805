/**
 * `reorder_issues`: the issues listed in a drag-and-drop request get their
 * position in the list as display order, in list order, so an id listed
 * twice ends with its last position; ids of no issue are skipped.
 */
module Reorder {
  import opened Models

  /** The issues after the positions `0 .. |ids| - 1` have been applied in order. */
  function Reordered(issues: map<Id, Issue>, ids: seq<Id>, now: int): (r: map<Id, Issue>)
    ensures r.Keys == issues.Keys
    decreases |ids|
  {
    if ids == [] then issues
    else
      var prev := Reordered(issues, ids[..|ids| - 1], now);
      var k := ids[|ids| - 1];
      if k in prev then prev[k := prev[k].(displayOrder := |ids| - 1, updatedAt := now)] else prev
  }

  /** The last position of `k` in `ids`. */
  function LastIndex(ids: seq<Id>, k: Id): (r: nat)
    requires k in ids
    ensures r < |ids| && ids[r] == k
    ensures forall j :: r < j < |ids| ==> ids[j] != k
    decreases |ids|
  {
    if ids[|ids| - 1] == k then |ids| - 1 else LastIndex(ids[..|ids| - 1], k)
  }

  /**
   * After reordering, a listed issue has display order equal to its last
   * position in the list and a fresh update time; every other issue is as
   * it was.
   */
  lemma {:induction false} ReorderedAt(issues: map<Id, Issue>, ids: seq<Id>, now: int, k: Id)
    requires k in issues
    ensures var r := Reordered(issues, ids, now);
      && k in r
      && (k in ids ==> r[k] == issues[k].(displayOrder := LastIndex(ids, k), updatedAt := now))
      && (k !in ids ==> r[k] == issues[k])
    decreases |ids|
  {
    if ids != [] {
      var init := ids[..|ids| - 1];
      ReorderedAt(issues, init, now, k);
      assert ids == init + [ids[|ids| - 1]];
    }
  }

  /** Reordering changes only display orders and update times, so the integrity rules still hold. */
  lemma ReorderKeepsInvariant(
    orgs: map<Id, Organization>, issues: map<Id, Issue>, comments: map<Id, Comment>, ids: seq<Id>, now: int)
    requires StoreInvariant(orgs, issues, comments)
    ensures StoreInvariant(orgs, Reordered(issues, ids, now), comments)
  {
    var r := Reordered(issues, ids, now);
    forall k | k in r ensures OrgRefValid(orgs, r[k]) && IssueDatesValid(r[k]) {
      ReorderedAt(issues, ids, now, k);
    }
  }

  /** Dragging issue 3 to the top of [3, 1, 2] numbers them 0, 1 and 2. */
  lemma ReorderExample(issues: map<Id, Issue>, now: int)
    requires 1 in issues && 2 in issues && 3 in issues
    ensures var r := Reordered(issues, [3, 1, 2], now);
      r[3].displayOrder == 0 && r[1].displayOrder == 1 && r[2].displayOrder == 2
  {
    var ids := [3, 1, 2];
    ReorderedAt(issues, ids, now, 3);
    ReorderedAt(issues, ids, now, 1);
    ReorderedAt(issues, ids, now, 2);
    assert LastIndex(ids, 3) == 0 && LastIndex(ids, 1) == 1 && LastIndex(ids, 2) == 2;
  }

  /** A repeated id ends at its last position: [5, 5] gives issue 5 display order 1. */
  lemma RepeatedIdLastWins(issues: map<Id, Issue>, now: int)
    requires 5 in issues
    ensures Reordered(issues, [5, 5], now)[5].displayOrder == 1
  {
    ReorderedAt(issues, [5, 5], now, 5);
  }
}

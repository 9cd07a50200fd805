/**
 * The one-off migration that adds the `display_order` column to an existing
 * `issue` table and numbers the issues 0, 1, 2, ... from the oldest report
 * date on. Only the two columns the migration reads or writes are modelled:
 * each issue's report date and, once the column exists, its display order.
 */
module Migration {
  import opened Dates
  import opened Models
  import opened Sorting

  datatype Outcome = DatabaseNotFound | AlreadyMigrated | Migrated(count: nat)

  /** The sort key of `ORDER BY date_reported ASC`. */
  function DateKeys(dates: map<Id, Date>): (key: map<Id, Key>)
    ensures key.Keys == dates.Keys
    ensures forall k :: k in key ==> key[k] == Key(DateKey(dates[k]), 0)
  {
    map k | k in dates :: Key(DateKey(dates[k]), 0)
  }

  lemma ScanHasDateKeys(dates: map<Id, Date>)
    ensures HasKeys(KeysAscending(dates.Keys), DateKeys(dates))
  {
    var s := KeysAscending(dates.Keys);
    forall i | 0 <= i < |s| ensures s[i] in DateKeys(dates) {
      assert s[i] in multiset(s);
    }
  }

  /** `SELECT id FROM issue ORDER BY date_reported ASC`: every issue once, oldest first. */
  function MigrationOrder(dates: map<Id, Date>): (order: seq<Id>)
    ensures multiset(order) == multiset(dates.Keys)
    ensures HasKeys(order, DateKeys(dates)) && SortedBy(order, DateKeys(dates))
  {
    ScanHasDateKeys(dates);
    Sort(KeysAscending(dates.Keys), DateKeys(dates))
  }

  /** An id that counts once in a sequence's multiset occurs at one position only. */
  lemma CountedOnceOccursOnce(s: seq<Id>, i: int, j: int)
    requires 0 <= i < j < |s| && multiset(s)[s[j]] <= 1
    ensures s[i] != s[j]
  {
    assert s == s[..j] + [s[j]] + s[j + 1..];
    assert multiset(s)[s[j]] == multiset(s[..j])[s[j]] + 1 + multiset(s[j + 1..])[s[j]];
    assert s[..j][i] == s[i];
    assert s[i] in multiset(s[..j]);
  }

  lemma MigrationOrderFacts(dates: map<Id, Date>)
    ensures var ids := MigrationOrder(dates);
      && |ids| == |dates|
      && (forall k :: k in dates <==> k in ids)
      && (forall i, j :: 0 <= i < j < |ids| ==> ids[i] != ids[j])
  {
    var ids := MigrationOrder(dates);
    SetMultisetSize(dates.Keys);
    assert |ids| == |multiset(ids)|;
    forall k ensures k in dates <==> k in ids {
      assert k in multiset(ids) <==> k in multiset(dates.Keys);
    }
    forall i, j | 0 <= i < j < |ids| ensures ids[i] != ids[j] {
      assert multiset(dates.Keys)[ids[j]] <= 1;
      CountedOnceOccursOnce(ids, i, j);
    }
  }

  /**
   * The numbering this model's loop writes: the issue at position `i` of
   * `MigrationOrder` gets `i`. Among issues with the same date that order
   * picks ascending ids, which SQL does not promise.
   */
  ghost predicate InDateOrder(dates: map<Id, Date>, order: map<Id, int>) {
    var ids := MigrationOrder(dates);
    && order.Keys == dates.Keys
    && forall i :: 0 <= i < |ids| ==> ids[i] in order && order[ids[i]] == i
  }

  /**
   * What the migration promises: every issue gets a display order in
   * `0 .. n-1`, no two share one (so, with `n` issues, each value is used
   * exactly once), and an issue reported strictly earlier gets a smaller
   * one. Issues with the same date may come in either order.
   */
  ghost predicate BackFilled(dates: map<Id, Date>, order: map<Id, int>) {
    && order.Keys == dates.Keys
    && (forall k :: k in order ==> 0 <= order[k] < |dates|)
    && (forall a, b :: a in order && b in order && order[a] == order[b] ==> a == b)
    && (forall a, b :: a in dates && b in dates && DateLt(dates[a], dates[b]) ==> order[a] < order[b])
  }

  /**
   * The `UPDATE` loop: every id of `keys` starts at the column default 0 and
   * the id at position `t` of `ids` is then set to `t`.
   */
  method NumberInOrder(ids: seq<Id>, keys: set<Id>) returns (filled: map<Id, int>)
    requires forall t :: 0 <= t < |ids| ==> ids[t] in keys
    requires forall t, u :: 0 <= t < u < |ids| ==> ids[t] != ids[u]
    ensures filled.Keys == keys
    ensures forall t :: 0 <= t < |ids| ==> filled[ids[t]] == t
    ensures forall k :: k in keys && k !in ids ==> filled[k] == 0
  {
    filled := map k | k in keys :: 0;
    var i := 0;
    while i < |ids|
      invariant 0 <= i <= |ids|
      invariant filled.Keys == keys
      invariant forall t :: 0 <= t < i ==> filled[ids[t]] == t
      invariant forall k :: k in keys && k !in ids[..i] ==> filled[k] == 0
    {
      filled := filled[ids[i] := i];
      assert ids[..i + 1] == ids[..i] + [ids[i]];
      i := i + 1;
    }
    assert ids[..i] == ids;
  }

  /** The state the migration loop ends in is the date-order numbering. */
  lemma LoopFillsDateOrder(dates: map<Id, Date>, filled: map<Id, int>)
    requires filled.Keys == dates.Keys
    requires var ids := MigrationOrder(dates);
      forall t :: 0 <= t < |ids| ==> ids[t] in filled && filled[ids[t]] == t
    ensures InDateOrder(dates, filled)
  {
  }

  /** The back-filled orders lie in 0 .. n-1 and no two issues share one, so each is used once. */
  lemma BackFillNumbersOnce(dates: map<Id, Date>, order: map<Id, int>)
    requires InDateOrder(dates, order)
    ensures forall k :: k in order ==> 0 <= order[k] < |dates|
    ensures forall a, b :: a in order && b in order && order[a] == order[b] ==> a == b
    ensures |order| == |dates|
  {
    var ids := MigrationOrder(dates);
    MigrationOrderFacts(dates);
    forall k | k in order ensures 0 <= order[k] < |dates| {
      var i :| 0 <= i < |ids| && ids[i] == k;
    }
    forall a, b | a in order && b in order && order[a] == order[b] ensures a == b {
      var i :| 0 <= i < |ids| && ids[i] == a;
      var j :| 0 <= j < |ids| && ids[j] == b;
    }
    assert order.Keys == dates.Keys;
  }

  /** Where an issue stands in the date order. */
  lemma PositionOf(dates: map<Id, Date>, k: Id) returns (i: int)
    requires k in dates
    ensures 0 <= i < |MigrationOrder(dates)| && MigrationOrder(dates)[i] == k
  {
    var ids := MigrationOrder(dates);
    assert k in multiset(dates.Keys);
    assert k in multiset(ids);
    i :| 0 <= i < |ids| && ids[i] == k;
  }

  /** An issue reported strictly earlier than another gets a smaller display order. */
  lemma BackFillFollowsDates(dates: map<Id, Date>, order: map<Id, int>, a: Id, b: Id)
    requires forall k :: k in dates ==> ValidDate(dates[k])
    requires InDateOrder(dates, order)
    requires a in dates && b in dates && DateLt(dates[a], dates[b])
    ensures order[a] < order[b]
  {
    var i := PositionOf(dates, a);
    var j := PositionOf(dates, b);
    DateKeyOrder(dates[a], dates[b]);
    SortedRespectsStrictOrder(MigrationOrder(dates), DateKeys(dates), i, j);
  }

  /** The date-order numbering meets the migration's promise. */
  lemma InDateOrderIsBackFilled(dates: map<Id, Date>, order: map<Id, int>)
    requires forall k :: k in dates ==> ValidDate(dates[k])
    requires InDateOrder(dates, order)
    ensures BackFilled(dates, order)
  {
    BackFillNumbersOnce(dates, order);
    forall a, b | a in dates && b in dates && DateLt(dates[a], dates[b]) ensures order[a] < order[b] {
      BackFillFollowsDates(dates, order, a, b);
    }
  }

  /** Two issues reported the same day may be numbered either way round. */
  lemma TiesEitherWay(d: Date)
    requires ValidDate(d)
    ensures BackFilled(map[1 := d, 2 := d], map[1 := 0, 2 := 1])
    ensures BackFilled(map[1 := d, 2 := d], map[1 := 1, 2 := 0])
  {
    var dates := map[1 := d, 2 := d];
    assert |dates| == 2 by {
      assert dates.Keys == {1, 2};
    }
  }

  /** The `issue` table as far as the migration sees it. */
  class IssueTable {
    var dbExists: bool
    var hasDisplayOrder: bool
    var dates: map<Id, Date>
    var displayOrder: map<Id, int>

    ghost predicate Valid()
      reads this
    {
      && (forall k :: k in dates ==> ValidDate(dates[k]))
      && (hasDisplayOrder ==> displayOrder.Keys == dates.Keys)
    }

    constructor (dbExists: bool, hasDisplayOrder: bool, dates: map<Id, Date>, displayOrder: map<Id, int>)
      requires forall k :: k in dates ==> ValidDate(dates[k])
      requires hasDisplayOrder ==> displayOrder.Keys == dates.Keys
      ensures Valid()
      ensures this.dbExists == dbExists && this.hasDisplayOrder == hasDisplayOrder
      ensures this.dates == dates && this.displayOrder == displayOrder
    {
      this.dbExists := dbExists;
      this.hasDisplayOrder := hasDisplayOrder;
      this.dates := dates;
      this.displayOrder := displayOrder;
    }

    /**
     * Adds the column with default 0 and numbers the issues by report date;
     * does nothing when there is no database or the column is already there.
     */
    method Migrate() returns (outcome: Outcome)
      requires Valid()
      modifies this
      ensures Valid()
      ensures !old(dbExists) ==> outcome == DatabaseNotFound && unchanged(this)
      ensures old(dbExists) && old(hasDisplayOrder) ==> outcome == AlreadyMigrated && unchanged(this)
      ensures old(dbExists) && !old(hasDisplayOrder) ==>
        && outcome == Migrated(|old(dates)|)
        && dbExists && hasDisplayOrder && dates == old(dates)
        && BackFilled(dates, displayOrder)
    {
      if !dbExists {
        return DatabaseNotFound;
      }
      if hasDisplayOrder {
        return AlreadyMigrated;
      }
      var d := dates;
      var ids := MigrationOrder(d);
      MigrationOrderFacts(d);
      var filled := NumberInOrder(ids, d.Keys);
      LoopFillsDateOrder(d, filled);
      InDateOrderIsBackFilled(d, filled);
      hasDisplayOrder := true;
      displayOrder := filled;
      outcome := Migrated(|ids|);
    }
  }

  /** Running the migration a second time finds the column and changes nothing. */
  method MigrateTwice(table: IssueTable) returns (first: Outcome, second: Outcome)
    requires table.Valid() && table.dbExists && !table.hasDisplayOrder
    modifies table
    ensures first == Migrated(|old(table.dates)|) && second == AlreadyMigrated
    ensures table.dates == old(table.dates) && BackFilled(table.dates, table.displayOrder)
  {
    first := table.Migrate();
    second := table.Migrate();
  }
}

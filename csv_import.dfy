/**
 * The row mapping of `import_csv`: what one CSV row (a map from header to
 * cell, as `csv.DictReader` yields it) becomes, how the organisation named in
 * a row is found or created, and the whole batch built from all rows before
 * anything is inserted.
 */
module CsvImport {
  import opened Wrappers
  import opened Dates
  import opened Models
  import opened Sorting

  /** One data row: header name to cell text. A header the file lacks is no key. */
  type Row = map<string, string>

  /** An uploaded file: its name and its data rows. */
  datatype Upload = Upload(filename: string, rows: seq<Row>)

  predicate Distinct(s: seq<string>) {
    forall i, j :: 0 <= i < j < |s| ==> s[i] != s[j]
  }

  /** `dict(zip(header, cells))`: the row `DictReader` makes of one line. */
  function RowMap(header: seq<string>, cells: seq<string>): Row
    decreases |header|
  {
    if header == [] || cells == [] then map[]
    else map[header[0] := cells[0]] + RowMap(header[1..], cells[1..])
  }

  lemma {:induction false} RowMapAt(header: seq<string>, cells: seq<string>, j: int)
    requires Distinct(header) && |header| <= |cells| && 0 <= j < |header|
    ensures header[j] in RowMap(header, cells) && RowMap(header, cells)[header[j]] == cells[j]
    decreases |header|
  {
    if j == 0 {
      assert forall i :: 0 <= i < |header[1..]| ==> header[1..][i] != header[0];
      RowMapMissing(header[1..], cells[1..], header[0]);
    } else {
      assert Distinct(header[1..]);
      RowMapAt(header[1..], cells[1..], j - 1);
    }
  }

  /** Under distinct header names, every name maps to its own cell. */
  lemma RowMapLookup(header: seq<string>, cells: seq<string>)
    requires Distinct(header) && |header| <= |cells|
    ensures forall j :: 0 <= j < |header| ==>
      header[j] in RowMap(header, cells) && RowMap(header, cells)[header[j]] == cells[j]
  {
    forall j | 0 <= j < |header|
      ensures header[j] in RowMap(header, cells) && RowMap(header, cells)[header[j]] == cells[j]
    {
      RowMapAt(header, cells, j);
    }
  }

  lemma {:induction false} RowMapMissing(header: seq<string>, cells: seq<string>, x: string)
    requires forall i :: 0 <= i < |header| ==> header[i] != x
    ensures x !in RowMap(header, cells)
    decreases |header|
  {
    if header != [] && cells != [] {
      RowMapMissing(header[1..], cells[1..], x);
    }
  }

  /** `row.get(column, default)`. */
  function CellOr(row: Row, column: string, default: string): string {
    if column in row then row[column] else default
  }

  /**
   * `row.get('Organisation') or row.get('Organization')`: the name of the
   * row's organisation, `""` when the row names none.
   */
  function OrgNameOf(row: Row): string {
    if "Organisation" in row && row["Organisation"] != "" then row["Organisation"]
    else CellOr(row, "Organization", "")
  }

  /** A non-empty `Organisation` cell wins; otherwise the `Organization` cell is used. */
  lemma OrganisationPrecedence(row: Row)
    ensures "Organisation" in row && row["Organisation"] != "" ==> OrgNameOf(row) == row["Organisation"]
    ensures !("Organisation" in row && row["Organisation"] != "") ==>
      OrgNameOf(row) == (if "Organization" in row then row["Organization"] else "")
  {
  }

  /**
   * A date cell: a date when the cell exists and parses as `YYYY-MM-DD`;
   * absent otherwise, with no error for an empty or malformed cell.
   */
  function DateCell(row: Row, column: string): (r: Option<Date>)
    ensures r.Some? <==> column in row && ParseDate(row[column]).Some?
    ensures r.Some? ==> ValidDate(r.value) && FormatDate(r.value) == row[column]
  {
    if column in row && row[column] != "" then ParseDate(row[column]) else None
  }

  /** The Issue built from one row, given the organisation the row resolved to. */
  function ImportedIssue(row: Row, orgId: Option<Id>, today: Date, now: int): (i: Issue)
    requires ValidDate(today)
    ensures IssueDatesValid(i)
    ensures i.organizationId == orgId && i.displayOrder == DefaultDisplayOrder && i.updatedAt == now
  {
    Issue(
      title := CellOr(row, "Title", ""),
      description := Some(CellOr(row, "Description", "")),
      reporter := CellOr(row, "Reporter", ""),
      owner := if CellOr(row, "Owner", "") != "" then Some(row["Owner"]) else None,
      organizationId := orgId,
      status := CellOr(row, "Status", DefaultStatus),
      importance := CellOr(row, "Importance", DefaultImportance),
      dateReported := DateCell(row, "Date Reported").GetOr(today),
      targetDate := DateCell(row, "Target Date"),
      displayOrder := DefaultDisplayOrder,
      updatedAt := now)
  }

  /**
   * The field rules of the import: a missing column gets its default, an
   * empty owner is NULL, an absent or unreadable report date is today and an
   * absent or unreadable target date is NULL.
   */
  lemma ImportFieldRules(row: Row, orgId: Option<Id>, today: Date, now: int)
    requires ValidDate(today)
    ensures var i := ImportedIssue(row, orgId, today, now);
      && ("Title" !in row ==> i.title == "")
      && ("Title" in row ==> i.title == row["Title"])
      && ("Description" !in row ==> i.description == Some(""))
      && ("Description" in row ==> i.description == Some(row["Description"]))
      && ("Reporter" !in row ==> i.reporter == "")
      && ("Reporter" in row ==> i.reporter == row["Reporter"])
      && ("Status" !in row ==> i.status == "Open")
      && ("Status" in row ==> i.status == row["Status"])
      && ("Importance" !in row ==> i.importance == "Medium")
      && ("Importance" in row ==> i.importance == row["Importance"])
      && (i.owner == None <==> "Owner" !in row || row["Owner"] == "")
      && (i.owner.Some? ==> i.owner.value == row["Owner"])
      && (ParseDate(CellOr(row, "Date Reported", "")).None? ==> i.dateReported == today)
      && (ParseDate(CellOr(row, "Date Reported", "")).Some? ==>
            FormatDate(i.dateReported) == row["Date Reported"])
      && (i.targetDate == None <==> ParseDate(CellOr(row, "Target Date", "")).None?)
      && (i.targetDate.Some? ==> FormatDate(i.targetDate.value) == row["Target Date"])
  {
    var i := ImportedIssue(row, orgId, today, now);
    assert i.dateReported == DateCell(row, "Date Reported").GetOr(today);
    assert i.targetDate == DateCell(row, "Target Date");
    assert ParseDate("").None?;
  }

  // ---- organisations ----

  /** The first organisation, in id order, among `ids` that carries `name`. */
  function FirstNamed(ids: seq<Id>, orgs: map<Id, Organization>, name: string): (r: Option<Id>)
    requires forall j :: 0 <= j < |ids| ==> ids[j] in orgs
    ensures r.Some? ==> r.value in orgs && orgs[r.value].name == name
    ensures r.None? ==> forall j :: 0 <= j < |ids| ==> orgs[ids[j]].name != name
    decreases |ids|
  {
    if ids == [] then None
    else if orgs[ids[0]].name == name then Some(ids[0])
    else FirstNamed(ids[1..], orgs, name)
  }

  lemma ScanCovers(orgs: map<Id, Organization>, k: Id)
    requires k in orgs
    ensures exists j :: 0 <= j < |KeysAscending(orgs.Keys)| && KeysAscending(orgs.Keys)[j] == k
  {
    assert k in multiset(KeysAscending(orgs.Keys));
  }

  lemma ScanInOrgs(orgs: map<Id, Organization>)
    ensures forall j :: 0 <= j < |KeysAscending(orgs.Keys)| ==> KeysAscending(orgs.Keys)[j] in orgs
  {
    var ids := KeysAscending(orgs.Keys);
    forall j | 0 <= j < |ids| ensures ids[j] in orgs {
      assert ids[j] in multiset(ids);
    }
  }

  lemma ScanMissesName(orgs: map<Id, Organization>, name: string)
    requires forall j :: 0 <= j < |KeysAscending(orgs.Keys)| ==> KeysAscending(orgs.Keys)[j] in orgs
    requires FirstNamed(KeysAscending(orgs.Keys), orgs, name).None?
    ensures name !in Names(orgs)
  {
    var ids := KeysAscending(orgs.Keys);
    forall k | k in orgs ensures orgs[k].name != name {
      ScanCovers(orgs, k);
      var j :| 0 <= j < |ids| && ids[j] == k;
    }
  }

  /** `Organization.query.filter_by(name=name).first()`. */
  function FindOrgByName(orgs: map<Id, Organization>, name: string): (r: Option<Id>)
    ensures r.Some? ==> r.value in orgs && orgs[r.value].name == name
    ensures r.None? <==> name !in Names(orgs)
  {
    ScanInOrgs(orgs);
    var r := FirstNamed(KeysAscending(orgs.Keys), orgs, name);
    if r.None? then
      ScanMissesName(orgs, name);
      r
    else
      assert orgs[r.value].name in Names(orgs);
      r
  }

  /**
   * `orgs'` keeps every organisation of `orgs` unchanged, and whatever it adds
   * has an id at or past the counter `next` had before.
   */
  predicate Extends(orgs: map<Id, Organization>, next: Id, orgs': map<Id, Organization>, next': Id) {
    && next <= next'
    && (forall k :: k in orgs ==> k in orgs' && orgs'[k] == orgs[k])
    && (forall k :: k in orgs' && k !in orgs ==> next <= k)
  }

  lemma ExtendsTransitive(
    o0: map<Id, Organization>, n0: Id, o1: map<Id, Organization>, n1: Id, o2: map<Id, Organization>, n2: Id)
    requires Extends(o0, n0, o1, n1) && Extends(o1, n1, o2, n2)
    ensures Extends(o0, n0, o2, n2)
  {
  }

  /** Where one row's organisation name leads: the resulting organisations and the id used. */
  datatype Resolved = Resolved(orgs: map<Id, Organization>, nextOrgId: Id, orgId: Option<Id>)

  /**
   * Find-or-create: no name gives no organisation; an existing name is
   * reused; a new name becomes one new organisation with the next free id.
   */
  function ResolveOrg(orgs: map<Id, Organization>, nextOrgId: Id, name: string): (r: Resolved)
    requires NamesUnique(orgs) && forall k :: k in orgs ==> k < nextOrgId
    ensures NamesUnique(r.orgs) && forall k :: k in r.orgs ==> k < r.nextOrgId
    ensures Extends(orgs, nextOrgId, r.orgs, r.nextOrgId)
    ensures Names(r.orgs) == Names(orgs) + (if name == "" then {} else {name})
    ensures name == "" ==> r.orgId == None
    ensures name != "" ==> r.orgId.Some? && r.orgId.value in r.orgs && r.orgs[r.orgId.value].name == name
    ensures name in Names(orgs) || name == "" ==> r.orgs == orgs
  {
    if name == "" then Resolved(orgs, nextOrgId, None)
    else
      match FindOrgByName(orgs, name)
      case Some(k) => Resolved(orgs, nextOrgId, Some(k))
      case None =>
        AddOrganizationKeepsInvariant(orgs, map[], map[], nextOrgId, name);
        Resolved(orgs[nextOrgId := Organization(name)], nextOrgId + 1, Some(nextOrgId))
  }

  // ---- the batch ----

  /** The organisations after the rows processed so far, and the issues built from them. */
  datatype Batch = Batch(orgs: map<Id, Organization>, nextOrgId: Id, issues: seq<Issue>)

  /** All rows, first to last, each resolving its organisation against the ones before it. */
  function ImportBatch(orgs: map<Id, Organization>, nextOrgId: Id, rows: seq<Row>, today: Date, now: int): (b: Batch)
    requires NamesUnique(orgs) && forall k :: k in orgs ==> k < nextOrgId
    requires ValidDate(today)
    ensures NamesUnique(b.orgs) && forall k :: k in b.orgs ==> k < b.nextOrgId
    ensures |b.issues| == |rows|
    decreases |rows|
  {
    if rows == [] then Batch(orgs, nextOrgId, [])
    else
      var prev := ImportBatch(orgs, nextOrgId, rows[..|rows| - 1], today, now);
      var last := rows[|rows| - 1];
      var r := ResolveOrg(prev.orgs, prev.nextOrgId, OrgNameOf(last));
      Batch(r.orgs, r.nextOrgId, prev.issues + [ImportedIssue(last, r.orgId, today, now)])
  }

  /** The organisation names the rows supply. */
  function RowOrgNames(rows: seq<Row>): (names: set<string>)
    ensures "" !in names
  {
    set j | 0 <= j < |rows| && OrgNameOf(rows[j]) != "" :: OrgNameOf(rows[j])
  }

  lemma RowOrgNamesSnoc(rows: seq<Row>)
    requires rows != []
    ensures var n := OrgNameOf(rows[|rows| - 1]);
      RowOrgNames(rows) == RowOrgNames(rows[..|rows| - 1]) + (if n == "" then {} else {n})
  {
    var init := rows[..|rows| - 1];
    var n := OrgNameOf(rows[|rows| - 1]);
    forall x | x in RowOrgNames(rows) ensures x in RowOrgNames(init) + (if n == "" then {} else {n}) {
      var j :| 0 <= j < |rows| && OrgNameOf(rows[j]) != "" && OrgNameOf(rows[j]) == x;
      if j < |rows| - 1 { assert init[j] == rows[j]; }
    }
    forall x | x in RowOrgNames(init) ensures x in RowOrgNames(rows) {
      var j :| 0 <= j < |init| && OrgNameOf(init[j]) != "" && OrgNameOf(init[j]) == x;
      assert rows[j] == init[j];
    }
  }

  /**
   * The batch keeps every organisation already stored, unchanged, and gives
   * the ones it creates ids from the counter on.
   */
  lemma {:induction false} ImportBatchExtends(
    orgs: map<Id, Organization>, nextOrgId: Id, rows: seq<Row>, today: Date, now: int)
    requires NamesUnique(orgs) && forall k :: k in orgs ==> k < nextOrgId
    requires ValidDate(today)
    ensures var b := ImportBatch(orgs, nextOrgId, rows, today, now);
      Extends(orgs, nextOrgId, b.orgs, b.nextOrgId)
    decreases |rows|
  {
    if rows != [] {
      var init := rows[..|rows| - 1];
      var prev := ImportBatch(orgs, nextOrgId, init, today, now);
      ImportBatchExtends(orgs, nextOrgId, init, today, now);
      var r := ResolveOrg(prev.orgs, prev.nextOrgId, OrgNameOf(rows[|rows| - 1]));
      ExtendsTransitive(orgs, nextOrgId, prev.orgs, prev.nextOrgId, r.orgs, r.nextOrgId);
    }
  }

  /**
   * The names present after the batch are the old ones plus the names the
   * rows supply; with names unique, each new name is created once.
   */
  lemma {:induction false} ImportBatchNames(
    orgs: map<Id, Organization>, nextOrgId: Id, rows: seq<Row>, today: Date, now: int)
    requires NamesUnique(orgs) && forall k :: k in orgs ==> k < nextOrgId
    requires ValidDate(today)
    ensures Names(ImportBatch(orgs, nextOrgId, rows, today, now).orgs) == Names(orgs) + RowOrgNames(rows)
    decreases |rows|
  {
    if rows != [] {
      ImportBatchNames(orgs, nextOrgId, rows[..|rows| - 1], today, now);
      RowOrgNamesSnoc(rows);
    }
  }

  /**
   * Row `j` becomes issue `j`: built from that row, with no organisation when
   * the row names none and otherwise an organisation of the batch carrying
   * exactly the row's name.
   */
  lemma {:induction false} ImportBatchIssues(
    orgs: map<Id, Organization>, nextOrgId: Id, rows: seq<Row>, today: Date, now: int, j: int)
    requires NamesUnique(orgs) && forall k :: k in orgs ==> k < nextOrgId
    requires ValidDate(today)
    requires 0 <= j < |rows|
    ensures var b := ImportBatch(orgs, nextOrgId, rows, today, now);
      var i := b.issues[j];
      && i == ImportedIssue(rows[j], i.organizationId, today, now)
      && (OrgNameOf(rows[j]) == "" ==> i.organizationId == None)
      && (OrgNameOf(rows[j]) != "" ==>
            i.organizationId.Some? && i.organizationId.value in b.orgs
            && b.orgs[i.organizationId.value].name == OrgNameOf(rows[j]))
    decreases |rows|
  {
    var init := rows[..|rows| - 1];
    var prev := ImportBatch(orgs, nextOrgId, init, today, now);
    var b := ImportBatch(orgs, nextOrgId, rows, today, now);
    if j < |rows| - 1 {
      ImportBatchIssues(orgs, nextOrgId, init, today, now, j);
      assert init[j] == rows[j];
      assert b.issues[j] == prev.issues[j];
    }
  }

  /** A name already present resolves to the organisation carrying it. */
  lemma ResolveExisting(orgs: map<Id, Organization>, nextOrgId: Id, name: string, k: Id)
    requires NamesUnique(orgs) && forall k :: k in orgs ==> k < nextOrgId
    requires name != "" && k in orgs && orgs[k].name == name
    ensures ResolveOrg(orgs, nextOrgId, name) == Resolved(orgs, nextOrgId, Some(k))
  {
    assert name in Names(orgs);
  }

  /** A new name becomes an organisation with the next free id. */
  lemma ResolveNew(orgs: map<Id, Organization>, nextOrgId: Id, name: string)
    requires NamesUnique(orgs) && forall k :: k in orgs ==> k < nextOrgId
    requires name != "" && name !in Names(orgs)
    ensures ResolveOrg(orgs, nextOrgId, name)
      == Resolved(orgs[nextOrgId := Organization(name)], nextOrgId + 1, Some(nextOrgId))
  {
  }

  /** Processing one more row extends the batch by that row alone. */
  lemma ImportBatchSnoc(
    orgs: map<Id, Organization>, nextOrgId: Id, rows: seq<Row>, row: Row, today: Date, now: int)
    requires NamesUnique(orgs) && forall k :: k in orgs ==> k < nextOrgId
    requires ValidDate(today)
    ensures var prev := ImportBatch(orgs, nextOrgId, rows, today, now);
      var r := ResolveOrg(prev.orgs, prev.nextOrgId, OrgNameOf(row));
      ImportBatch(orgs, nextOrgId, rows + [row], today, now)
        == Batch(r.orgs, r.nextOrgId, prev.issues + [ImportedIssue(row, r.orgId, today, now)])
  {
    assert (rows + [row])[..|rows + [row]| - 1] == rows;
  }

  /** Two rows naming the same new organisation create it once and share it. */
  lemma TwoRowsOneOrganization(
    orgs: map<Id, Organization>, nextOrgId: Id, r1: Row, r2: Row, today: Date, now: int)
    requires NamesUnique(orgs) && forall k :: k in orgs ==> k < nextOrgId
    requires ValidDate(today)
    requires OrgNameOf(r1) == OrgNameOf(r2) != "" && OrgNameOf(r1) !in Names(orgs)
    ensures var b := ImportBatch(orgs, nextOrgId, [r1, r2], today, now);
      && b.orgs == orgs[nextOrgId := Organization(OrgNameOf(r1))]
      && b.issues[0].organizationId == b.issues[1].organizationId == Some(nextOrgId)
  {
    var name := OrgNameOf(r1);
    ImportBatchSnoc(orgs, nextOrgId, [], r1, today, now);
    ResolveNew(orgs, nextOrgId, name);
    assert [] + [r1] == [r1];
    var b1 := ImportBatch(orgs, nextOrgId, [r1], today, now);
    ImportBatchSnoc(orgs, nextOrgId, [r1], r2, today, now);
    ResolveExisting(b1.orgs, b1.nextOrgId, name, nextOrgId);
    assert [r1] + [r2] == [r1, r2];
  }
}

/**
 * `export_csv`: the filtered issues, oldest report first, as CSV rows of nine
 * text cells under a fixed header, and the name of the downloaded file.
 */
module Export {
  import opened Wrappers
  import opened Dates
  import opened Models
  import opened Sorting
  import opened Query
  import opened CsvImport

  /** The header row, in column order. */
  const Header: seq<string> :=
    ["Title", "Description", "Organisation", "Status", "Date Reported",
     "Reported By", "Owner", "Importance", "Target Date"]

  /** The name of the issue's organisation, `""` when it has none. */
  function OrganisationName(orgs: map<Id, Organization>, orgId: Option<Id>): string {
    if orgId.Some? && orgId.value in orgs then orgs[orgId.value].name else ""
  }

  /** A date cell: `YYYY-MM-DD`, or `""` for no date. */
  function DateText(d: Option<Date>): string
    requires d.Some? ==> ValidDate(d.value)
  {
    if d.Some? then FormatDate(d.value) else ""
  }

  /** One data row, the cells in the order of `Header`. */
  function ExportRow(i: Issue, orgs: map<Id, Organization>): (row: seq<string>)
    requires IssueDatesValid(i)
    ensures |row| == 9
  {
    [i.title, i.description.GetOr(""), OrganisationName(orgs, i.organizationId), i.status,
     FormatDate(i.dateReported), i.reporter, i.owner.GetOr(""), i.importance,
     DateText(i.targetDate)]
  }

  /**
   * What each cell of a row holds: the text fields as they are, `""` for a
   * missing description, owner, organisation or target date, and dates in a
   * form that reads back as the same date.
   */
  lemma ExportRowFields(i: Issue, orgs: map<Id, Organization>)
    requires IssueDatesValid(i)
    ensures var row := ExportRow(i, orgs);
      && row[0] == i.title
      && (i.description == None ==> row[1] == "")
      && (i.description.Some? ==> row[1] == i.description.value)
      && (i.organizationId == None ==> row[2] == "")
      && (i.organizationId.Some? && i.organizationId.value in orgs ==>
            row[2] == orgs[i.organizationId.value].name)
      && row[3] == i.status
      && ParseDate(row[4]) == Some(i.dateReported)
      && row[5] == i.reporter
      && (i.owner == None ==> row[6] == "")
      && (i.owner.Some? ==> row[6] == i.owner.value)
      && row[7] == i.importance
      && (i.targetDate == None ==> row[8] == "")
      && (i.targetDate.Some? ==> ParseDate(row[8]) == Some(i.targetDate.value))
  {
    FormatThenParse(i.dateReported);
    if i.targetDate.Some? {
      FormatThenParse(i.targetDate.value);
    }
  }

  /** Past the head, `[h] + s` is `s` shifted by one. */
  lemma ConsIndex<T>(h: T, s: seq<T>)
    ensures forall k :: 1 <= k <= |s| ==> ([h] + s)[k] == s[k - 1]
  {
  }

  /** The data rows for `ids`, in that order. */
  function Rows(ids: seq<Id>, issues: map<Id, Issue>, orgs: map<Id, Organization>): (rows: seq<seq<string>>)
    requires forall j :: 0 <= j < |ids| ==> ids[j] in issues && IssueDatesValid(issues[ids[j]])
    ensures |rows| == |ids|
    ensures forall j :: 0 <= j < |ids| ==> rows[j] == ExportRow(issues[ids[j]], orgs)
    decreases |ids|
  {
    if ids == [] then [] else [ExportRow(issues[ids[0]], orgs)] + Rows(ids[1..], issues, orgs)
  }

  /** Every issue of the export view is stored and has valid dates. */
  predicate ViewIssuesStored(issues: map<Id, Issue>, f: Filter) {
    var v := ExportView(issues, f);
    forall j :: 0 <= j < |v| ==> v[j] in issues && IssueDatesValid(issues[v[j]])
  }

  lemma ExportViewListed(issues: map<Id, Issue>, f: Filter)
    requires AllDatesValid(issues)
    ensures ViewIssuesStored(issues, f)
  {
    var v := ExportView(issues, f);
    forall j | 0 <= j < |v| ensures v[j] in issues && IssueDatesValid(issues[v[j]]) {
      assert v[j] in multiset(v);
      assert v[j] in MatchingIds(issues, f);
      DatesOf(issues, v[j]);
    }
  }

  /**
   * The whole file: the header, then one row per matching issue in the
   * order of the export view.
   */
  function ExportCsv(issues: map<Id, Issue>, orgs: map<Id, Organization>, f: Filter): (csv: seq<seq<string>>)
    requires AllDatesValid(issues)
    ensures |csv| == 1 + |MatchingIds(issues, f)|
    ensures csv[0] == Header
    ensures forall j :: 0 <= j < |csv| ==> |csv[j]| == 9
  {
    ExportViewListed(issues, f);
    ViewsSameIssues(issues, f);
    var rows := Rows(ExportView(issues, f), issues, orgs);
    ConsIndex(Header, rows);
    [Header] + rows
  }

  lemma ExportSize(issues: map<Id, Issue>, orgs: map<Id, Organization>, f: Filter)
    requires AllDatesValid(issues)
    ensures |ExportView(issues, f)| == |ExportCsv(issues, orgs, f)| - 1
  {
    ViewsSameIssues(issues, f);
  }

  /** Row `k` of the file is the row of the `k`-th issue of the view. */
  lemma ExportCsvRow(issues: map<Id, Issue>, orgs: map<Id, Organization>, f: Filter, k: int)
    requires AllDatesValid(issues)
    requires 1 <= k < |ExportCsv(issues, orgs, f)|
    ensures |ExportView(issues, f)| == |ExportCsv(issues, orgs, f)| - 1
    ensures ViewIssuesStored(issues, f)
    ensures ExportCsv(issues, orgs, f)[k] == Rows(ExportView(issues, f), issues, orgs)[k - 1]
  {
    ExportSize(issues, orgs, f);
    ExportViewListed(issues, f);
    var rows := Rows(ExportView(issues, f), issues, orgs);
    assert ExportCsv(issues, orgs, f) == [Header] + rows;
    ConsIndex(Header, rows);
  }


  lemma RowsDateCell(ids: seq<Id>, issues: map<Id, Issue>, orgs: map<Id, Organization>, k: int)
    requires forall j :: 0 <= j < |ids| ==> ids[j] in issues && IssueDatesValid(issues[ids[j]])
    requires 0 <= k < |ids|
    ensures Rows(ids, issues, orgs)[k][4] == FormatDate(issues[ids[k]].dateReported)
  {
  }

  /** Row `k + 1` of the file carries the report date of the `k`-th issue of the view. */
  lemma DateCellOf(issues: map<Id, Issue>, orgs: map<Id, Organization>, f: Filter, k: int)
    requires AllDatesValid(issues)
    requires 0 <= k < |ExportView(issues, f)|
    ensures var v := ExportView(issues, f);
      && v[k] in issues && IssueDatesValid(issues[v[k]])
      && k + 1 < |ExportCsv(issues, orgs, f)|
      && ExportCsv(issues, orgs, f)[k + 1][4] == FormatDate(issues[v[k]].dateReported)
  {
    ExportSize(issues, orgs, f);
    ExportCsvRow(issues, orgs, f, k + 1);
    RowsDateCell(ExportView(issues, f), issues, orgs, k);
  }

  /**
   * Down the file, the `Date Reported` column never goes back in time: the
   * cells of the rows for the `i`-th and `j`-th issues of the view are their
   * printed report dates (which read back as those dates, by
   * `FormatThenParse`), and the earlier row's date is on or before the later one's.
   */
  lemma ExportDatesAscending(issues: map<Id, Issue>, orgs: map<Id, Organization>, f: Filter, i: int, j: int)
    requires AllDatesValid(issues)
    requires 0 <= i < j < |ExportView(issues, f)|
    ensures var csv, v := ExportCsv(issues, orgs, f), ExportView(issues, f);
      && j + 1 < |csv| && v[i] in issues && v[j] in issues
      && IssueDatesValid(issues[v[i]]) && IssueDatesValid(issues[v[j]])
      && csv[i + 1][4] == FormatDate(issues[v[i]].dateReported)
      && csv[j + 1][4] == FormatDate(issues[v[j]].dateReported)
      && DateLe(issues[v[i]].dateReported, issues[v[j]].dateReported)
  {
    DateCellOf(issues, orgs, f, i);
    DateCellOf(issues, orgs, f, j);
    ExportViewOrder(issues, f, i, j);
  }

  /** `f'issues_{current_date}.csv'`. */
  function ExportFilename(today: Date): (name: string)
    requires ValidDate(today)
    ensures |name| == 21
  {
    "issues_" + FormatDate(today) + ".csv"
  }

  /** The name is `issues_`, the date that reads back as today, then `.csv`. */
  lemma ExportFilenameParts(today: Date)
    requires ValidDate(today)
    ensures var name := ExportFilename(today);
      && name[..7] == "issues_"
      && ParseDate(name[7..17]) == Some(today)
      && name[17..] == ".csv"
  {
    var name := ExportFilename(today);
    assert name[7..17] == FormatDate(today);
    FormatThenParse(today);
  }

  // ---- reading an exported row back through the import ----

  lemma HeaderDistinct()
    ensures Distinct(Header)
  {
  }

  /** An exported row, read by the import under the same header. */
  function ReadBack(i: Issue, orgs: map<Id, Organization>): Row
    requires IssueDatesValid(i)
  {
    RowMap(Header, ExportRow(i, orgs))
  }

  /** The cells of a row exported from `i`, looked up by column name. */
  predicate CellsOf(row: Row, i: Issue, orgs: map<Id, Organization>)
    requires IssueDatesValid(i)
  {
    && "Title" in row && row["Title"] == i.title
    && "Description" in row && row["Description"] == i.description.GetOr("")
    && "Organisation" in row && row["Organisation"] == OrganisationName(orgs, i.organizationId)
    && "Status" in row && row["Status"] == i.status
    && "Date Reported" in row && row["Date Reported"] == FormatDate(i.dateReported)
    && "Owner" in row && row["Owner"] == i.owner.GetOr("")
    && "Importance" in row && row["Importance"] == i.importance
    && "Target Date" in row && row["Target Date"] == DateText(i.targetDate)
    && "Reporter" !in row && "Organization" !in row
  }

  /** `DictReader` pairs each cell of an exported row with its header name. */
  lemma ReadBackZip(i: Issue, orgs: map<Id, Organization>)
    requires IssueDatesValid(i)
    ensures var row, cells := ReadBack(i, orgs), ExportRow(i, orgs);
      (forall j :: 0 <= j < 9 ==> Header[j] in row && row[Header[j]] == cells[j])
  {
    HeaderDistinct();
    var cells := ExportRow(i, orgs);
    RowMapLookup(Header, cells);
  }

  /** The export has no `Reporter` column. */
  lemma ReadBackNoReporter(i: Issue, orgs: map<Id, Organization>)
    requires IssueDatesValid(i)
    ensures "Reporter" !in ReadBack(i, orgs)
  {
    RowMapMissing(Header, ExportRow(i, orgs), "Reporter");
  }

  /** The export spells its organisation column `Organisation` only. */
  lemma ReadBackNoOrganization(i: Issue, orgs: map<Id, Organization>)
    requires IssueDatesValid(i)
    ensures "Organization" !in ReadBack(i, orgs)
  {
    RowMapMissing(Header, ExportRow(i, orgs), "Organization");
  }

  lemma CellsFromZip(row: Row, i: Issue, orgs: map<Id, Organization>)
    requires IssueDatesValid(i)
    requires forall j :: 0 <= j < 9 ==> Header[j] in row && row[Header[j]] == ExportRow(i, orgs)[j]
    requires "Reporter" !in row && "Organization" !in row
    ensures CellsOf(row, i, orgs)
  {
    assert Header[0] == "Title" && Header[1] == "Description" && Header[2] == "Organisation";
    assert Header[3] == "Status" && Header[4] == "Date Reported" && Header[6] == "Owner";
    assert Header[7] == "Importance" && Header[8] == "Target Date";
  }

  lemma ReadBackCells(i: Issue, orgs: map<Id, Organization>)
    requires IssueDatesValid(i)
    ensures CellsOf(ReadBack(i, orgs), i, orgs)
  {
    ReadBackZip(i, orgs);
    ReadBackNoReporter(i, orgs);
    ReadBackNoOrganization(i, orgs);
    CellsFromZip(ReadBack(i, orgs), i, orgs);
  }

  /**
   * The organisation an exported issue comes back with: its own, unless it
   * has none or its organisation is named `""`, which the import reads as no
   * organisation.
   */
  function ReimportedOrg(i: Issue, orgs: map<Id, Organization>): Option<Id> {
    if OrganisationName(orgs, i.organizationId) == "" then None else i.organizationId
  }

  /** The organisation the import resolves for such a row is the issue's own, if it has a name. */
  lemma ResolveCells(row: Row, i: Issue, orgs: map<Id, Organization>, nextOrgId: Id)
    requires NamesUnique(orgs) && forall k :: k in orgs ==> k < nextOrgId
    requires IssueDatesValid(i) && OrgRefValid(orgs, i)
    requires CellsOf(row, i, orgs)
    ensures ResolveOrg(orgs, nextOrgId, OrgNameOf(row)) == Resolved(orgs, nextOrgId, ReimportedOrg(i, orgs))
  {
    if ReimportedOrg(i, orgs).Some? {
      ResolveExisting(orgs, nextOrgId, OrgNameOf(row), i.organizationId.value);
    }
  }

  /** The issue the import builds from such a row, under organisation `orgId`. */
  lemma ImportCells(row: Row, i: Issue, orgs: map<Id, Organization>, orgId: Option<Id>, today: Date, now: int)
    requires ValidDate(today) && IssueDatesValid(i)
    requires CellsOf(row, i, orgs)
    ensures ImportedIssue(row, orgId, today, now)
      == i.(reporter := "",
            description := Some(i.description.GetOr("")),
            owner := if i.owner == Some("") then None else i.owner,
            organizationId := orgId,
            displayOrder := DefaultDisplayOrder,
            updatedAt := now)
  {
    FormatThenParse(i.dateReported);
    if i.targetDate.Some? {
      FormatThenParse(i.targetDate.value);
    }
  }

  /**
   * Importing an exported row gives back the issue, under the organisation
   * it had, except that the reporter is lost (the export writes the column
   * `Reported By`, the import reads `Reporter`), a missing description comes
   * back empty, an empty owner comes back missing, an organisation named
   * `""` is dropped, and the display order and update time are those of a
   * new issue. No organisation is created.
   */
  lemma ExportThenImport(i: Issue, orgs: map<Id, Organization>, nextOrgId: Id, today: Date, now: int)
    requires NamesUnique(orgs) && forall k :: k in orgs ==> k < nextOrgId
    requires ValidDate(today) && IssueDatesValid(i) && OrgRefValid(orgs, i)
    ensures var row := ReadBack(i, orgs);
      var r := ResolveOrg(orgs, nextOrgId, OrgNameOf(row));
      && r.orgs == orgs
      && (i.organizationId.Some? && orgs[i.organizationId.value].name == "" ==> r.orgId == None)
      && (i.organizationId.Some? && orgs[i.organizationId.value].name != "" ==> r.orgId == i.organizationId)
      && ImportedIssue(row, r.orgId, today, now)
         == i.(reporter := "",
               description := Some(i.description.GetOr("")),
               owner := if i.owner == Some("") then None else i.owner,
               organizationId := ReimportedOrg(i, orgs),
               displayOrder := DefaultDisplayOrder,
               updatedAt := now)
  {
    var row := ReadBack(i, orgs);
    ReadBackCells(i, orgs);
    ResolveCells(row, i, orgs, nextOrgId);
    ImportCells(row, i, orgs, ReimportedOrg(i, orgs), today, now);
  }
}

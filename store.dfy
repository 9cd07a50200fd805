/**
 * The database as one object: the three tables as maps from id to record and
 * the next id each table hands out. Every route that changes data is one
 * method; a method that fails leaves the store as it was, which is what the
 * session's single commit per request gives.
 */
module Store {
  import opened Wrappers
  import opened Dates
  import opened Models
  import opened Requests
  import opened Reorder
  import opened CsvImport

  // ---- the upload checks of `import_csv` ----

  predicate EndsWith(s: string, suffix: string) {
    |suffix| <= |s| && s[|s| - |suffix|..] == suffix
  }

  /** `'file' not in request.files or file.filename == ''`. */
  predicate NoFile(upload: Option<Upload>) {
    upload.None? || upload.value.filename == ""
  }

  // ---- inserting a list of new issues in one commit ----

  /** One more element of `s` extends its prefix by that element. */
  lemma PrefixSnoc<T>(s: seq<T>, i: int)
    requires 0 <= i < |s|
    ensures s[..i + 1] == s[..i] + [s[i]]
  {
  }

  /** The issues of `s` stored under consecutive ids from `start` on. */
  function Numbered(start: Id, s: seq<Issue>): map<Id, Issue>
    decreases |s|
  {
    if s == [] then map[]
    else Numbered(start, s[..|s| - 1])[start + |s| - 1 := s[|s| - 1]]
  }

  /** Issue `j` of `s` is stored under `start + j`, and nothing else is stored. */
  lemma {:induction false} NumberedAt(start: Id, s: seq<Issue>)
    ensures forall k :: k in Numbered(start, s) <==> start <= k < start + |s|
    ensures forall j :: 0 <= j < |s| ==> Numbered(start, s)[start + j] == s[j]
    decreases |s|
  {
    if s != [] {
      NumberedAt(start, s[..|s| - 1]);
    }
  }

  /** Storing one more issue under the next id extends the numbered map by it. */
  lemma AddNumberedSnoc(base: map<Id, Issue>, start: Id, s: seq<Issue>, x: Issue)
    ensures (base + Numbered(start, s))[start + |s| := x] == base + Numbered(start, s + [x])
  {
    assert (s + [x])[..|s + [x]| - 1] == s;
  }

  /**
   * A batch leaves the integrity rules intact: organisations already stored
   * are kept as they were, and every imported issue refers to no
   * organisation or to one of the batch.
   */
  lemma ImportKeepsInvariant(
    orgs: map<Id, Organization>, nextOrgId: Id, issues: map<Id, Issue>, nextIssueId: Id,
    comments: map<Id, Comment>, rows: seq<Row>, today: Date, now: int)
    requires StoreInvariant(orgs, issues, comments) && ValidDate(today)
    requires forall k :: k in orgs ==> k < nextOrgId
    requires forall k :: k in issues ==> k < nextIssueId
    ensures var b := ImportBatch(orgs, nextOrgId, rows, today, now);
      && StoreInvariant(b.orgs, issues + Numbered(nextIssueId, b.issues), comments)
      && (forall k :: k in b.orgs ==> k < b.nextOrgId)
      && (forall k :: k in issues + Numbered(nextIssueId, b.issues) ==> k < nextIssueId + |rows|)
  {
    var b := ImportBatch(orgs, nextOrgId, rows, today, now);
    var added := Numbered(nextIssueId, b.issues);
    NumberedAt(nextIssueId, b.issues);
    ImportBatchExtends(orgs, nextOrgId, rows, today, now);
    forall j | 0 <= j < |rows| ensures OrgRefValid(b.orgs, b.issues[j]) && IssueDatesValid(b.issues[j]) {
      ImportBatchIssues(orgs, nextOrgId, rows, today, now, j);
    }
    forall k | k in issues + added
      ensures OrgRefValid(b.orgs, (issues + added)[k]) && IssueDatesValid((issues + added)[k])
    {
      if k in added {
        assert added[k] == b.issues[k - nextIssueId];
      }
    }
  }

  /**
   * The first loop of `import_csv`: each row in turn is mapped to an issue,
   * finding or creating its organisation among those known so far.
   */
  method MapRows(orgs: map<Id, Organization>, nextOrgId: Id, rows: seq<Row>, today: Date, now: int)
    returns (orgs': map<Id, Organization>, nextOrgId': Id, pending: seq<Issue>)
    requires NamesUnique(orgs) && forall k :: k in orgs ==> k < nextOrgId
    requires ValidDate(today)
    ensures Batch(orgs', nextOrgId', pending) == ImportBatch(orgs, nextOrgId, rows, today, now)
  {
    orgs', nextOrgId', pending := orgs, nextOrgId, [];
    var i := 0;
    while i < |rows|
      invariant 0 <= i <= |rows|
      invariant NamesUnique(orgs') && forall k :: k in orgs' ==> k < nextOrgId'
      invariant Batch(orgs', nextOrgId', pending) == ImportBatch(orgs, nextOrgId, rows[..i], today, now)
    {
      var res := ResolveOrg(orgs', nextOrgId', OrgNameOf(rows[i]));
      ImportBatchSnoc(orgs, nextOrgId, rows[..i], rows[i], today, now);
      PrefixSnoc(rows, i);
      orgs', nextOrgId' := res.orgs, res.nextOrgId;
      pending := pending + [ImportedIssue(rows[i], res.orgId, today, now)];
      i := i + 1;
    }
    assert rows[..i] == rows;
  }

  /** The second loop of `import_csv`: every mapped issue is added under the next free id. */
  method AddAll(issues: map<Id, Issue>, start: Id, pending: seq<Issue>) returns (issues': map<Id, Issue>)
    ensures issues' == issues + Numbered(start, pending)
  {
    issues' := issues;
    var j := 0;
    while j < |pending|
      invariant 0 <= j <= |pending|
      invariant issues' == issues + Numbered(start, pending[..j])
    {
      AddNumberedSnoc(issues, start, pending[..j], pending[j]);
      PrefixSnoc(pending, j);
      issues' := issues'[start + j := pending[j]];
      j := j + 1;
    }
    assert pending[..j] == pending;
  }

  class IssueStore {
    var orgs: map<Id, Organization>
    var issues: map<Id, Issue>
    var comments: map<Id, Comment>
    var nextOrgId: Id
    var nextIssueId: Id
    var nextCommentId: Id

    /** The integrity rules hold and every stored id is below its table's counter. */
    ghost predicate Valid()
      reads this
    {
      && StoreInvariant(orgs, issues, comments)
      && (forall k :: k in orgs ==> k < nextOrgId)
      && (forall k :: k in issues ==> k < nextIssueId)
      && (forall k :: k in comments ==> k < nextCommentId)
    }

    /** The empty database `db.create_all()` leaves; the first row of each table gets id 1. */
    constructor ()
      ensures Valid()
      ensures orgs == map[] && issues == map[] && comments == map[]
      ensures nextOrgId == 1 && nextIssueId == 1 && nextCommentId == 1
    {
      orgs, issues, comments := map[], map[], map[];
      nextOrgId, nextIssueId, nextCommentId := 1, 1, 1;
    }

    /**
     * `create_issue`: the issue built from the body is stored under a new id;
     * a missing required field, an unreadable date or an unknown organisation
     * fails and stores nothing.
     */
    method CreateIssue(data: IssueData, today: Date, now: int) returns (r: Result<Id>)
      requires Valid() && ValidDate(today)
      modifies this
      ensures Valid()
      ensures var built := NewIssue(data, today, now);
        && (built.Err? ==> r == Err(built.error) && unchanged(this))
        && (built.Ok? && !OrgRefValid(old(orgs), built.value) ==> r == Err(ForeignKeyViolation) && unchanged(this))
        && (built.Ok? && OrgRefValid(old(orgs), built.value) ==>
              && r == Ok(old(nextIssueId))
              && issues == old(issues)[old(nextIssueId) := built.value]
              && old(nextIssueId) !in old(issues)
              && nextIssueId == old(nextIssueId) + 1
              && orgs == old(orgs) && comments == old(comments)
              && nextOrgId == old(nextOrgId) && nextCommentId == old(nextCommentId))
    {
      var built := NewIssue(data, today, now);
      if built.Err? {
        return Err(built.error);
      }
      if !OrgRefValid(orgs, built.value) {
        return Err(ForeignKeyViolation);
      }
      PutIssueKeepsInvariant(orgs, issues, comments, nextIssueId, built.value);
      issues := issues[nextIssueId := built.value];
      r := Ok(nextIssueId);
      nextIssueId := nextIssueId + 1;
    }

    /**
     * `update_issue`: an unknown id is not found; otherwise the issue is
     * replaced by its update, unless the target date is unreadable or the
     * organisation unknown, which change nothing.
     */
    method UpdateIssue(id: Id, data: IssueData, now: int) returns (r: Result<()>)
      requires Valid()
      modifies this
      ensures Valid()
      ensures id !in old(issues) ==> r == Err(NotFound) && unchanged(this)
      ensures id in old(issues) ==>
        var updated := UpdatedIssue(old(issues)[id], data, now);
        && (updated.Err? ==> r == Err(updated.error) && unchanged(this))
        && (updated.Ok? && !OrgRefValid(old(orgs), updated.value) ==> r == Err(ForeignKeyViolation) && unchanged(this))
        && (updated.Ok? && OrgRefValid(old(orgs), updated.value) ==>
              && r == Ok(())
              && issues == old(issues)[id := updated.value]
              && orgs == old(orgs) && comments == old(comments)
              && nextOrgId == old(nextOrgId) && nextIssueId == old(nextIssueId)
              && nextCommentId == old(nextCommentId))
    {
      if id !in issues {
        return Err(NotFound);
      }
      var updated := UpdatedIssue(issues[id], data, now);
      if updated.Err? {
        return Err(updated.error);
      }
      if !OrgRefValid(orgs, updated.value) {
        return Err(ForeignKeyViolation);
      }
      PutIssueKeepsInvariant(orgs, issues, comments, id, updated.value);
      issues := issues[id := updated.value];
      r := Ok(());
    }

    /** `delete_issue`: the issue's comments go first, then the issue itself. */
    method DeleteIssue(id: Id) returns (r: Result<()>)
      requires Valid()
      modifies this
      ensures Valid()
      ensures id !in old(issues) ==> r == Err(NotFound) && unchanged(this)
      ensures id in old(issues) ==>
        && r == Ok(())
        && issues == old(issues) - {id}
        && comments == CommentsWithout(old(comments), id)
        && orgs == old(orgs)
        && nextOrgId == old(nextOrgId) && nextIssueId == old(nextIssueId)
        && nextCommentId == old(nextCommentId)
    {
      if id !in issues {
        return Err(NotFound);
      }
      RemoveIssueKeepsInvariant(orgs, issues, comments, id);
      comments := CommentsWithout(comments, id);
      issues := issues - {id};
      r := Ok(());
    }

    /** `add_comment`: a comment on a stored issue, with author and body both required. */
    method AddComment(issueId: Id, data: CommentData) returns (r: Result<()>)
      requires Valid()
      modifies this
      ensures Valid()
      ensures issueId !in old(issues) ==> r == Err(NotFound) && unchanged(this)
      ensures issueId in old(issues) ==>
        var built := NewComment(issueId, data);
        && (built.Err? ==> r == Err(built.error) && unchanged(this))
        && (built.Ok? ==>
              && r == Ok(())
              && comments == old(comments)[old(nextCommentId) := built.value]
              && old(nextCommentId) !in old(comments)
              && nextCommentId == old(nextCommentId) + 1
              && orgs == old(orgs) && issues == old(issues)
              && nextOrgId == old(nextOrgId) && nextIssueId == old(nextIssueId))
    {
      if issueId !in issues {
        return Err(NotFound);
      }
      var built := NewComment(issueId, data);
      if built.Err? {
        return Err(built.error);
      }
      AddCommentKeepsInvariant(orgs, issues, comments, nextCommentId, built.value);
      comments := comments[nextCommentId := built.value];
      nextCommentId := nextCommentId + 1;
      r := Ok(());
    }

    /** `create_organization`: a name already in use is refused and nothing is stored. */
    method CreateOrganization(name: Field<string>) returns (r: Result<Id>)
      requires Valid()
      modifies this
      ensures Valid()
      ensures name.Absent? ==> r == Err(MissingField("name")) && unchanged(this)
      ensures name.Given? && name.value in Names(old(orgs)) ==> r == Err(NameExists) && unchanged(this)
      ensures name.Given? && name.value !in Names(old(orgs)) ==>
        && r == Ok(old(nextOrgId))
        && orgs == old(orgs)[old(nextOrgId) := Organization(name.value)]
        && old(nextOrgId) !in old(orgs)
        && Names(orgs) == Names(old(orgs)) + {name.value}
        && nextOrgId == old(nextOrgId) + 1
        && issues == old(issues) && comments == old(comments)
        && nextIssueId == old(nextIssueId) && nextCommentId == old(nextCommentId)
    {
      if name.Absent? {
        return Err(MissingField("name"));
      }
      var existing := FindOrgByName(orgs, name.value);
      if existing.Some? {
        return Err(NameExists);
      }
      AddOrganizationKeepsInvariant(orgs, issues, comments, nextOrgId, name.value);
      orgs := orgs[nextOrgId := Organization(name.value)];
      r := Ok(nextOrgId);
      nextOrgId := nextOrgId + 1;
    }

    /**
     * `delete_organization`: refused, with the organisation's name and the
     * number of issues that use it, while that number is positive.
     */
    method DeleteOrganization(orgId: Id) returns (r: Result<()>)
      requires Valid()
      modifies this
      ensures Valid()
      ensures orgId !in old(orgs) ==> r == Err(NotFound) && unchanged(this)
      ensures orgId in old(orgs) && IssueCount(old(issues), orgId) > 0 ==>
        r == Err(OrganizationInUse(old(orgs)[orgId].name, IssueCount(old(issues), orgId))) && unchanged(this)
      ensures orgId in old(orgs) && IssueCount(old(issues), orgId) == 0 ==>
        && r == Ok(())
        && orgs == old(orgs) - {orgId}
        && issues == old(issues) && comments == old(comments)
        && nextOrgId == old(nextOrgId) && nextIssueId == old(nextIssueId)
        && nextCommentId == old(nextCommentId)
    {
      if orgId !in orgs {
        return Err(NotFound);
      }
      var count := IssueCount(issues, orgId);
      if count > 0 {
        return Err(OrganizationInUse(orgs[orgId].name, count));
      }
      RemoveOrganizationKeepsInvariant(orgs, issues, comments, orgId);
      orgs := orgs - {orgId};
      r := Ok(());
    }

    /**
     * `reorder_issues`: each listed id of a stored issue gets its position as
     * display order and a fresh update time, in list order; an empty list is
     * refused.
     */
    method ReorderIssues(ids: seq<Id>, now: int) returns (r: Result<()>)
      requires Valid()
      modifies this
      ensures Valid()
      ensures ids == [] ==> r == Err(NoIssueIds) && unchanged(this)
      ensures ids != [] ==>
        && r == Ok(())
        && issues == Reordered(old(issues), ids, now)
        && orgs == old(orgs) && comments == old(comments)
        && nextOrgId == old(nextOrgId) && nextIssueId == old(nextIssueId)
        && nextCommentId == old(nextCommentId)
    {
      if ids == [] {
        return Err(NoIssueIds);
      }
      var before := issues;
      var current := issues;
      var i := 0;
      while i < |ids|
        invariant 0 <= i <= |ids|
        invariant current == Reordered(before, ids[..i], now)
      {
        assert ids[..i + 1][..i] == ids[..i];
        var k := ids[i];
        if k in current {
          current := current[k := current[k].(displayOrder := i, updatedAt := now)];
        }
        i := i + 1;
      }
      assert ids[..i] == ids;
      ReorderKeepsInvariant(orgs, before, comments, ids, now);
      issues := current;
      r := Ok(());
    }

    /**
     * `import_csv`: without a file, or with one not named `*.csv`, nothing is
     * stored. Otherwise every row is mapped in turn, creating organisations
     * as it goes, and then all the new issues are stored together under the
     * next ids; the count reported is the number of rows.
     */
    method ImportCsv(upload: Option<Upload>, today: Date, now: int) returns (r: Result<nat>)
      requires Valid() && ValidDate(today)
      modifies this
      ensures Valid()
      ensures NoFile(upload) ==> r == Err(NoFileSelected) && unchanged(this)
      ensures !NoFile(upload) && !EndsWith(upload.value.filename, ".csv") ==> r == Err(NotCsv) && unchanged(this)
      ensures !NoFile(upload) && EndsWith(upload.value.filename, ".csv") ==>
        var rows := upload.value.rows;
        var b := ImportBatch(old(orgs), old(nextOrgId), rows, today, now);
        && r == Ok(|rows|)
        && orgs == b.orgs && nextOrgId == b.nextOrgId
        && issues == old(issues) + Numbered(old(nextIssueId), b.issues)
        && nextIssueId == old(nextIssueId) + |rows|
        && comments == old(comments) && nextCommentId == old(nextCommentId)
    {
      if NoFile(upload) {
        return Err(NoFileSelected);
      }
      if !EndsWith(upload.value.filename, ".csv") {
        return Err(NotCsv);
      }
      var rows := upload.value.rows;
      var orgs0, next0, issues0, start := orgs, nextOrgId, issues, nextIssueId;
      ImportKeepsInvariant(orgs0, next0, issues0, start, comments, rows, today, now);
      var o, n, pending := MapRows(orgs0, next0, rows, today, now);
      var m := AddAll(issues0, start, pending);
      orgs, nextOrgId := o, n;
      issues, nextIssueId := m, start + |rows|;
      r := Ok(|rows|);
    }
  }
}

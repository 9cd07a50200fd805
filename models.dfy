/**
 * The three persisted records of models.py (Organization, Issue, Comment), the
 * column defaults, the error kinds of the operations, and the integrity rules
 * the schema declares: non-null columns (by the field types), unique organisation
 * names, and the two foreign keys. Ids are the keys of the store's maps, so
 * the records themselves carry no id.
 */
module Models {
  import opened Wrappers
  import opened Dates

  type Id = int

  datatype Organization = Organization(name: string)

  datatype Issue = Issue(
    title: string,                // non-null
    description: Option<string>,  // nullable text
    reporter: string,             // non-null
    owner: Option<string>,        // nullable
    organizationId: Option<Id>,   // nullable foreign key to Organization
    status: string,
    importance: string,
    dateReported: Date,
    targetDate: Option<Date>,     // nullable
    displayOrder: int,
    updatedAt: int)

  datatype Comment = Comment(issueId: Id, author: string, body: string)

  const DefaultStatus: string := "Open"
  const DefaultImportance: string := "Medium"
  const DefaultDisplayOrder: int := 0

  datatype Error =
    | NotFound                                         // get_or_404
    | MissingField(field: string)                      // data['title'] raising KeyError
    | InvalidDate(text: string)                        // strptime raising ValueError
    | ForeignKeyViolation                              // a reference to a missing row
    | NameExists                                       // 'Organisation name already exists'
    | OrganizationInUse(name: string, issueCount: nat) // delete blocked by issues
    | NoIssueIds                                       // 'No issue IDs provided'
    | NoFileSelected                                   // import without a file
    | NotCsv                                           // import of a file not named *.csv

  datatype Result<+T> = Ok(value: T) | Err(error: Error)

  // ---- integrity rules ----

  /** `name` is declared unique. */
  predicate NamesUnique(orgs: map<Id, Organization>) {
    forall a, b :: a in orgs && b in orgs && orgs[a].name == orgs[b].name ==> a == b
  }

  predicate IssueDatesValid(i: Issue) {
    ValidDate(i.dateReported) && (i.targetDate.Some? ==> ValidDate(i.targetDate.value))
  }

  /** The issue's organisation, when set, is a stored organisation. */
  predicate OrgRefValid(orgs: map<Id, Organization>, i: Issue) {
    i.organizationId.Some? ==> i.organizationId.value in orgs
  }

  predicate IssuesValid(orgs: map<Id, Organization>, issues: map<Id, Issue>) {
    forall k :: k in issues ==> OrgRefValid(orgs, issues[k]) && IssueDatesValid(issues[k])
  }

  /** Every comment belongs to a stored issue. */
  predicate CommentsValid(issues: map<Id, Issue>, comments: map<Id, Comment>) {
    forall c :: c in comments ==> comments[c].issueId in issues
  }

  predicate StoreInvariant(orgs: map<Id, Organization>, issues: map<Id, Issue>, comments: map<Id, Comment>) {
    NamesUnique(orgs) && IssuesValid(orgs, issues) && CommentsValid(issues, comments)
  }

  // ---- derived reads used by several operations ----

  /** The set of organisation names in the store. */
  function Names(orgs: map<Id, Organization>): set<string> {
    set k | k in orgs :: orgs[k].name
  }

  /** The ids of the issues that reference organisation `orgId`. */
  function ReferencingIssues(issues: map<Id, Issue>, orgId: Id): (r: set<Id>)
    ensures forall k :: k in r <==> k in issues && issues[k].organizationId == Some(orgId)
  {
    set k | k in issues && issues[k].organizationId == Some(orgId)
  }

  /** `Issue.query.filter_by(organization_id=org_id).count()`. */
  function IssueCount(issues: map<Id, Issue>, orgId: Id): nat {
    |ReferencingIssues(issues, orgId)|
  }

  /** The count is positive exactly when some issue references the organisation. */
  lemma IssueCountPositive(issues: map<Id, Issue>, orgId: Id)
    ensures IssueCount(issues, orgId) > 0 <==> exists k :: k in issues && issues[k].organizationId == Some(orgId)
  {
    var r := ReferencingIssues(issues, orgId);
    if k :| k in issues && issues[k].organizationId == Some(orgId) {
      assert k in r;
    }
    if !exists k :: k in issues && issues[k].organizationId == Some(orgId) {
      assert r == {};
    }
  }

  /** The comments that remain after every comment of `issueId` is deleted. */
  function CommentsWithout(comments: map<Id, Comment>, issueId: Id): (r: map<Id, Comment>)
    ensures forall c :: c in r <==> c in comments && comments[c].issueId != issueId
    ensures forall c :: c in r ==> r[c] == comments[c]
  {
    map c | c in comments && comments[c].issueId != issueId :: comments[c]
  }

  // ---- how the elementary changes keep the integrity rules ----

  lemma AddOrganizationKeepsInvariant(
    orgs: map<Id, Organization>, issues: map<Id, Issue>, comments: map<Id, Comment>, id: Id, name: string)
    requires StoreInvariant(orgs, issues, comments)
    requires id !in orgs && name !in Names(orgs)
    ensures StoreInvariant(orgs[id := Organization(name)], issues, comments)
    ensures Names(orgs[id := Organization(name)]) == Names(orgs) + {name}
  {
    var orgs' := orgs[id := Organization(name)];
    forall a, b | a in orgs' && b in orgs' && orgs'[a].name == orgs'[b].name ensures a == b {
      if a != id { assert orgs[a].name in Names(orgs); }
      if b != id { assert orgs[b].name in Names(orgs); }
    }
    assert Names(orgs') == Names(orgs) + {name} by {
      forall n | n in Names(orgs') ensures n in Names(orgs) + {name} {
        var k :| k in orgs' && orgs'[k].name == n;
        if k != id { assert orgs[k].name in Names(orgs); }
      }
      forall n | n in Names(orgs) + {name} ensures n in Names(orgs') {
        if n == name { assert orgs'[id].name == n; }
        else { var k :| k in orgs && orgs[k].name == n; assert orgs'[k].name == n; }
      }
    }
  }

  lemma RemoveOrganizationKeepsInvariant(
    orgs: map<Id, Organization>, issues: map<Id, Issue>, comments: map<Id, Comment>, id: Id)
    requires StoreInvariant(orgs, issues, comments)
    requires IssueCount(issues, id) == 0
    ensures StoreInvariant(orgs - {id}, issues, comments)
  {
    IssueCountPositive(issues, id);
  }

  lemma PutIssueKeepsInvariant(
    orgs: map<Id, Organization>, issues: map<Id, Issue>, comments: map<Id, Comment>, id: Id, i: Issue)
    requires StoreInvariant(orgs, issues, comments)
    requires OrgRefValid(orgs, i) && IssueDatesValid(i)
    ensures StoreInvariant(orgs, issues[id := i], comments)
  {
  }

  lemma RemoveIssueKeepsInvariant(
    orgs: map<Id, Organization>, issues: map<Id, Issue>, comments: map<Id, Comment>, id: Id)
    requires StoreInvariant(orgs, issues, comments)
    ensures StoreInvariant(orgs, issues - {id}, CommentsWithout(comments, id))
  {
  }

  lemma AddCommentKeepsInvariant(
    orgs: map<Id, Organization>, issues: map<Id, Issue>, comments: map<Id, Comment>, id: Id, c: Comment)
    requires StoreInvariant(orgs, issues, comments)
    requires c.issueId in issues
    ensures StoreInvariant(orgs, issues, comments[id := c])
  {
  }
}

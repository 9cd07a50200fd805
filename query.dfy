/**
 * The read side shared by the list view (`index`) and the CSV export
 * (`export_csv`): the filter built from the four request arguments, the two
 * orderings, and the distinct status and owner lists offered for filtering.
 */
module Query {
  import opened Wrappers
  import opened Dates
  import opened Models
  import opened Sorting

  /** The request arguments `status`, `owner`, `organization` and `q`; `""` when not given. */
  datatype Filter = Filter(status: string, owner: string, organization: string, q: string)

  const NoFilter: Filter := Filter("", "", "", "")

  /** One `query.filter(...)` call. */
  datatype Clause =
    | StatusIs(status: string)
    | OwnerIs(owner: string)
    | OrganizationIs(organization: string)
    | TextContains(q: string)

  /** The clauses added to the query: one for each argument that is not empty. */
  function Clauses(f: Filter): seq<Clause> {
    (if f.status != "" then [StatusIs(f.status)] else [])
    + (if f.owner != "" then [OwnerIs(f.owner)] else [])
    + (if f.organization != "" then [OrganizationIs(f.organization)] else [])
    + (if f.q != "" then [TextContains(f.q)] else [])
  }

  // ---- substrings (`Column.contains`) ----

  /** `q` occurs in `s` starting at position `k`. */
  predicate OccursAt(s: string, q: string, k: int) {
    0 <= k && k + |q| <= |s| && s[k..k + |q|] == q
  }

  /** Whether `q` is a substring of `s`, tested one start position at a time. */
  predicate Contains(s: string, q: string)
    decreases |s|
  {
    q <= s || (s != [] && Contains(s[1..], q))
  }

  /** A slice of the tail is the slice of the whole one position further on. */
  lemma TailSlice<T>(s: seq<T>, k: int, n: int)
    requires 0 <= k && 0 <= n && k + 1 + n <= |s|
    ensures s[1..][k..k + n] == s[k + 1..k + 1 + n]
  {
  }

  lemma {:induction false} ContainsIff(s: string, q: string)
    ensures Contains(s, q) <==> exists k :: OccursAt(s, q, k)
    decreases |s|
  {
    if q <= s {
      assert OccursAt(s, q, 0);
    } else if s != [] {
      ContainsIff(s[1..], q);
      if k :| OccursAt(s[1..], q, k) {
        TailSlice(s, k, |q|);
        assert OccursAt(s, q, k + 1);
      }
      if k :| OccursAt(s, q, k) {
        assert k != 0;
        TailSlice(s, k - 1, |q|);
        assert OccursAt(s[1..], q, k - 1);
      }
    } else {
      assert forall k :: !OccursAt(s, q, k);
    }
  }

  // ---- the organisation argument ----

  /**
   * The organisation argument arrives as text and is compared with the
   * integer column; the database converts text that is a decimal integer.
   * A successful parse is the id written out, possibly with leading zeros.
   */
  function ParseId(s: string): (r: Option<Id>)
    ensures r.Some? <==> s != "" && AllDigits(s)
    ensures r.Some? ==> r.value == DigitsValue(s) && PadDecimal(r.value, |s|) == s
  {
    if s != "" && AllDigits(s) then
      DigitsRoundTrip(s);
      Some(DigitsValue(s))
    else None
  }

  /** The plain decimal form of an id selects exactly that organisation. */
  lemma ParseIdOfDecimal(n: nat, width: nat)
    requires 0 < width && n < Pow10(width)
    ensures ParseId(PadDecimal(n, width)) == Some(n)
  {
    PadDecimalValue(n, width);
  }

  /**
   * Whether one clause holds of an issue; a NULL column satisfies no
   * comparison. The text clause holds exactly when the text occurs somewhere
   * in the title, the description or the reporter.
   */
  predicate Holds(c: Clause, i: Issue): (r: bool)
    ensures c.TextContains? ==>
      (r <==> Occurs(i.title, c.q) || (i.description.Some? && Occurs(i.description.value, c.q)) || Occurs(i.reporter, c.q))
  {
    match c
    case StatusIs(v) => i.status == v
    case OwnerIs(v) => i.owner == Some(v)
    case OrganizationIs(v) => i.organizationId.Some? && ParseId(v) == Some(i.organizationId.value)
    case TextContains(q) =>
      ContainsIff(i.title, q);
      ContainsIff(i.description.GetOr(""), q);
      ContainsIff(i.reporter, q);
      Contains(i.title, q)
      || (i.description.Some? && Contains(i.description.value, q))
      || Contains(i.reporter, q)
  }

  /** The issue passes every clause of the query. */
  predicate Matches(f: Filter, i: Issue) {
    forall c :: c in Clauses(f) ==> Holds(c, i)
  }

  /** Some start position of `q` in the text. */
  ghost predicate Occurs(s: string, q: string) {
    exists k :: OccursAt(s, q, k)
  }

  /**
   * An issue is selected exactly when each non-empty argument matches its
   * column, and a non-empty search text occurs in the title, the description
   * or the reporter. The arguments are combined with AND; an empty one
   * imposes no condition.
   */
  lemma MatchesIff(f: Filter, i: Issue)
    ensures Matches(f, i) <==>
      && (f.status != "" ==> i.status == f.status)
      && (f.owner != "" ==> i.owner == Some(f.owner))
      && (f.organization != "" ==>
            i.organizationId.Some? && ParseId(f.organization) == Some(i.organizationId.value))
      && (f.q != "" ==>
            Occurs(i.title, f.q)
            || (i.description.Some? && Occurs(i.description.value, f.q))
            || Occurs(i.reporter, f.q))
  {
    var cs := Clauses(f);
    assert f.status != "" ==> StatusIs(f.status) in cs;
    assert f.owner != "" ==> OwnerIs(f.owner) in cs;
    assert f.organization != "" ==> OrganizationIs(f.organization) in cs;
    assert f.q != "" ==> TextContains(f.q) in cs;
  }

  /** With no argument given every issue is selected. */
  lemma NoFilterMatchesAll(i: Issue)
    ensures Matches(NoFilter, i)
  {
    assert Clauses(NoFilter) == [];
  }

  // ---- the two views ----

  /** The ids of the issues the filter selects. */
  function MatchingIds(issues: map<Id, Issue>, f: Filter): (r: set<Id>)
    ensures forall k :: k in r <==> k in issues && Matches(f, issues[k])
  {
    set k | k in issues && Matches(f, issues[k])
  }

  /** `order_by(display_order, date_reported)`. */
  function ListKeys(issues: map<Id, Issue>): (key: map<Id, Key>)
    ensures key.Keys == issues.Keys
  {
    map k | k in issues :: Key(issues[k].displayOrder, DateKey(issues[k].dateReported))
  }

  /** `order_by(date_reported)`. */
  function ExportKeys(issues: map<Id, Issue>): (key: map<Id, Key>)
    ensures key.Keys == issues.Keys
  {
    map k | k in issues :: Key(DateKey(issues[k].dateReported), 0)
  }

  lemma ScanHasKeys(issues: map<Id, Issue>, f: Filter, key: map<Id, Key>)
    requires key.Keys == issues.Keys
    ensures HasKeys(KeysAscending(MatchingIds(issues, f)), key)
  {
    var s := KeysAscending(MatchingIds(issues, f));
    forall i | 0 <= i < |s| ensures s[i] in key {
      assert s[i] in multiset(s);
    }
  }

  /** The issues of the list view, in display order: each selected issue exactly once. */
  function ListView(issues: map<Id, Issue>, f: Filter): (r: seq<Id>)
    ensures multiset(r) == multiset(MatchingIds(issues, f))
    ensures HasKeys(r, ListKeys(issues)) && SortedBy(r, ListKeys(issues))
  {
    ScanHasKeys(issues, f, ListKeys(issues));
    Sort(KeysAscending(MatchingIds(issues, f)), ListKeys(issues))
  }

  /** The issues of the export, oldest report first: each selected issue exactly once. */
  function ExportView(issues: map<Id, Issue>, f: Filter): (r: seq<Id>)
    ensures multiset(r) == multiset(MatchingIds(issues, f))
    ensures HasKeys(r, ExportKeys(issues)) && SortedBy(r, ExportKeys(issues))
  {
    ScanHasKeys(issues, f, ExportKeys(issues));
    Sort(KeysAscending(MatchingIds(issues, f)), ExportKeys(issues))
  }

  predicate AllDatesValid(issues: map<Id, Issue>) {
    forall k :: k in issues ==> IssueDatesValid(issues[k])
  }

  lemma DatesOf(issues: map<Id, Issue>, k: Id)
    requires AllDatesValid(issues) && k in issues
    ensures IssueDatesValid(issues[k])
  {
  }

  /** A row of a view is an issue the filter selects, and every such issue is a row. */
  lemma InViews(issues: map<Id, Issue>, f: Filter, k: Id)
    ensures k in ListView(issues, f) <==> k in issues && Matches(f, issues[k])
    ensures k in ExportView(issues, f) <==> k in issues && Matches(f, issues[k])
  {
    assert k in ListView(issues, f) <==> k in multiset(ListView(issues, f));
    assert k in ExportView(issues, f) <==> k in multiset(ExportView(issues, f));
  }

  /** Both views show the same issues; only their order differs. */
  lemma ViewsSameIssues(issues: map<Id, Issue>, f: Filter)
    ensures multiset(ListView(issues, f)) == multiset(ExportView(issues, f))
    ensures |ListView(issues, f)| == |ExportView(issues, f)| == |MatchingIds(issues, f)|
  {
    var r := ListView(issues, f);
    assert |r| == |multiset(r)|;
    SetMultisetSize(MatchingIds(issues, f));
    var e := ExportView(issues, f);
    assert |e| == |multiset(e)|;
  }

  /** With no argument the list view shows every issue once. */
  lemma NoFilterShowsAll(issues: map<Id, Issue>)
    ensures multiset(ListView(issues, NoFilter)) == multiset(issues.Keys)
  {
    forall k | k in issues ensures Matches(NoFilter, issues[k]) {
      NoFilterMatchesAll(issues[k]);
    }
    assert MatchingIds(issues, NoFilter) == issues.Keys;
  }

  /** Two rows of a sequence sorted by `ListKeys`, in terms of the issues' columns. */
  lemma ListKeyPair(issues: map<Id, Issue>, r: seq<Id>, a: int, b: int)
    requires AllDatesValid(issues)
    requires HasKeys(r, ListKeys(issues)) && SortedBy(r, ListKeys(issues))
    requires 0 <= a < b < |r|
    ensures r[a] in issues && r[b] in issues
    ensures var x, y := issues[r[a]], issues[r[b]];
      x.displayOrder < y.displayOrder
      || (x.displayOrder == y.displayOrder && DateLe(x.dateReported, y.dateReported))
  {
    var key := ListKeys(issues);
    assert KeyLe(key[r[a]], key[r[b]]);
    assert r[a] in key && r[b] in key;
    DatesOf(issues, r[a]);
    DatesOf(issues, r[b]);
    DateKeyOrder(issues[r[a]].dateReported, issues[r[b]].dateReported);
  }

  /** Two rows of a sequence sorted by `ExportKeys`, in terms of the issues' dates. */
  lemma ExportKeyPair(issues: map<Id, Issue>, r: seq<Id>, a: int, b: int)
    requires AllDatesValid(issues)
    requires HasKeys(r, ExportKeys(issues)) && SortedBy(r, ExportKeys(issues))
    requires 0 <= a < b < |r|
    ensures r[a] in issues && r[b] in issues
    ensures DateLe(issues[r[a]].dateReported, issues[r[b]].dateReported)
  {
    var key := ExportKeys(issues);
    assert KeyLe(key[r[a]], key[r[b]]);
    assert r[a] in key && r[b] in key;
    DatesOf(issues, r[a]);
    DatesOf(issues, r[b]);
    DateKeyOrder(issues[r[a]].dateReported, issues[r[b]].dateReported);
  }

  /** The list view ascends by display order, then by date reported. */
  lemma ListViewOrder(issues: map<Id, Issue>, f: Filter, a: int, b: int)
    requires AllDatesValid(issues)
    requires 0 <= a < b < |ListView(issues, f)|
    ensures var r := ListView(issues, f);
      var x, y := issues[r[a]], issues[r[b]];
      x.displayOrder < y.displayOrder
      || (x.displayOrder == y.displayOrder && DateLe(x.dateReported, y.dateReported))
  {
    ListKeyPair(issues, ListView(issues, f), a, b);
  }

  /** The export ascends by date reported, whatever the display order. */
  lemma ExportViewOrder(issues: map<Id, Issue>, f: Filter, a: int, b: int)
    requires AllDatesValid(issues)
    requires 0 <= a < b < |ExportView(issues, f)|
    ensures var r := ExportView(issues, f);
      DateLe(issues[r[a]].dateReported, issues[r[b]].dateReported)
  {
    ExportKeyPair(issues, ExportView(issues, f), a, b);
  }

  // ---- filter options ----

  /** The distinct statuses in the store. */
  function Statuses(issues: map<Id, Issue>): (r: set<string>)
    ensures forall s :: s in r <==> exists k :: k in issues && issues[k].status == s
  {
    set k | k in issues :: issues[k].status
  }

  /** The distinct owners, NULL excluded: every element is the owner of some issue. */
  function Owners(issues: map<Id, Issue>): (r: set<string>)
    ensures forall o :: o in r <==> exists k :: k in issues && issues[k].owner == Some(o)
  {
    set k | k in issues && issues[k].owner.Some? :: issues[k].owner.value
  }

  /**
   * Each status offered is one the status filter can use: choosing it shows
   * at least one issue, and a non-empty status is offered exactly when
   * choosing it shows some issue.
   */
  lemma StatusOptions(issues: map<Id, Issue>, s: string)
    ensures s in Statuses(issues) ==> MatchingIds(issues, Filter(s, "", "", "")) != {}
    ensures s != "" ==> (s in Statuses(issues) <==> MatchingIds(issues, Filter(s, "", "", "")) != {})
  {
    var f := Filter(s, "", "", "");
    if s in Statuses(issues) {
      var k :| k in issues && issues[k].status == s;
      MatchesIff(f, issues[k]);
      assert k in MatchingIds(issues, f);
    }
    if s != "" && MatchingIds(issues, f) != {} {
      NonEmptyHasElement(MatchingIds(issues, f));
      var k :| k in MatchingIds(issues, f);
      MatchesIff(f, issues[k]);
    }
  }

  /**
   * Each owner offered is one the owner filter can use: choosing it shows at
   * least one issue, and a non-empty owner is offered exactly when choosing
   * it shows some issue.
   */
  lemma OwnerOptions(issues: map<Id, Issue>, o: string)
    ensures o in Owners(issues) ==> MatchingIds(issues, Filter("", o, "", "")) != {}
    ensures o != "" ==> (o in Owners(issues) <==> MatchingIds(issues, Filter("", o, "", "")) != {})
  {
    var f := Filter("", o, "", "");
    if o in Owners(issues) {
      var k :| k in issues && issues[k].owner == Some(o);
      MatchesIff(f, issues[k]);
      assert k in MatchingIds(issues, f);
    }
    if o != "" && MatchingIds(issues, f) != {} {
      NonEmptyHasElement(MatchingIds(issues, f));
      var k :| k in MatchingIds(issues, f);
      MatchesIff(f, issues[k]);
    }
  }

  /**
   * The count that guards deleting an organisation is the number of issues
   * the list shows when filtered by that organisation's id.
   */
  lemma IssueCountIsFilterCount(issues: map<Id, Issue>, orgId: nat, width: nat)
    requires 0 < width && orgId < Pow10(width)
    ensures IssueCount(issues, orgId) == |MatchingIds(issues, Filter("", "", PadDecimal(orgId, width), ""))|
  {
    var f := Filter("", "", PadDecimal(orgId, width), "");
    ParseIdOfDecimal(orgId, width);
    forall k | k in issues ensures Matches(f, issues[k]) <==> issues[k].organizationId == Some(orgId) {
      MatchesIff(f, issues[k]);
    }
    assert ReferencingIssues(issues, orgId) == MatchingIds(issues, f);
  }
}

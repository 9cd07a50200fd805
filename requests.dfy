/**
 * What the JSON bodies of `create_issue`, `update_issue`, `add_comment` and
 * `create_organization` turn into. A request field is either missing from
 * the body (`Absent`) or present with a value (`Given`); that is the
 * difference between `data['x']` raising `KeyError` and `data.get('x', d)`
 * falling back to `d`.
 */
module Requests {
  import opened Wrappers
  import opened Dates
  import opened Models

  datatype Field<+T> = Absent | Given(value: T)

  /** `data.get(key, default)`. */
  function FieldOr<T>(f: Field<T>, default: T): T {
    if f.Given? then f.value else default
  }

  /**
   * The body of an issue request. Date fields are read with `data.get(key)`
   * and tested for truth, so a missing key, a JSON null and `""` all count
   * as no date; they are `None` here unless the text is non-empty.
   */
  datatype IssueData = IssueData(
    title: Field<string>,
    description: Field<Option<string>>,
    reporter: Field<string>,
    owner: Field<Option<string>>,
    organizationId: Field<Option<Id>>,
    status: Field<string>,
    importance: Field<string>,
    dateReported: Option<string>,
    targetDate: Option<string>)

  datatype CommentData = CommentData(author: Field<string>, body: Field<string>)

  /**
   * `strptime(text, '%Y-%m-%d') if text else None`: no text gives no date,
   * text that is not a date is an error.
   */
  function ParseDateArg(arg: Option<string>): (r: Result<Option<Date>>)
    ensures r.Ok? && r.value.Some? ==> ValidDate(r.value.value)
  {
    if arg.None? || arg.value == "" then Ok(None)
    else match ParseDate(arg.value)
      case Some(d) => Ok(Some(d))
      case None => Err(InvalidDate(arg.value))
  }

  /** A date argument is accepted exactly when it is empty or a printed date. */
  lemma ParseDateArgIff(arg: Option<string>)
    ensures ParseDateArg(arg).Err? <==> arg.Some? && arg.value != "" && ParseDate(arg.value).None?
    ensures ParseDateArg(arg).Err? ==> ParseDateArg(arg).error == InvalidDate(arg.value)
    ensures ParseDateArg(arg) == Ok(None) <==> arg.None? || arg.value == ""
    ensures forall d :: ValidDate(d) ==> ParseDateArg(Some(FormatDate(d))) == Ok(Some(d))
  {
    forall d | ValidDate(d) ensures ParseDateArg(Some(FormatDate(d))) == Ok(Some(d)) {
      FormatThenParse(d);
    }
  }

  /** The Issue `create_issue` builds; keyword arguments are evaluated left to right. */
  function NewIssue(data: IssueData, today: Date, now: int): (r: Result<Issue>)
    requires ValidDate(today)
    ensures r.Ok? ==> IssueDatesValid(r.value)
  {
    if data.title.Absent? then Err(MissingField("title"))
    else if data.reporter.Absent? then Err(MissingField("reporter"))
    else
      match ParseDateArg(data.dateReported)
      case Err(e) => Err(e)
      case Ok(reported) =>
        match ParseDateArg(data.targetDate)
        case Err(e) => Err(e)
        case Ok(target) =>
          Ok(Issue(
            title := data.title.value,
            description := FieldOr(data.description, Some("")),
            reporter := data.reporter.value,
            owner := FieldOr(data.owner, None),
            organizationId := FieldOr(data.organizationId, None),
            status := FieldOr(data.status, DefaultStatus),
            importance := FieldOr(data.importance, DefaultImportance),
            dateReported := reported.GetOr(today),
            targetDate := target,
            displayOrder := DefaultDisplayOrder,
            updatedAt := now))
  }

  /**
   * Creation fails exactly when the title or the reporter is missing or a
   * date is unreadable, and reports the first failure; otherwise every field
   * is the one given or its column default.
   */
  lemma NewIssueOutcome(data: IssueData, today: Date, now: int)
    requires ValidDate(today)
    ensures var r := NewIssue(data, today, now);
      && (r.Err? <==> data.title.Absent? || data.reporter.Absent?
                      || ParseDateArg(data.dateReported).Err? || ParseDateArg(data.targetDate).Err?)
      && (data.title.Absent? ==> r == Err(MissingField("title")))
      && (data.title.Given? && data.reporter.Absent? ==> r == Err(MissingField("reporter")))
      && (data.title.Given? && data.reporter.Given? && ParseDateArg(data.dateReported).Err? ==>
            r == Err(ParseDateArg(data.dateReported).error))
      && ((data.title.Given? && data.reporter.Given? && ParseDateArg(data.dateReported).Ok?
           && ParseDateArg(data.targetDate).Err?) ==> r == Err(ParseDateArg(data.targetDate).error))
  {
  }

  lemma NewIssueFields(data: IssueData, today: Date, now: int)
    requires ValidDate(today)
    requires NewIssue(data, today, now).Ok?
    ensures var i := NewIssue(data, today, now).value;
      && i.title == data.title.value && i.reporter == data.reporter.value
      && (data.description.Absent? ==> i.description == Some(""))
      && (data.description.Given? ==> i.description == data.description.value)
      && (data.owner.Absent? ==> i.owner == None)
      && (data.owner.Given? ==> i.owner == data.owner.value)
      && (data.organizationId.Absent? ==> i.organizationId == None)
      && (data.organizationId.Given? ==> i.organizationId == data.organizationId.value)
      && (data.status.Absent? ==> i.status == "Open")
      && (data.status.Given? ==> i.status == data.status.value)
      && (data.importance.Absent? ==> i.importance == "Medium")
      && (data.importance.Given? ==> i.importance == data.importance.value)
      && (ParseDateArg(data.dateReported) == Ok(None) ==> i.dateReported == today)
      && (ParseDateArg(data.dateReported) != Ok(None) ==> FormatDate(i.dateReported) == data.dateReported.value)
      && (ParseDateArg(data.dateReported) == Ok(Some(i.dateReported)) || ParseDateArg(data.dateReported) == Ok(None))
      && ParseDateArg(data.targetDate) == Ok(i.targetDate)
      && (i.targetDate.None? <==> ParseDateArg(data.targetDate) == Ok(None))
      && (i.targetDate.Some? ==> FormatDate(i.targetDate.value) == data.targetDate.value)
      && i.displayOrder == 0 && i.updatedAt == now
  {
  }

  /**
   * `update_issue` on an existing issue: each given field replaces the old
   * value and each missing one keeps it, except the target date, which is
   * cleared unless a date is given; the report date and display order are
   * never touched.
   */
  function UpdatedIssue(old_: Issue, data: IssueData, now: int): (r: Result<Issue>)
    requires IssueDatesValid(old_)
    ensures r.Ok? ==> IssueDatesValid(r.value)
  {
    match ParseDateArg(data.targetDate)
    case Err(e) => Err(e)
    case Ok(target) =>
      Ok(old_.(
        title := FieldOr(data.title, old_.title),
        description := FieldOr(data.description, old_.description),
        reporter := FieldOr(data.reporter, old_.reporter),
        owner := FieldOr(data.owner, old_.owner),
        organizationId := FieldOr(data.organizationId, old_.organizationId),
        status := FieldOr(data.status, old_.status),
        importance := FieldOr(data.importance, old_.importance),
        targetDate := target,
        updatedAt := now))
  }

  lemma UpdateFields(old_: Issue, data: IssueData, now: int)
    requires IssueDatesValid(old_)
    ensures var r := UpdatedIssue(old_, data, now);
      && (r.Err? <==> ParseDateArg(data.targetDate).Err?)
      && (r.Ok? ==>
            && (data.title.Absent? ==> r.value.title == old_.title)
            && (data.title.Given? ==> r.value.title == data.title.value)
            && (data.description.Absent? ==> r.value.description == old_.description)
            && (data.description.Given? ==> r.value.description == data.description.value)
            && (data.reporter.Absent? ==> r.value.reporter == old_.reporter)
            && (data.reporter.Given? ==> r.value.reporter == data.reporter.value)
            && (data.owner.Absent? ==> r.value.owner == old_.owner)
            && (data.owner.Given? ==> r.value.owner == data.owner.value)
            && (data.organizationId.Absent? ==> r.value.organizationId == old_.organizationId)
            && (data.organizationId.Given? ==> r.value.organizationId == data.organizationId.value)
            && (data.status.Absent? ==> r.value.status == old_.status)
            && (data.status.Given? ==> r.value.status == data.status.value)
            && (data.importance.Absent? ==> r.value.importance == old_.importance)
            && (data.importance.Given? ==> r.value.importance == data.importance.value)
            && (ParseDateArg(data.targetDate) == Ok(None) ==> r.value.targetDate == None)
            && ParseDateArg(data.targetDate) == Ok(r.value.targetDate)
            && (r.value.targetDate.Some? ==> FormatDate(r.value.targetDate.value) == data.targetDate.value)
            && r.value.dateReported == old_.dateReported
            && r.value.displayOrder == old_.displayOrder
            && r.value.updatedAt == now)
  {
  }

  /** A body with no fields clears the target date and changes nothing else but the update time. */
  lemma EmptyUpdate(old_: Issue, now: int)
    requires IssueDatesValid(old_)
    ensures UpdatedIssue(old_, IssueData(Absent, Absent, Absent, Absent, Absent, Absent, Absent, None, None), now)
      == Ok(old_.(targetDate := None, updatedAt := now))
  {
  }

  /** Sending the same update twice has the effect of sending it once. */
  lemma UpdateIdempotent(old_: Issue, data: IssueData, now: int)
    requires IssueDatesValid(old_)
    requires UpdatedIssue(old_, data, now).Ok?
    ensures UpdatedIssue(UpdatedIssue(old_, data, now).value, data, now) == UpdatedIssue(old_, data, now)
  {
  }

  /** The Comment `add_comment` builds for issue `issueId`. */
  function NewComment(issueId: Id, data: CommentData): (r: Result<Comment>)
    ensures r.Ok? ==> r.value.issueId == issueId
  {
    if data.author.Absent? then Err(MissingField("author"))
    else if data.body.Absent? then Err(MissingField("body"))
    else Ok(Comment(issueId, data.author.value, data.body.value))
  }

  lemma NewCommentOutcome(issueId: Id, data: CommentData)
    ensures var r := NewComment(issueId, data);
      && (r.Err? <==> data.author.Absent? || data.body.Absent?)
      && (data.author.Absent? ==> r == Err(MissingField("author")))
      && (r.Ok? ==> r.value.author == data.author.value && r.value.body == data.body.value)
  {
  }
}

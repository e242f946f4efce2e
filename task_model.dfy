/** The DailyTask and MonthlyTask schemas. Both have the same fields; they
    differ only in `date`, which a daily task defaults to the creation time
    and a monthly task must be given. */
module TaskModel {
  import opened Common

  /** The status enum. */
  datatype Status = Pending | Done | Failed

  function StatusName(s: Status): string {
    match s
    case Pending => "pending"
    case Done => "done"
    case Failed => "failed"
  }

  /** The enum validator on `status`: only the three listed names are accepted. */
  function ParseStatus(s: string): (r: Option<Status>)
    ensures r.Some? <==> s == "pending" || s == "done" || s == "failed"
    ensures r.Some? ==> StatusName(r.value) == s
  {
    if s == "pending" then Some(Pending)
    else if s == "done" then Some(Done)
    else if s == "failed" then Some(Failed)
    else None
  }

  lemma StatusNameRoundTrip(s: Status)
    ensures ParseStatus(StatusName(s)) == Some(s)
  {
  }

  /** A stored task. `createdAt` and `updatedAt` are the automatic
      timestamps; `note`, `supervisorNote`, `reviewedBy` and `reviewedAt`
      are optional. */
  datatype Task = Task(
    project: Id,
    createdBy: Id,
    title: string,
    date: Time,
    note: Option<string>,
    status: Status,
    supervisorNote: Option<string>,
    reviewedBy: Option<Id>,
    reviewedAt: Option<Time>,
    createdAt: Time,
    updatedAt: Time)

  /** The required `title` is non-empty; the review stamp is either wholly
      absent or wholly present; a supervisor note, once set, is non-empty. */
  predicate WellFormedTask(t: Task) {
    && t.title != ""
    && (t.reviewedBy.Some? <==> t.reviewedAt.Some?)
    && t.supervisorNote != Some("")
  }

  /** A task nobody has reviewed yet: the state every task starts in. */
  predicate Unreviewed(t: Task) {
    t.status == Pending && t.supervisorNote.None? && t.reviewedBy.None? && t.reviewedAt.None?
  }

  /** `b` carries the work the engineer recorded in `a`: the same project,
      creator, title, note, date and creation time. */
  predicate SameWork(a: Task, b: Task) {
    && a.project == b.project && a.createdBy == b.createdBy
    && a.title == b.title && a.note == b.note
    && a.date == b.date && a.createdAt == b.createdAt
  }

  /** `DailyTask.create({ project, createdBy, title, note })` at time `now`:
      the required validator on `title`, status defaulting to pending and
      `date` defaulting to the creation time. */
  function NewDailyTask(project: Id, createdBy: Id, title: Option<string>,
                        note: Option<string>, now: Time): (r: Result<Task>)
    ensures r.Ok? <==> Truthy(title)
    ensures r.Err? ==> r.error == SchemaError
    ensures r.Ok? ==> WellFormedTask(r.value) && Unreviewed(r.value)
    ensures r.Ok? ==> r.value.project == project && r.value.createdBy == createdBy
    ensures r.Ok? ==> r.value.title == title.value && r.value.note == note
    ensures r.Ok? ==> r.value.date == now && r.value.createdAt == now && r.value.updatedAt == now
  {
    if !Truthy(title) then Err(SchemaError)
    else Ok(Task(project, createdBy, title.value, now, note, Pending, None, None, None, now, now))
  }

  /** `MonthlyTask.create({ project, createdBy, title, note, date })` at time
      `now`. `date` is the parsed request date, None when it is no valid
      date; the schema requires it, so a missing date fails on save. */
  function NewMonthlyTask(project: Id, createdBy: Id, title: Option<string>,
                          note: Option<string>, date: Option<Time>, now: Time): (r: Result<Task>)
    ensures r.Ok? <==> Truthy(title) && date.Some?
    ensures r.Err? ==> r.error == SchemaError
    ensures r.Ok? ==> WellFormedTask(r.value) && Unreviewed(r.value)
    ensures r.Ok? ==> r.value.project == project && r.value.createdBy == createdBy
    ensures r.Ok? ==> r.value.title == title.value && r.value.note == note
    ensures r.Ok? ==> r.value.date == date.value && r.value.createdAt == now && r.value.updatedAt == now
  {
    if !Truthy(title) || date.None? then Err(SchemaError)
    else Ok(Task(project, createdBy, title.value, date.value, note, Pending, None, None, None, now, now))
  }
}

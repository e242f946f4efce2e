/** The supervisor controller: a supervisor's projects, the task listings
    of a supervised project, and the review of a task. Every handler sits
    behind the supervisor role gate. */
module SupervisorController {
  import opened Common
  import opened UserModel
  import opened ProjectModel
  import opened TaskModel
  import opened Access
  import opened Listing
  import opened TaskStore

  /** getSupervisorProjects: the projects that list the caller among their
      supervisors. */
  function GetSupervisorProjects(s: Store, caller: Caller): (r: seq<(Id, Project)>)
    requires IsSupervisor(caller)
    reads s
    ensures forall i :: 0 <= i < |r| ==>
              r[i].0 in s.projects && r[i].1 == s.projects[r[i].0] && caller.id in r[i].1.supervisors
    ensures forall id :: id in s.projects && caller.id in s.projects[id].supervisors ==>
              (id, s.projects[id]) in r
    ensures IdsAscending(r)
  {
    ProjectsOf(s.projects, caller.id, Supervisor)
  }

  /** getDailyTasks (supervisor): Forbidden unless the project exists and
      lists the caller as a supervisor; otherwise that project's daily
      tasks, newest creation first. */
  function GetDailyTasks(s: Store, caller: Caller, projectId: Id): (r: Result<seq<(Id, Task)>>)
    requires IsSupervisor(caller)
    reads s
    ensures r.Ok? <==> IsProjectSupervisor(s.projects, projectId, caller.id)
    ensures r.Err? ==> r.error == Forbidden
    ensures r.Ok? ==> ListsExactly(r.value, s.daily, Some(projectId)) && SortedDesc(r.value, ByCreatedAt)
  {
    if !IsProjectSupervisor(s.projects, projectId, caller.id) then Err(Forbidden)
    else Ok(TaskListing(s.daily, Some(projectId), ByCreatedAt))
  }

  /** getMonthlyTasks (supervisor): as getDailyTasks, over the monthly
      tasks, sorted on the task date. */
  function GetMonthlyTasks(s: Store, caller: Caller, projectId: Id): (r: Result<seq<(Id, Task)>>)
    requires IsSupervisor(caller)
    reads s
    ensures r.Ok? <==> IsProjectSupervisor(s.projects, projectId, caller.id)
    ensures r.Err? ==> r.error == Forbidden
    ensures r.Ok? ==> ListsExactly(r.value, s.monthly, Some(projectId)) && SortedDesc(r.value, ByDate)
  {
    if !IsProjectSupervisor(s.projects, projectId, caller.id) then Err(Forbidden)
    else Ok(TaskListing(s.monthly, Some(projectId), ByDate))
  }

  /** The document a review saves, or the validator's rejection of it.
      `status` and `supervisorNote` replace the stored values only when
      truthy; reviewer, review time and update time are always stamped. No
      transition between statuses is ruled out. */
  function Review(t: Task, reviewer: Id, status: Option<string>, supervisorNote: Option<string>,
                  now: Time): (r: Result<Task>)
    ensures r.Err? <==> Truthy(status) && ParseStatus(status.value).None?
    ensures r.Err? ==> r.error == SchemaError
    ensures r.Ok? ==> r.value.reviewedBy == Some(reviewer) && r.value.reviewedAt == Some(now)
    ensures r.Ok? ==> r.value.updatedAt == now
    ensures r.Ok? && Truthy(status) ==> StatusName(r.value.status) == status.value
    ensures r.Ok? && !Truthy(status) ==> r.value.status == t.status
    ensures r.Ok? && Truthy(supervisorNote) ==> r.value.supervisorNote == supervisorNote
    ensures r.Ok? && !Truthy(supervisorNote) ==> r.value.supervisorNote == t.supervisorNote
    ensures r.Ok? ==> SameWork(t, r.value)
    ensures r.Ok? && WellFormedTask(t) ==> WellFormedTask(r.value)
  {
    var status' := if Truthy(status) then ParseStatus(status.value) else Some(t.status);
    if status'.None? then Err(SchemaError)
    else
      Ok(t.(status := status'.value,
            supervisorNote := if Truthy(supervisorNote) then supervisorNote else t.supervisorNote,
            reviewedBy := Some(reviewer),
            reviewedAt := Some(now),
            updatedAt := now))
  }

  /** The field assignments of a review, one after the other, followed by
      the save-time validation. */
  method ReviewSteps(t: Task, reviewer: Id, status: Option<string>, supervisorNote: Option<string>,
                     now: Time) returns (r: Result<Task>)
    ensures r == Review(t, reviewer, status, supervisorNote, now)
  {
    var task := t;
    var accepted := true;
    if Truthy(status) {
      match ParseStatus(status.value)
      case Some(st) =>
        task := task.(status := st);
      case None =>
        // the enum validator rejects the document when it is saved
        accepted := false;
    }
    if Truthy(supervisorNote) {
      task := task.(supervisorNote := supervisorNote);
    }
    task := task.(reviewedBy := Some(reviewer));
    task := task.(reviewedAt := Some(now));
    task := task.(updatedAt := now);
    if !accepted {
      return Err(SchemaError);
    }
    r := Ok(task);
  }

  /** reviewDailyTask: the task must exist, and its project must still exist
      and list the caller as a supervisor; then the reviewed task replaces
      it, unless the validator rejects it. No other task changes. */
  method ReviewDailyTask(s: Store, caller: Caller, taskId: Id, status: Option<string>,
                         supervisorNote: Option<string>, now: Time) returns (r: Result<Task>)
    requires s.Valid() && IsSupervisor(caller)
    modifies s`daily
    ensures s.Valid()
    ensures taskId !in old(s.daily) ==> r == Err(NotFound)
    ensures taskId in old(s.daily) && !IsProjectSupervisor(s.projects, old(s.daily)[taskId].project, caller.id) ==>
              r == Err(Forbidden)
    ensures taskId in old(s.daily) && IsProjectSupervisor(s.projects, old(s.daily)[taskId].project, caller.id) ==>
              r == Review(old(s.daily)[taskId], caller.id, status, supervisorNote, now)
    ensures s.daily == if r.Ok? then old(s.daily)[taskId := r.value] else old(s.daily)
  {
    if taskId !in s.daily {
      return Err(NotFound);
    }
    var task := s.daily[taskId];
    if !IsProjectSupervisor(s.projects, task.project, caller.id) {
      return Err(Forbidden);
    }
    r := ReviewSteps(task, caller.id, status, supervisorNote, now);
    if r.Ok? {
      s.daily := s.daily[taskId := r.value];
    }
  }

  /** reviewMonthlyTask: as reviewDailyTask, over the monthly tasks. */
  method ReviewMonthlyTask(s: Store, caller: Caller, taskId: Id, status: Option<string>,
                           supervisorNote: Option<string>, now: Time) returns (r: Result<Task>)
    requires s.Valid() && IsSupervisor(caller)
    modifies s`monthly
    ensures s.Valid()
    ensures taskId !in old(s.monthly) ==> r == Err(NotFound)
    ensures taskId in old(s.monthly) && !IsProjectSupervisor(s.projects, old(s.monthly)[taskId].project, caller.id) ==>
              r == Err(Forbidden)
    ensures taskId in old(s.monthly) && IsProjectSupervisor(s.projects, old(s.monthly)[taskId].project, caller.id) ==>
              r == Review(old(s.monthly)[taskId], caller.id, status, supervisorNote, now)
    ensures s.monthly == if r.Ok? then old(s.monthly)[taskId := r.value] else old(s.monthly)
  {
    if taskId !in s.monthly {
      return Err(NotFound);
    }
    var task := s.monthly[taskId];
    if !IsProjectSupervisor(s.projects, task.project, caller.id) {
      return Err(Forbidden);
    }
    r := ReviewSteps(task, caller.id, status, supervisorNote, now);
    if r.Ok? {
      s.monthly := s.monthly[taskId := r.value];
    }
  }

  /** A review that supplies neither status nor note still stamps the
      reviewer and the review time, and changes nothing else. */
  lemma ReviewWithoutFieldsOnlyStamps(t: Task, reviewer: Id, status: Option<string>,
                                      supervisorNote: Option<string>, now: Time)
    requires !Truthy(status) && !Truthy(supervisorNote)
    ensures Review(t, reviewer, status, supervisorNote, now)
         == Ok(t.(reviewedBy := Some(reviewer), reviewedAt := Some(now), updatedAt := now))
  {
  }

  /** Any status may follow any other, including a return to pending. */
  lemma ReviewAllowsAnyTransition(t: Task, target: Status, reviewer: Id,
                                                     supervisorNote: Option<string>, now: Time)
    ensures Review(t, reviewer, Some(StatusName(target)), supervisorNote, now).Ok?
    ensures Review(t, reviewer, Some(StatusName(target)), supervisorNote, now).value.status == target
  {
    StatusNameRoundTrip(target);
  }

  /** Repeating a review changes nothing but the time stamps: the content is
      idempotent, the timestamps are not. */
  lemma ReviewIsIdempotentUpToTime(t: Task, reviewer: Id, status: Option<string>,
                                   supervisorNote: Option<string>, first: Time, second: Time)
    requires Review(t, reviewer, status, supervisorNote, first).Ok?
    ensures Review(Review(t, reviewer, status, supervisorNote, first).value, reviewer, status, supervisorNote, second)
         == Review(t, reviewer, status, supervisorNote, second)
  {
  }

  /** Of two reviews, the later one wins on every field it supplies and on
      the stamp; the earlier one survives only where the later is silent. */
  lemma LaterReviewWins(t: Task, r1: Id, s1: Option<string>, n1: Option<string>, t1: Time,
                        r2: Id, s2: Option<string>, n2: Option<string>, t2: Time)
    requires Review(t, r1, s1, n1, t1).Ok?
    requires Review(Review(t, r1, s1, n1, t1).value, r2, s2, n2, t2).Ok?
    ensures var u := Review(Review(t, r1, s1, n1, t1).value, r2, s2, n2, t2).value;
            && u.reviewedBy == Some(r2) && u.reviewedAt == Some(t2)
            && u.status == (if Truthy(s2) then ParseStatus(s2.value).value
                            else if Truthy(s1) then ParseStatus(s1.value).value
                            else t.status)
            && SameWork(t, u)
  {
  }
}

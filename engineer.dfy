/** The engineer controller: an engineer's projects, and the creation,
    listing and deletion of the daily and monthly tasks of a project. Every
    handler sits behind the engineer role gate. */
module EngineerController {
  import opened Common
  import opened UserModel
  import opened ProjectModel
  import opened TaskModel
  import opened Access
  import opened Listing
  import opened TaskStore

  /** getEngineerProjects: the projects that list the caller among their
      engineers. */
  function GetEngineerProjects(s: Store, caller: Caller): (r: seq<(Id, Project)>)
    requires IsEngineer(caller)
    reads s
    ensures forall i :: 0 <= i < |r| ==>
              r[i].0 in s.projects && r[i].1 == s.projects[r[i].0] && caller.id in r[i].1.engineers
    ensures forall id :: id in s.projects && caller.id in s.projects[id].engineers ==>
              (id, s.projects[id]) in r
    ensures IdsAscending(r)
  {
    ProjectsOf(s.projects, caller.id, Engineer)
  }

  /** addDailyTask: the project must exist and list the caller as an
      engineer; then a pending daily task is created, unless the schema
      rejects it on save. */
  method AddDailyTask(s: Store, caller: Caller, projectId: Id, title: Option<string>,
                      note: Option<string>, now: Time) returns (r: Result<(Id, Task)>)
    requires s.Valid() && IsEngineer(caller)
    modifies s`daily, s`nextId
    ensures s.Valid()
    ensures projectId !in s.projects ==> r == Err(NotFound)
    ensures projectId in s.projects && caller.id !in s.projects[projectId].engineers ==> r == Err(Forbidden)
    ensures IsProjectEngineer(s.projects, projectId, caller.id) && !Truthy(title) ==> r == Err(SchemaError)
    ensures r.Ok? <==> IsProjectEngineer(s.projects, projectId, caller.id) && Truthy(title)
    ensures r.Err? ==> s.daily == old(s.daily)
    ensures r.Ok? ==> r.value.0 !in old(s.daily) && s.daily == old(s.daily)[r.value.0 := r.value.1]
    ensures r.Ok? ==> NewDailyTask(projectId, caller.id, title, note, now) == Ok(r.value.1)
  {
    if projectId !in s.projects {
      return Err(NotFound);
    }
    if caller.id !in s.projects[projectId].engineers {
      return Err(Forbidden);
    }
    var created := NewDailyTask(projectId, caller.id, title, note, now);
    if created.Err? {
      return Err(created.error);
    }
    var id := s.FreshId();
    s.daily := s.daily[id := created.value];
    r := Ok((id, created.value));
  }

  /** getDailyTasks (engineer): Forbidden, never NotFound, unless the project
      exists and lists the caller as an engineer; otherwise that project's
      daily tasks, newest creation first. */
  function GetDailyTasks(s: Store, caller: Caller, projectId: Id): (r: Result<seq<(Id, Task)>>)
    requires IsEngineer(caller)
    reads s
    ensures r.Ok? <==> IsProjectEngineer(s.projects, projectId, caller.id)
    ensures r.Err? ==> r.error == Forbidden
    ensures r.Ok? ==> ListsExactly(r.value, s.daily, Some(projectId)) && SortedDesc(r.value, ByCreatedAt)
  {
    if !IsProjectEngineer(s.projects, projectId, caller.id) then Err(Forbidden)
    else Ok(TaskListing(s.daily, Some(projectId), ByCreatedAt))
  }

  /** deleteDailyTask: only the task's creator may delete it. Neither the
      project's membership nor the review state is consulted. */
  method DeleteDailyTask(s: Store, caller: Caller, taskId: Id) returns (r: Result<()>)
    requires s.Valid() && IsEngineer(caller)
    modifies s`daily
    ensures s.Valid()
    ensures taskId !in old(s.daily) ==> r == Err(NotFound)
    ensures taskId in old(s.daily) && !IsTaskOwner(old(s.daily)[taskId], caller.id) ==> r == Err(Forbidden)
    ensures r.Ok? <==> taskId in old(s.daily) && IsTaskOwner(old(s.daily)[taskId], caller.id)
    ensures s.daily == if r.Ok? then old(s.daily) - {taskId} else old(s.daily)
  {
    if taskId !in s.daily {
      return Err(NotFound);
    }
    if s.daily[taskId].createdBy != caller.id {
      return Err(Forbidden);
    }
    s.daily := s.daily - {taskId};
    r := Ok(());
  }

  /** addMonthlyTask: as addDailyTask, with a caller-supplied date that the
      schema requires. `date` is the parsed request date, None when it is
      missing or no valid date. */
  method AddMonthlyTask(s: Store, caller: Caller, projectId: Id, title: Option<string>,
                        note: Option<string>, date: Option<Time>, now: Time)
    returns (r: Result<(Id, Task)>)
    requires s.Valid() && IsEngineer(caller)
    modifies s`monthly, s`nextId
    ensures s.Valid()
    ensures projectId !in s.projects ==> r == Err(NotFound)
    ensures projectId in s.projects && caller.id !in s.projects[projectId].engineers ==> r == Err(Forbidden)
    ensures IsProjectEngineer(s.projects, projectId, caller.id) && (!Truthy(title) || date.None?) ==>
              r == Err(SchemaError)
    ensures r.Ok? <==> IsProjectEngineer(s.projects, projectId, caller.id) && Truthy(title) && date.Some?
    ensures r.Err? ==> s.monthly == old(s.monthly)
    ensures r.Ok? ==> r.value.0 !in old(s.monthly) && s.monthly == old(s.monthly)[r.value.0 := r.value.1]
    ensures r.Ok? ==> NewMonthlyTask(projectId, caller.id, title, note, date, now) == Ok(r.value.1)
  {
    if projectId !in s.projects {
      return Err(NotFound);
    }
    if caller.id !in s.projects[projectId].engineers {
      return Err(Forbidden);
    }
    var created := NewMonthlyTask(projectId, caller.id, title, note, date, now);
    if created.Err? {
      return Err(created.error);
    }
    var id := s.FreshId();
    s.monthly := s.monthly[id := created.value];
    r := Ok((id, created.value));
  }

  /** getMonthlyTasks (engineer): as getDailyTasks, over the monthly tasks,
      sorted on the task date rather than the creation time. */
  function GetMonthlyTasks(s: Store, caller: Caller, projectId: Id): (r: Result<seq<(Id, Task)>>)
    requires IsEngineer(caller)
    reads s
    ensures r.Ok? <==> IsProjectEngineer(s.projects, projectId, caller.id)
    ensures r.Err? ==> r.error == Forbidden
    ensures r.Ok? ==> ListsExactly(r.value, s.monthly, Some(projectId)) && SortedDesc(r.value, ByDate)
  {
    if !IsProjectEngineer(s.projects, projectId, caller.id) then Err(Forbidden)
    else Ok(TaskListing(s.monthly, Some(projectId), ByDate))
  }

  /** deleteMonthlyTask: as deleteDailyTask, over the monthly tasks. */
  method DeleteMonthlyTask(s: Store, caller: Caller, taskId: Id) returns (r: Result<()>)
    requires s.Valid() && IsEngineer(caller)
    modifies s`monthly
    ensures s.Valid()
    ensures taskId !in old(s.monthly) ==> r == Err(NotFound)
    ensures taskId in old(s.monthly) && !IsTaskOwner(old(s.monthly)[taskId], caller.id) ==> r == Err(Forbidden)
    ensures r.Ok? <==> taskId in old(s.monthly) && IsTaskOwner(old(s.monthly)[taskId], caller.id)
    ensures s.monthly == if r.Ok? then old(s.monthly) - {taskId} else old(s.monthly)
  {
    if taskId !in s.monthly {
      return Err(NotFound);
    }
    if s.monthly[taskId].createdBy != caller.id {
      return Err(Forbidden);
    }
    s.monthly := s.monthly - {taskId};
    r := Ok(());
  }
}

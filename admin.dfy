/** The admin controller: user and project provisioning and unrestricted
    listings of users, projects and tasks. Every handler sits behind the
    admin role gate; none of them consults project membership. */
module AdminController {
  import opened Common
  import opened UserModel
  import opened ProjectModel
  import opened TaskModel
  import opened Access
  import opened Listing
  import opened TaskStore

  /** createUser: all four fields must be truthy and the email unused
      (BadRequest otherwise); the password is stored as `hash` of it; a role
      outside the enum fails on save. The response omits the password.
      `hash` stands for the credential hashing library, whose digest is
      never empty. */
  method CreateUser(s: Store, caller: Caller, name: Option<string>, email: Option<string>,
                    password: Option<string>, role: Option<string>, hash: string -> string)
    returns (r: Result<UserSummary>)
    requires s.Valid() && IsAdmin(caller)
    requires forall p :: hash(p) != ""
    modifies s`users, s`nextId
    ensures s.Valid()
    ensures !(Truthy(name) && Truthy(email) && Truthy(password) && Truthy(role)) ==> r == Err(BadRequest)
    ensures Truthy(email) && EmailTaken(old(s.users), email.value) ==> r == Err(BadRequest)
    ensures r.Ok? <==> && Truthy(name) && Truthy(email) && Truthy(password) && Truthy(role)
                       && !EmailTaken(old(s.users), email.value)
                       && ParseRole(role.value).Some?
    ensures && Truthy(name) && Truthy(email) && Truthy(password) && Truthy(role)
            && !EmailTaken(old(s.users), email.value) && ParseRole(role.value).None?
            ==> r == Err(SchemaError)
    ensures r.Err? ==> s.users == old(s.users)
    ensures r.Ok? ==> r.value.id !in old(s.users)
    ensures r.Ok? ==> s.users == old(s.users)[r.value.id :=
                                   NewUser(name.value, email.value, hash(password.value), role.value).value]
    ensures r.Ok? ==> r.value == Summary(r.value.id, s.users[r.value.id])
  {
    if !Truthy(name) || !Truthy(email) || !Truthy(password) || !Truthy(role) {
      return Err(BadRequest);
    }
    if EmailTaken(s.users, email.value) {
      return Err(BadRequest);
    }
    var created := NewUser(name.value, email.value, hash(password.value), role.value);
    if created.Err? {
      return Err(created.error);
    }
    var id := s.FreshId();
    AddingUnusedEmailKeepsUnique(s.users, id, created.value);
    s.users := s.users[id := created.value];
    r := Ok(Summary(id, created.value));
  }

  /** getAllUsers: every user, in natural order, without the password. */
  function GetAllUsers(s: Store, caller: Caller): (r: seq<UserView>)
    requires IsAdmin(caller)
    reads s
    ensures forall i :: 0 <= i < |r| ==> r[i].id in s.users && r[i] == View(r[i].id, s.users[r[i].id])
    ensures forall id :: id in s.users ==> View(id, s.users[id]) in r
    ensures forall i, j :: 0 <= i < j < |r| ==> r[i].id < r[j].id
  {
    UserListing(s.users)
  }

  /** deleteUser: NotFound for an unknown id; otherwise the user alone is
      removed. Projects and tasks that name the id keep it. */
  method DeleteUser(s: Store, caller: Caller, id: Id) returns (r: Result<()>)
    requires s.Valid() && IsAdmin(caller)
    modifies s`users
    ensures s.Valid()
    ensures r.Ok? <==> id in old(s.users)
    ensures r.Err? ==> r.error == NotFound
    ensures s.users == old(s.users) - {id}
  {
    if id !in s.users {
      return Err(NotFound);
    }
    s.users := s.users - {id};
    r := Ok(());
  }

  /** createProject: name and scope of work must be truthy (BadRequest
      otherwise); omitted membership lists default to empty. The member ids
      are stored as given, unchecked. */
  method CreateProject(s: Store, caller: Caller, name: Option<string>, scopeOfWork: Option<string>,
                       engineers: Option<seq<Id>>, supervisors: Option<seq<Id>>)
    returns (r: Result<(Id, Project)>)
    requires s.Valid() && IsAdmin(caller)
    modifies s`projects, s`nextId
    ensures s.Valid()
    ensures r.Ok? <==> Truthy(name) && Truthy(scopeOfWork)
    ensures r.Err? ==> r.error == BadRequest && s.projects == old(s.projects)
    ensures r.Ok? ==> r.value.0 !in old(s.projects) && s.projects == old(s.projects)[r.value.0 := r.value.1]
    ensures r.Ok? ==> r.value.1.name == name.value && r.value.1.scopeOfWork == scopeOfWork.value
    ensures r.Ok? ==> r.value.1.engineers == (if engineers.Some? then engineers.value else [])
    ensures r.Ok? ==> r.value.1.supervisors == (if supervisors.Some? then supervisors.value else [])
  {
    if !Truthy(name) || !Truthy(scopeOfWork) {
      return Err(BadRequest);
    }
    var project := Project(name.value, scopeOfWork.value,
                           if engineers.Some? then engineers.value else [],
                           if supervisors.Some? then supervisors.value else []);
    var id := s.FreshId();
    s.projects := s.projects[id := project];
    r := Ok((id, project));
  }

  /** getAllProjects: every project, in natural order. */
  function GetAllProjects(s: Store, caller: Caller): (r: seq<(Id, Project)>)
    requires IsAdmin(caller)
    reads s
    ensures forall i :: 0 <= i < |r| ==> r[i].0 in s.projects && r[i].1 == s.projects[r[i].0]
    ensures forall id :: id in s.projects ==> (id, s.projects[id]) in r
    ensures IdsAscending(r)
  {
    Entries(s.projects)
  }

  /** The partial overwrite of updateProject: a name or scope of work
      replaces the stored one only when truthy (an empty string counts as
      omitted); a membership list replaces the stored one whenever it is
      supplied, an empty list included. */
  function Updated(p: Project, name: Option<string>, scopeOfWork: Option<string>,
                   engineers: Option<seq<Id>>, supervisors: Option<seq<Id>>): (q: Project)
    ensures WellFormedProject(p) ==> WellFormedProject(q)
    ensures Truthy(name) ==> q.name == name.value
    ensures !Truthy(name) ==> q.name == p.name
    ensures Truthy(scopeOfWork) ==> q.scopeOfWork == scopeOfWork.value
    ensures !Truthy(scopeOfWork) ==> q.scopeOfWork == p.scopeOfWork
    ensures q.engineers == if engineers.Some? then engineers.value else p.engineers
    ensures q.supervisors == if supervisors.Some? then supervisors.value else p.supervisors
  {
    Project(if Truthy(name) then name.value else p.name,
            if Truthy(scopeOfWork) then scopeOfWork.value else p.scopeOfWork,
            if engineers.Some? then engineers.value else p.engineers,
            if supervisors.Some? then supervisors.value else p.supervisors)
  }

  /** updateProject: NotFound for an unknown id; otherwise the fields are
      overwritten one by one as `Updated` describes and the project saved. */
  method UpdateProject(s: Store, caller: Caller, id: Id, name: Option<string>,
                       scopeOfWork: Option<string>, engineers: Option<seq<Id>>,
                       supervisors: Option<seq<Id>>) returns (r: Result<Project>)
    requires s.Valid() && IsAdmin(caller)
    modifies s`projects
    ensures s.Valid()
    ensures r.Ok? <==> id in old(s.projects)
    ensures r.Err? ==> r.error == NotFound && s.projects == old(s.projects)
    ensures r.Ok? ==> r.value == Updated(old(s.projects)[id], name, scopeOfWork, engineers, supervisors)
    ensures r.Ok? ==> s.projects == old(s.projects)[id := r.value]
  {
    if id !in s.projects {
      return Err(NotFound);
    }
    var project := s.projects[id];
    if Truthy(name) {
      project := project.(name := name.value);
    }
    if Truthy(scopeOfWork) {
      project := project.(scopeOfWork := scopeOfWork.value);
    }
    if engineers.Some? {
      project := project.(engineers := engineers.value);
    }
    if supervisors.Some? {
      project := project.(supervisors := supervisors.value);
    }
    s.projects := s.projects[id := project];
    r := Ok(project);
  }

  /** deleteProject: NotFound for an unknown id; otherwise the project alone
      is removed. Its tasks stay in the store. */
  method DeleteProject(s: Store, caller: Caller, id: Id) returns (r: Result<()>)
    requires s.Valid() && IsAdmin(caller)
    modifies s`projects
    ensures s.Valid()
    ensures r.Ok? <==> id in old(s.projects)
    ensures r.Err? ==> r.error == NotFound
    ensures s.projects == old(s.projects) - {id}
  {
    if id !in s.projects {
      return Err(NotFound);
    }
    s.projects := s.projects - {id};
    r := Ok(());
  }

  /** getAllDailyTasks: every daily task, whether or not its project still
      exists, newest creation first. */
  function GetAllDailyTasks(s: Store, caller: Caller): (r: seq<(Id, Task)>)
    requires IsAdmin(caller)
    reads s
    ensures ListsExactly(r, s.daily, None) && SortedDesc(r, ByCreatedAt)
  {
    TaskListing(s.daily, None, ByCreatedAt)
  }

  /** getAllMonthlyTasks: every monthly task, latest date first. */
  function GetAllMonthlyTasks(s: Store, caller: Caller): (r: seq<(Id, Task)>)
    requires IsAdmin(caller)
    reads s
    ensures ListsExactly(r, s.monthly, None) && SortedDesc(r, ByDate)
  {
    TaskListing(s.monthly, None, ByDate)
  }

  /** The response of getProjectTasks. */
  datatype ProjectTasks = ProjectTasks(dailyTasks: seq<(Id, Task)>, monthlyTasks: seq<(Id, Task)>,
                                       project: Option<ProjectHeader>)

  /** getProjectTasks: the project's daily tasks (newest creation first),
      its monthly tasks (latest date first) and its header, or none for an
      unknown id. No membership check, and never an error. */
  function GetProjectTasks(s: Store, caller: Caller, projectId: Id): (r: ProjectTasks)
    requires IsAdmin(caller)
    reads s
    ensures ListsExactly(r.dailyTasks, s.daily, Some(projectId)) && SortedDesc(r.dailyTasks, ByCreatedAt)
    ensures ListsExactly(r.monthlyTasks, s.monthly, Some(projectId)) && SortedDesc(r.monthlyTasks, ByDate)
    ensures r.project.Some? <==> projectId in s.projects
    ensures r.project.Some? ==> r.project.value == ProjectHeader(projectId, s.projects[projectId].name,
                                                                  s.projects[projectId].scopeOfWork)
  {
    var dailyTasks := TaskListing(s.daily, Some(projectId), ByCreatedAt);
    var monthlyTasks := TaskListing(s.monthly, Some(projectId), ByDate);
    var header := if projectId in s.projects
                  then Some(ProjectHeader(projectId, s.projects[projectId].name, s.projects[projectId].scopeOfWork))
                  else None;
    ProjectTasks(dailyTasks, monthlyTasks, header)
  }

  /** An update that supplies nothing leaves the project as it was. */
  lemma EmptyUpdateChangesNothing(p: Project, name: Option<string>, scopeOfWork: Option<string>)
    requires !Truthy(name) && !Truthy(scopeOfWork)
    ensures Updated(p, name, scopeOfWork, None, None) == p
  {
  }

  /** An empty membership list is supplied, so it empties the membership,
      while an empty name is treated as omitted. */
  lemma EmptyListOverwritesEmptyStringDoesNot(p: Project)
    ensures Updated(p, Some(""), None, Some([]), Some([])) == p.(engineers := [], supervisors := [])
  {
  }

  /** Applying the same update twice is the same as applying it once. */
  lemma UpdateIsIdempotent(p: Project, name: Option<string>, scopeOfWork: Option<string>,
                           engineers: Option<seq<Id>>, supervisors: Option<seq<Id>>)
    ensures Updated(Updated(p, name, scopeOfWork, engineers, supervisors), name, scopeOfWork, engineers, supervisors)
         == Updated(p, name, scopeOfWork, engineers, supervisors)
  {
  }

  /** A task whose project was deleted still appears in the admin listing. */
  lemma OrphanedTaskStillListed(s: Store, caller: Caller, taskId: Id)
    requires IsAdmin(caller) && taskId in s.daily && s.daily[taskId].project !in s.projects
    ensures exists i :: 0 <= i < |GetAllDailyTasks(s, caller)| && GetAllDailyTasks(s, caller)[i].0 == taskId
  {
    var r := GetAllDailyTasks(s, caller);
    assert Matches(s.daily[taskId], None);
    assert exists i :: 0 <= i < |r| && r[i].0 == taskId;
  }
}

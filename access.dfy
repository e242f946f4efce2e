/** Who may do what: the role gate in front of each controller and the
    membership and ownership tests the handlers make themselves. */
module Access {
  import opened Common
  import opened UserModel
  import opened ProjectModel
  import opened TaskModel

  /** The identity a verified token asserts: a stored user's id and role,
      or the admin, whose token carries a role and no id. Nothing checks
      that a staff id still names a stored user. */
  datatype Caller = Staff(id: Id, role: Role) | Admin

  /** `authorize(["engineer"])` in front of the engineer routes. */
  predicate IsEngineer(c: Caller) {
    c.Staff? && c.role == Engineer
  }

  /** `authorize(["supervisor"])` in front of the supervisor routes. */
  predicate IsSupervisor(c: Caller) {
    c.Staff? && c.role == Supervisor
  }

  /** `authorize(["admin"])` in front of the admin routes. */
  predicate IsAdmin(c: Caller) {
    c.Admin?
  }

  /** The project exists and lists `who` among its engineers. */
  predicate IsProjectEngineer(projects: map<Id, Project>, project: Id, who: Id) {
    project in projects && who in projects[project].engineers
  }

  /** The project exists and lists `who` among its supervisors. */
  predicate IsProjectSupervisor(projects: map<Id, Project>, project: Id, who: Id) {
    project in projects && who in projects[project].supervisors
  }

  predicate IsTaskOwner(t: Task, who: Id) {
    t.createdBy == who
  }
}

/** The Project schema. */
module ProjectModel {
  import opened Common
  import opened UserModel

  /** A project with its two membership lists. The lists hold plain user
      ids: nothing checks that they name existing users, or users of the
      matching role. */
  datatype Project = Project(name: string, scopeOfWork: string,
                             engineers: seq<Id>, supervisors: seq<Id>)

  /** `name` and `scopeOfWork` are required. */
  predicate WellFormedProject(p: Project) {
    p.name != "" && p.scopeOfWork != ""
  }

  /** The membership list consulted for a role: `engineers` for creating and
      listing tasks, `supervisors` for listing and reviewing them. */
  function Members(p: Project, role: Role): seq<Id> {
    match role
    case Engineer => p.engineers
    case Supervisor => p.supervisors
  }

  /** A project as the admin's project-task listing shows it. */
  datatype ProjectHeader = ProjectHeader(id: Id, name: string, scopeOfWork: string)
}

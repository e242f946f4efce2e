/** The persistent state the three controllers share: the users, projects,
    daily tasks and monthly tasks collections, each keyed by document id. */
module TaskStore {
  import opened Common
  import opened UserModel
  import opened ProjectModel
  import opened TaskModel

  class Store {
    var users: map<Id, User>
    var projects: map<Id, Project>
    var daily: map<Id, Task>
    var monthly: map<Id, Task>
    /** Every id handed out so far is below this bound. */
    var nextId: Id

    /** Every stored document passed its schema's validators, emails are
        unique, and every id in use is below `nextId`. */
    ghost predicate Valid()
      reads this
    {
      && (forall id :: id in users ==> id < nextId && WellFormedUser(users[id]))
      && UniqueEmails(users)
      && (forall id :: id in projects ==> id < nextId && WellFormedProject(projects[id]))
      && (forall id :: id in daily ==> id < nextId && WellFormedTask(daily[id]))
      && (forall id :: id in monthly ==> id < nextId && WellFormedTask(monthly[id]))
    }

    /** An empty database. */
    constructor ()
      ensures Valid()
      ensures users == map[] && projects == map[] && daily == map[] && monthly == map[]
    {
      users, projects, daily, monthly := map[], map[], map[], map[];
      nextId := 0;
    }

    /** A new document id, carried by no document of any collection. */
    method FreshId() returns (id: Id)
      requires Valid()
      modifies this`nextId
      ensures Valid()
      ensures id !in users && id !in projects && id !in daily && id !in monthly
      ensures old(nextId) <= id < nextId
    {
      id := nextId;
      nextId := nextId + 1;
    }
  }
}

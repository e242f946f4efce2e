/** A client of the handlers' contracts: the lifecycle of one daily task,
    from project set-up through creation, a refused outsider, review and
    deletion by its owner. Every step follows from the contracts alone. */
module Scenario {
  import opened Common
  import opened UserModel
  import opened TaskModel
  import opened Access
  import opened TaskStore
  import EngineerController
  import SupervisorController
  import AdminController

  /** Membership lists hold plain ids, so the three staff ids need not name
      stored users for the lifecycle to run. */
  method DailyTaskLifecycle(e1: Id, s1: Id, e2: Id, t0: Time, t1: Time)
    requires e2 != e1
  {
    var s := new Store();
    var engineer, supervisor, outsider := Staff(e1, Engineer), Staff(s1, Supervisor), Staff(e2, Engineer);

    var p := AdminController.CreateProject(s, Admin, Some("Tower"), Some("Foundations"), Some([e1]), Some([s1]));
    var projectId := p.value.0;

    var created := EngineerController.AddDailyTask(s, engineer, projectId, Some("Pour foundation"), None, t0);
    var taskId := created.value.0;
    assert created.value.1.status == Pending && created.value.1.reviewedBy == None;

    var refused := EngineerController.AddDailyTask(s, outsider, projectId, Some("Intrude"), None, t0);
    assert refused == Err(Forbidden);

    var reviewed := SupervisorController.ReviewDailyTask(s, supervisor, taskId, Some("done"),
                                                         Some("verified on site"), t1);
    assert reviewed.Ok? && reviewed.value.status == Done;
    assert reviewed.value.reviewedBy == Some(s1) && reviewed.value.reviewedAt == Some(t1);

    var deleted := EngineerController.DeleteDailyTask(s, engineer, taskId);
    assert deleted.Ok?;
    var gone := EngineerController.DeleteDailyTask(s, engineer, taskId);
    assert gone == Err(NotFound);
  }

  /** A second account with an email already in use is refused. */
  method DuplicateEmailRefused(hash: string -> string)
    requires forall p :: hash(p) != ""
  {
    var s := new Store();
    var first := AdminController.CreateUser(s, Admin, Some("E1"), Some("e1@site"), Some("pw"), Some("engineer"), hash);
    assert first.Ok?;
    var second := AdminController.CreateUser(s, Admin, Some("E2"), Some("e1@site"), Some("pw"), Some("engineer"), hash);
    assert second == Err(BadRequest);
  }
}

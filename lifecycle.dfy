/** Whole journeys through the services, as a client sees them. */
module Lifecycle {
  import opened Common
  import opened Users
  import opened WorkStore
  import opened WorkServices
  import opened WorkControllers
  import opened Auth

  /**
   * A new address registers, follows the link it is given, and starts work:
   * registration plus confirmation is exactly what makes a user eligible.
   */
  method RegisterConfirmAndStart(auth: AuthService, controller: WorkController,
                                 email: string, password: string, newId: string,
                                 description: string, now: int, workId: string)
    returns (registered: Result<Registration>, confirmed: Result<Confirmation>, started: Result<WorkResponse>)
    requires auth.usersService == controller.workService.usersService
    requires auth.usersService.Valid() && controller.workService.Valid()
    requires !EmailInUse(auth.usersService.users, email)
    requires newId !in auth.usersService.users && !HasOpen(controller.workService.works, newId)
    requires FreshId(controller.workService.works, workId)
    modifies auth.usersService, controller.workService
    ensures registered == Ok(Registration(email, ConfirmLink(newId)))
    ensures confirmed == Ok(Confirmation(true))
    ensures Eligible(auth.usersService.users, newId)
    ensures started == Ok(WorkResponse(true, StartedPrefix + description, Some(workId)))
    ensures controller.workService.works == old(controller.workService.works) + [Work(workId, newId, description, now, None)]
    ensures HasOpen(controller.workService.works, newId)
  {
    registered := auth.Register(email, password, newId);
    TokenOfConfirmLink(newId);
    var token := TokenOf(registered.value.confirmLink);
    confirmed := auth.ConfirmEmail(token.value);
    started := controller.StartWork(newId, description, now, workId);
    assert controller.workService.works[|old(controller.workService.works)|] == Work(workId, newId, description, now, None);
  }

  /**
   * Starting through the controller makes the user working; stopping makes them
   * not working again, and both steps keep the one-open-session rule.
   */
  method StartThenStop(controller: WorkController, userId: string, description: string,
                       startedAt: int, stoppedAt: int, workId: string)
    returns (started: Result<WorkResponse>, workingAfterStart: Result<bool>,
             stopped: Result<WorkResponse>, workingAfterStop: Result<bool>)
    requires controller.workService.Valid() && AtMostOneOpen(controller.workService.works)
    requires FreshId(controller.workService.works, workId)
    requires Eligible(controller.workService.usersService.users, userId)
    requires !HasOpen(controller.workService.works, userId)
    modifies controller.workService
    ensures started.Ok? && stopped == Ok(WorkResponse(true, StoppedMessage, None))
    ensures workingAfterStart == Ok(true) && workingAfterStop == Ok(false)
    ensures AtMostOneOpen(controller.workService.works)
    ensures |controller.workService.works| == |old(controller.workService.works)| + 1
  {
    started := controller.StartWork(userId, description, startedAt, workId);
    assert IsOpenOf(controller.workService.works[|old(controller.workService.works)|], userId);
    workingAfterStart := controller.workService.IsAlreadyWorking(userId);
    stopped := controller.StopWork(userId, stoppedAt);
    workingAfterStop := controller.workService.IsAlreadyWorking(userId);
  }
}

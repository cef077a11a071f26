/**
 * The request handlers in front of the work service: the already-working guard
 * before a start, and the way each handler's catch block maps the service's errors.
 */
module WorkControllers {
  import opened Common
  import opened Users
  import opened WorkStore
  import opened Aggregation
  import opened WorkServices

  const AlreadyWorkingMessage := "User is already working on something else."
  const AllUsersFailureMessage := "Failed to retrieve total working time for all users"

  /**
   * The catch block of start and stop: a NotFound is thrown again as a new NotFound
   * with the same message, anything else is rethrown. The net effect is nothing.
   */
  function RethrowNotFound<T>(outcome: Result<T>): (r: Result<T>)
    ensures r == outcome
  {
    match outcome
    case Failure(NotFound(message)) => Failure(NotFound(message))
    case _ => outcome
  }

  /**
   * The catch block of the per-user report: NotFound is thrown again, any other
   * error is swallowed and the handler answers with no body (None).
   */
  function SwallowUnlessNotFound<T>(outcome: Result<T>): (r: Result<Option<T>>)
    ensures r.Failure? <==> outcome.Failure? && outcome.error.NotFound?
    ensures r.Failure? ==> r.error == outcome.error
    ensures r.Ok? ==> (r.value.Some? <==> outcome.Ok?)
    ensures r.Ok? && r.value.Some? ==> r.value.value == outcome.value
  {
    match outcome
    case Ok(v) => Ok(Some(v))
    case Failure(NotFound(message)) => Failure(NotFound(message))
    case Failure(_) => Ok(None)
  }

  /** The catch block of the all-users report: every failure becomes one InternalServerError. */
  function AsInternalError<T>(outcome: Result<T>): (r: Result<T>)
    ensures r.Ok? <==> outcome.Ok?
    ensures r.Ok? ==> r == outcome
    ensures r.Failure? ==> r.error == InternalServerError(AllUsersFailureMessage)
  {
    match outcome
    case Ok(_) => outcome
    case Failure(_) => Failure(InternalServerError(AllUsersFailureMessage))
  }

  class WorkController {
    const workService: WorkService

    constructor (workService: WorkService)
      ensures this.workService == workService
    {
      this.workService := workService;
    }

    /**
     * Starts a session only when the user is not already working. Unlike the
     * service's own start, this keeps the one-open-session rule.
     */
    method StartWork(userId: string, description: string, now: int, workId: string) returns (r: Result<WorkResponse>)
      requires workService.Valid() && FreshId(workService.works, workId)
      modifies workService
      ensures workService.Valid()
      ensures AtMostOneOpen(old(workService.works)) ==> AtMostOneOpen(workService.works)
      ensures !Eligible(workService.usersService.users, userId) ==>
        r == Failure(NotFound(NotEligibleMessage)) && workService.works == old(workService.works)
      ensures Eligible(workService.usersService.users, userId) && HasOpen(old(workService.works), userId) ==>
        r == Failure(Conflict(AlreadyWorkingMessage)) && workService.works == old(workService.works)
      ensures Eligible(workService.usersService.users, userId) && !HasOpen(old(workService.works), userId) ==>
        r == Ok(WorkResponse(true, StartedPrefix + description, Some(workId))) &&
        workService.works == old(workService.works) + [Work(workId, userId, description, now, None)]
    {
      var working := workService.IsAlreadyWorking(userId);
      if working.Failure? {
        return RethrowNotFound(Failure(working.error));
      }
      if working.value {
        return RethrowNotFound(Failure(Conflict(AlreadyWorkingMessage)));
      }
      var result := workService.StartWork(userId, description, now, workId);
      r := RethrowNotFound(result);
    }

    /** Stops the user's open session; the service's errors pass through unchanged. */
    method StopWork(userId: string, now: int) returns (r: Result<WorkResponse>)
      requires workService.Valid()
      modifies workService
      ensures workService.Valid()
      ensures AtMostOneOpen(old(workService.works)) ==> AtMostOneOpen(workService.works)
      ensures !Eligible(workService.usersService.users, userId) ==>
        r == Failure(NotFound(NotEligibleMessage)) && workService.works == old(workService.works)
      ensures Eligible(workService.usersService.users, userId) && !HasOpen(old(workService.works), userId) ==>
        r == Failure(NotFound(NoOngoingWorkMessage)) && workService.works == old(workService.works)
      ensures Eligible(workService.usersService.users, userId) && HasOpen(old(workService.works), userId) ==>
        r == Ok(WorkResponse(true, StoppedMessage, None)) &&
        exists i :: 0 <= i < |old(workService.works)| && IsOpenOf(old(workService.works)[i], userId) &&
          (forall k :: 0 <= k < i ==> !IsOpenOf(old(workService.works)[k], userId)) &&
          workService.works == Close(old(workService.works), i, now)
      ensures AtMostOneOpen(old(workService.works)) && Eligible(workService.usersService.users, userId) ==>
        !HasOpen(workService.works, userId)
    {
      var result := workService.StopWork(userId, now);
      r := RethrowNotFound(result);
    }

    /** The user's daily report; only NotFound reaches the caller, other failures give no body. */
    method GetTotalWorkingTimeByDay(userId: string) returns (r: Result<Option<seq<DayTotal>>>)
      ensures r.Failure? <==> !Eligible(workService.usersService.users, userId)
      ensures r.Failure? ==> r.error == NotFound(NotEligibleMessage)
      ensures r.Ok? ==> r.value.Some? && StrictlyAscending(r.value.value)
      ensures r.Ok? ==> Dates(r.value.value) == ClosedDays(OwnedBy(workService.works, userId))
      ensures r.Ok? ==> forall k :: 0 <= k < |r.value.value| ==>
        r.value.value[k].totalHours == HoursOn(OwnedBy(workService.works, userId), r.value.value[k].date)
    {
      var result := workService.TotalWorkingTimeByDay(userId);
      r := SwallowUnlessNotFound(result);
    }

    /** The report over all users; it never fails, so the InternalServerError mapping is never used. */
    method GetTotalWorkingTimeForAllUsers() returns (r: Result<seq<DayTotal>>)
      ensures r.Ok?
      ensures StrictlyAscending(r.value)
      ensures Dates(r.value) == ClosedDays(workService.works)
      ensures forall k :: 0 <= k < |r.value| ==> r.value[k].totalHours == HoursOn(workService.works, r.value[k].date)
      ensures r.value == [] <==> ClosedDays(workService.works) == {}
    {
      var rows := workService.TotalWorkingTimeForAllUsers();
      r := AsInternalError(Ok(rows));
    }
  }
}

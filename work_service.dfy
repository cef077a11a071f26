/** The work-session service: start, stop, look up the open session, and the two reports. */
module WorkServices {
  import opened Common
  import opened Users
  import opened WorkStore
  import opened Aggregation

  const NotEligibleMessage := "User not found or not confirmed"
  const NoOngoingWorkMessage := "No ongoing work found for the user"
  const StartedPrefix := "Started working on "
  const StoppedMessage := "Stopped working"

  /** The body the start and stop operations answer with; only start carries a work id. */
  datatype WorkResponse = WorkResponse(success: bool, message: string, workId: Option<string>)

  class WorkService {
    const usersService: UsersService
    /** The work table in row order. */
    var works: seq<Work>

    ghost predicate Valid()
      reads this
    {
      IdsDistinct(works)
    }

    constructor (usersService: UsersService)
      ensures Valid() && this.usersService == usersService && works == []
    {
      this.usersService := usersService;
      works := [];
    }

    /**
     * Opens a new session for an eligible user. It does not look at the user's
     * existing sessions, so it keeps the one-open-session rule only when the user
     * had no open session: the caller must check.
     */
    method StartWork(userId: string, description: string, now: int, workId: string) returns (r: Result<WorkResponse>)
      requires Valid() && FreshId(works, workId)
      modifies this
      ensures Valid()
      ensures !Eligible(usersService.users, userId) ==>
        r == Failure(NotFound(NotEligibleMessage)) && works == old(works)
      ensures Eligible(usersService.users, userId) ==>
        r == Ok(WorkResponse(true, StartedPrefix + description, Some(workId))) &&
        works == old(works) + [Work(workId, userId, description, now, None)]
      ensures AtMostOneOpen(works) <==>
        AtMostOneOpen(old(works)) && !(Eligible(usersService.users, userId) && HasOpen(old(works), userId))
    {
      var user := usersService.FindById(userId);
      if user.None? || !user.value.confirmed {
        return Failure(NotFound(NotEligibleMessage));
      }
      var work := Work(workId, userId, description, now, None);
      AppendFreshKeepsIds(works, work);
      AppendOpenKeepsInvariantIff(works, work);
      works := works + [work];
      r := Ok(WorkResponse(true, StartedPrefix + description, Some(workId)));
    }

    /** Closes the user's open session (the first one in row order) at `now`. */
    method StopWork(userId: string, now: int) returns (r: Result<WorkResponse>)
      requires Valid()
      modifies this
      ensures Valid()
      ensures !Eligible(usersService.users, userId) ==>
        r == Failure(NotFound(NotEligibleMessage)) && works == old(works)
      ensures Eligible(usersService.users, userId) && !HasOpen(old(works), userId) ==>
        r == Failure(NotFound(NoOngoingWorkMessage)) && works == old(works)
      ensures Eligible(usersService.users, userId) && HasOpen(old(works), userId) ==>
        r == Ok(WorkResponse(true, StoppedMessage, None)) &&
        exists i :: 0 <= i < |old(works)| && IsOpenOf(old(works)[i], userId) &&
          (forall k :: 0 <= k < i ==> !IsOpenOf(old(works)[k], userId)) &&
          works == Close(old(works), i, now)
      ensures AtMostOneOpen(old(works)) ==>
        AtMostOneOpen(works) && (Eligible(usersService.users, userId) ==> !HasOpen(works, userId))
    {
      var user := usersService.FindById(userId);
      if user.None? || !user.value.confirmed {
        return Failure(NotFound(NotEligibleMessage));
      }
      var ongoing := FirstOpen(works, userId);
      if ongoing.None? {
        return Failure(NotFound(NoOngoingWorkMessage));
      }
      var i := ongoing.value;
      CloseKeepsIds(works, i, now);
      if AtMostOneOpen(works) {
        CloseKeepsInvariant(works, i, now);
      }
      works := Close(works, i, now);
      r := Ok(WorkResponse(true, StoppedMessage, None));
    }

    /** The user's open session, or None; fails only when the user is not eligible. */
    function GetOngoingWork(userId: string): (r: Result<Option<Work>>)
      reads this, usersService
      ensures r.Failure? <==> !Eligible(usersService.users, userId)
      ensures r.Failure? ==> r.error == NotFound(NotEligibleMessage)
      ensures r.Ok? ==> (r.value.Some? <==> HasOpen(works, userId))
      ensures r.Ok? && r.value.Some? ==> r.value.value in works && IsOpenOf(r.value.value, userId)
    {
      var user := usersService.FindById(userId);
      if user.None? || !user.value.confirmed then Failure(NotFound(NotEligibleMessage))
      else
        match FirstOpen(works, userId)
        case None => Ok(None)
        case Some(i) => Ok(Some(works[i]))
    }

    /** Whether the user has an open session; the eligibility failure is passed on, not turned into false. */
    function IsAlreadyWorking(userId: string): (r: Result<bool>)
      reads this, usersService
      ensures r.Failure? <==> !Eligible(usersService.users, userId)
      ensures r.Failure? ==> r.error == NotFound(NotEligibleMessage)
      ensures r.Ok? ==> (r.value <==> HasOpen(works, userId))
    {
      match GetOngoingWork(userId)
      case Failure(e) => Failure(e)
      case Ok(ongoing) => Ok(ongoing.Some?)
    }

    /** The user's closed sessions grouped by start day, hours summed, days ascending. */
    function TotalWorkingTimeByDay(userId: string): (r: Result<seq<DayTotal>>)
      reads this, usersService
      ensures r.Failure? <==> !Eligible(usersService.users, userId)
      ensures r.Failure? ==> r.error == NotFound(NotEligibleMessage)
      ensures r.Ok? ==> StrictlyAscending(r.value)
      ensures r.Ok? ==> Dates(r.value) == ClosedDays(OwnedBy(works, userId))
      ensures r.Ok? ==> forall k :: 0 <= k < |r.value| ==>
        r.value[k].totalHours == HoursOn(OwnedBy(works, userId), r.value[k].date)
    {
      var user := usersService.FindById(userId);
      if user.None? || !user.value.confirmed then Failure(NotFound(NotEligibleMessage))
      else
        TallyMeaning(OwnedBy(works, userId));
        Ok(Tally(OwnedBy(works, userId)))
    }

    /** All users' closed sessions grouped by start day; no eligibility check, never fails. */
    function TotalWorkingTimeForAllUsers(): (r: seq<DayTotal>)
      reads this
      ensures StrictlyAscending(r)
      ensures Dates(r) == ClosedDays(works)
      ensures forall k :: 0 <= k < |r| ==> r[k].totalHours == HoursOn(works, r[k].date)
      ensures r == [] <==> ClosedDays(works) == {}
    {
      TallyMeaning(works);
      Tally(works)
    }
  }
}

/** GoalResource: request validation, the user-header injection, and the
    assembly of each endpoint's reply around the service calls. */
module Resources {
  import opened Wrappers
  import opened Model
  import opened Text
  import opened Repositories
  import opened Services
  import QueryEngine

  /** Every piece upper-cased, in order. */
  function UpperAll(pieces: seq<string>): (r: seq<string>)
    ensures |r| == |pieces|
    ensures forall i :: 0 <= i < |r| ==> r[i] == UpperCase(pieces[i])
  {
    if pieces == [] then [] else [UpperCase(pieces[0])] + UpperAll(pieces[1..])
  }

  /** parseStatusFilter: split on the delimiter and upper-case each piece. */
  method ParseStatusFilter(statusFilter: string, delim: char) returns (inclusions: seq<string>)
    ensures inclusions == UpperAll(Split(statusFilter, delim))
  {
    inclusions := [];
    var statusArray := Split(statusFilter, delim);
    for i := 0 to |statusArray|
      invariant |inclusions| == i
      invariant forall k :: 0 <= k < i ==> inclusions[k] == UpperCase(statusArray[k])
    {
      inclusions := inclusions + [UpperCase(statusArray[i])];
    }
  }

  /** The status filter goals() hands to the service: none without a status parameter. */
  function StatusFilters(status: Option<string>): seq<string>
  {
    if status.Some? then UpperAll(Split(status.value, ',')) else []
  }

  /** isPageInputInvalid. */
  predicate IsPageInputInvalid(page: Option<int>)
  {
    page.Some? && page.value < 1
  }

  /** The page guard lets through exactly the pages the query engine accepts. */
  lemma PageGuardIff(page: Option<int>)
    ensures IsPageInputInvalid(page) <==> !QueryEngine.ValidPage(page)
  {
  }

  /** A token that equals none of GoalStatus.values()' codes, ignoring case. */
  predicate UnknownStatus(s: string)
  {
    forall k :: 0 <= k < |Statuses| ==> !EqualsIgnoreCase(Code(Statuses[k]), s)
  }

  /** isStatusInvalid: some token is unknown. */
  predicate IsStatusInvalid(inputs: seq<string>)
  {
    exists i :: 0 <= i < |inputs| && UnknownStatus(inputs[i])
  }

  /** A token is unknown exactly when its upper-cased form is no status code. */
  lemma UnknownStatusIff(s: string)
    ensures UnknownStatus(s) <==> StatusOfCode(UpperCase(s)).None?
  {
    forall k | 0 <= k < |Statuses|
      ensures EqualsIgnoreCase(Code(Statuses[k]), s) <==> UpperCase(s) == Code(Statuses[k])
    {
      EqualsIgnoreCaseIff(Code(Statuses[k]), s);
      assert UpperCase(Code(Statuses[k])) == Code(Statuses[k]);
    }
    if StatusOfCode(UpperCase(s)).Some? {
      StatusesComplete(StatusOfCode(UpperCase(s)).value);
    }
  }

  /** An upper-cased filter that passes validation holds status codes only, so each
      of its tokens selects exactly one status. */
  lemma ValidFilterHoldsCodes(filter: seq<string>)
    requires forall i :: 0 <= i < |filter| ==> filter[i] == UpperCase(filter[i])
    requires !IsStatusInvalid(filter)
    ensures forall i :: 0 <= i < |filter| ==> StatusOfCode(filter[i]).Some?
  {
    forall i | 0 <= i < |filter| ensures StatusOfCode(filter[i]).Some? {
      UnknownStatusIff(filter[i]);
    }
  }

  /** A parsed status filter is valid exactly when every piece upper-cases to a code. */
  lemma ParsedFilterValidIff(status: string)
    ensures !IsStatusInvalid(StatusFilters(Some(status))) <==>
            forall i :: 0 <= i < |Split(status, ',')| ==> StatusOfCode(UpperCase(Split(status, ',')[i])).Some?
  {
    var f := StatusFilters(Some(status));
    forall i | 0 <= i < |f| ensures UnknownStatus(f[i]) <==> StatusOfCode(f[i]).None? {
      UnknownStatusIff(f[i]);
      UpperCaseIdempotent(Split(status, ',')[i]);
    }
  }

  /** The name guard: a null name, or one that trims to nothing. */
  predicate IsNameInvalid(name: Option<string>)
  {
    name.None? || Trim(name.value) == []
  }

  /** The name guard rejects exactly the null names and those made only of white space. */
  lemma NameInvalidIff(name: Option<string>)
    ensures IsNameInvalid(name) <==> name.None? || forall i :: 0 <= i < |name.value| ==> IsTrimmed(name.value[i])
  {
    if name.Some? {
      TrimEmptyIff(name.value);
    }
  }

  /** rcb.run's fallback on the read path: any failure becomes a 500. */
  function Fallback<T>(r: Result<T, GoalError>): (f: Result<T, GoalError>)
    ensures r.Success? ==> f == r
    ensures r.Failure? ==> f == Failure(InternalError)
  {
    if r.Success? then r else Failure(InternalError)
  }

  /** The zip of the page and the count: both must succeed; the reply carries the
      page's goals and the count as the total. */
  function Assemble(fetched: Result<GoalResponse, GoalError>, count: Result<int, GoalError>): (r: Result<GoalResponse, GoalError>)
    ensures r.Success? <==> fetched.Success? && count.Success?
    ensures r.Success? ==> r.value.goals == fetched.value.goals && r.value.totalgoals == Some(count.value)
    ensures r.Failure? ==> (fetched.Failure? && r.error == fetched.error) || (count.Failure? && r.error == count.error)
  {
    match fetched
    case Failure(e) => Failure(e)
    case Success(response) =>
      match count
      case Failure(e) => Failure(e)
      case Success(total) => Success(GoalResponse(response.goals, Some(total)))
  }

  /** The conflict failure is recognised by its message, so it keeps its 409. */
  lemma ConflictMessageMatches()
    ensures Contains(MessageOf(Conflict), "Conflict")
  {
    assert StartsWith("Conflict!", "Conflict");
  }

  /** An HTTP reply with a goal body: 201 with a location, 200, or 404. */
  datatype Reply = Created(location: string, body: Goal) | Ok(body: Goal) | NotFound

  class GoalResource {
    const service: GoalService

    constructor (service: GoalService)
      ensures this.service == service
    {
      this.service := service;
    }

    /** GET /goals: validate the page, parse and validate the status filter, then
        join one page of goals with the owner's total count. */
    method Goals(text: Option<string>, page: Option<int>, status: Option<string>, user: string)
      returns (r: Result<GoalResponse, GoalError>)
      ensures IsPageInputInvalid(page) ==> r == Failure(ValidationException("Wrong input!"))
      ensures !IsPageInputInvalid(page) && IsStatusInvalid(StatusFilters(status)) ==>
                r == Failure(ValidationException("Wrong input!!"))
      ensures !IsPageInputInvalid(page) && !IsStatusInvalid(StatusFilters(status)) ==>
                && (service.repo.readFault.Some? ==> r == Failure(InternalError))
                && (service.repo.readFault.None? ==>
                      r == Success(GoalResponse(
                             QueryEngine.FetchGoals(service.repo.goals, service.repo.matches, text, page,
                                                    StatusFilters(status), user, service.pageSize),
                             Some(FindTotalCount(service.repo.goals, user)))))
    {
      if IsPageInputInvalid(page) {
        return Failure(ValidationException("Wrong input!"));
      }
      var statusFilters: seq<string> := [];
      if status.Some? {
        statusFilters := ParseStatusFilter(status.value, ',');
      }
      if IsStatusInvalid(statusFilters) {
        return Failure(ValidationException("Wrong input!!"));
      }
      var fetched := Fallback(service.FetchGoals(text, page, statusFilters, user));
      var count := Fallback(service.FindTotalGoalCount(user));
      TotalCountIsListingLength(service.repo.goals, user);
      r := Assemble(fetched, count);
    }

    /** POST /goal: reject a missing or blank name, take the owner from the user
        header, add; a conflict passes through as 409, any other failure is a 500. */
    method AddGoal(goal: Goal, user: string) returns (r: Result<Reply, GoalError>)
      requires service.Valid()
      modifies service`events, service.repo`goals
      ensures service.Valid()
      ensures IsNameInvalid(goal.name) ==>
                && r == Failure(ValidationException("Wrong input!"))
                && service.repo.goals == old(service.repo.goals) && service.events == old(service.events)
      ensures !IsNameInvalid(goal.name) ==>
                var t := AddTransition(old(service.repo.goals), service.repo.readFault, service.repo.saveFault,
                                       goal.(userId := user));
                && service.repo.goals == t.goals && service.events == old(service.events) + t.emitted
                && (t.result.Success? ==> r == Success(Created("/" + Render(t.result.value.id), t.result.value)))
                && (t.result.Failure? && Contains(MessageOf(t.result.error), "Conflict") ==> r == Failure(t.result.error))
                && (t.result.Failure? && !Contains(MessageOf(t.result.error), "Conflict") ==> r == Failure(InternalError))
      ensures (!IsNameInvalid(goal.name) && service.repo.readFault.None? &&
               FindByNameAndUserId(old(service.repo.goals), goal.name, user).Some?) ==> r == Failure(Conflict)
      ensures r.Success? ==> r.value.Created? && r.value.body.userId == user
    {
      if IsNameInvalid(goal.name) {
        return Failure(ValidationException("Wrong input!"));
      }
      var owned := goal.(userId := user);
      var added := service.AddGoal(owned);
      match added
      case Success(saved) =>
        r := Success(Created("/" + Render(saved.id), saved));
      case Failure(e) =>
        ConflictMessageMatches();
        if Contains(MessageOf(e), "Conflict") {
          r := Failure(e);
        } else {
          r := Failure(InternalError);
        }
    }

    /** PUT /goal: reject a missing or blank name, take the owner from the user
        header, update; no such goal is 404, any failure is a 500. */
    method UpdateGoalStatus(goal: Goal, user: string, today: Date) returns (r: Result<Reply, GoalError>)
      requires service.Valid()
      modifies service`events, service.repo`goals
      ensures service.Valid()
      ensures IsNameInvalid(goal.name) ==>
                && r == Failure(ValidationException("Wrong input!"))
                && service.repo.goals == old(service.repo.goals) && service.events == old(service.events)
      ensures !IsNameInvalid(goal.name) ==>
                var t := UpdateTransition(old(service.repo.goals), service.repo.readFault, service.repo.saveFault,
                                          goal.(userId := user), today);
                && service.repo.goals == t.goals && service.events == old(service.events) + t.emitted
                && (t.result.Failure? ==> r == Failure(InternalError))
                && (t.result == Success(None) ==> r == Success(NotFound))
                && (t.result.Success? && t.result.value.Some? ==> r == Success(Ok(t.result.value.value)))
      ensures r.Success? && r.value.Ok? ==> r.value.body.userId == user
    {
      if IsNameInvalid(goal.name) {
        return Failure(ValidationException("Wrong input!"));
      }
      var owned := goal.(userId := user);
      var updated := service.UpdateGoal(owned, today);
      match updated
      case Failure(_) =>
        r := Failure(InternalError);
      case Success(None) =>
        r := Success(NotFound);
      case Success(Some(saved)) =>
        r := Success(Ok(saved));
    }
  }
}

/** GoalService: the query entry point, the owner count, and the two state
    changes (add and status update), each one store save followed by one
    published event. The reactive chain is sequential here. */
module Services {
  import opened Wrappers
  import opened Model
  import opened Repositories
  import QueryEngine

  /** One call's outcome: its result, the store contents after it, and the events
      it published, in order. */
  datatype Transition<R> = Transition(result: Result<R, GoalError>, goals: seq<Goal>, emitted: seq<Event>)

  /** addGoal: a goal of the same (name, userId) is a 409 conflict; otherwise one save
      and one GOAL_ADDED event keyed by the saved id. Store failures propagate as they are. */
  function AddTransition(goals: seq<Goal>, readFault: Option<string>, saveFault: Option<string>, goal: Goal): (t: Transition<Goal>)
    ensures t.result.Failure? ==> t.goals == goals && t.emitted == []
    ensures readFault.Some? ==> t.result == Failure(DataAccessError(readFault.value))
    ensures readFault.None? && FindByNameAndUserId(goals, goal.name, goal.userId).Some? ==>
              t.result == Failure(Conflict)
    ensures readFault.None? && FindByNameAndUserId(goals, goal.name, goal.userId).None? && saveFault.Some? ==>
              t.result == Failure(DataAccessError(saveFault.value))
    ensures t.result.Success? <==>
              readFault.None? && saveFault.None? && FindByNameAndUserId(goals, goal.name, goal.userId).None?
    ensures t.result.Success? ==>
              && Upsert(goals, goal) == Saved(t.result.value, t.goals)
              && t.result.value.id.Some?
              && t.emitted == [Event(GOAL_ADDED, t.result.value.id, t.result.value)]
    ensures IdsValid(goals) ==> IdsValid(t.goals)
    ensures IdsValid(goals) && NamesUnique(goals) ==> NamesUnique(t.goals)
    ensures t.result.Success? && IdsValid(goals) ==>
              && t.result.value in t.goals
              && forall i :: 0 <= i < |t.goals| && SameKey(t.goals[i], goal) ==> t.goals[i] == t.result.value
  {
    if readFault.Some? then Transition(Failure(DataAccessError(readFault.value)), goals, [])
    else if FindByNameAndUserId(goals, goal.name, goal.userId).Some? then Transition(Failure(Conflict), goals, [])
    else if saveFault.Some? then Transition(Failure(DataAccessError(saveFault.value)), goals, [])
    else
      var s := Upsert(goals, goal);
      assert IdsValid(goals) && NamesUnique(goals) ==> NamesUnique(s.goals) by {
        if IdsValid(goals) && NamesUnique(goals) {
          UpsertKeepsNamesUnique(goals, goal);
        }
      }
      Transition(Success(s.saved), s.goals, [Event(GOAL_ADDED, s.saved.id, s.saved)])
  }

  /** Adding the same goal twice: once the first add succeeds, the second is a conflict
      and changes nothing. */
  lemma AddTwiceConflicts(goals: seq<Goal>, goal: Goal)
    requires IdsValid(goals)
    ensures var first := AddTransition(goals, None, None, goal);
            var second := AddTransition(first.goals, None, None, goal);
            first.result.Success? ==>
              second.result == Failure(Conflict) && second.goals == first.goals && second.emitted == []
  {
    var first := AddTransition(goals, None, None, goal);
    if first.result.Success? {
      var saved := first.result.value;
      assert saved in first.goals && HasKey(saved, goal.name, goal.userId);
      var k :| 0 <= k < |first.goals| && first.goals[k] == saved;
      assert HasKey(first.goals[k], goal.name, goal.userId);
    }
  }

  /** The stored fields an update keeps from the current record. */
  predicate KeepsStoredFields(r: Goal, current: Goal)
  {
    && r.name == current.name
    && r.description == current.description
    && r.dueDate == current.dueDate
    && r.level == current.level
    && r.id == current.id
    && r.userId == current.userId
  }

  /** The goal updateGoal saves: a fresh Goal with the stored identity and details,
      the incoming status and notes; completion stamps today's date and 3 votes. */
  function MergeForUpdate(current: Goal, incoming: Goal, today: Date): (r: Goal)
    ensures KeepsStoredFields(r, current)
    ensures r.status == incoming.status && r.notes == incoming.notes
    ensures r.status == COMPLETED ==> r.completedOn == Some(today) && r.votes == 3
    ensures r.status != COMPLETED ==> r.completedOn == None && r.votes == 0
  {
    var blank := Goal(None, "", None, None, None, None, None, ACTIVE, None, 0);
    var copied := blank.(name := current.name, description := current.description, dueDate := current.dueDate,
                          level := current.level, id := current.id, userId := current.userId);
    var stamped := if incoming.status == COMPLETED then copied.(completedOn := Some(today), votes := 3) else copied;
    stamped.(status := incoming.status, notes := incoming.notes)
  }

  /** Re-applying the same update to its own result changes nothing. */
  lemma MergeIdempotent(current: Goal, incoming: Goal, today: Date)
    ensures MergeForUpdate(MergeForUpdate(current, incoming, today), incoming, today)
            == MergeForUpdate(current, incoming, today)
  {
  }

  /** The event an update publishes, from the saved goal's status. */
  function EventTypeFor(s: GoalStatus): (r: EventType)
    ensures r != GOAL_ADDED && r != TASK_ADDED && r != TASK_COMPLETED
  {
    match s
    case ACTIVE => GOAL_RESUMED
    case DEFERRED => GOAL_DEFERRED
    case COMPLETED => GOAL_COMPLETED
  }

  /** Distinct statuses give distinct events, so a consumer can read the new status off the type. */
  lemma EventTypeForInjective(a: GoalStatus, b: GoalStatus)
    ensures EventTypeFor(a) == EventTypeFor(b) ==> a == b
  {
  }

  /** updateGoal: no stored goal of that (name, userId) gives an empty result and no
      side effect; otherwise the merged goal is saved and one event is published whose
      type follows its status. Any lookup or save failure becomes a 500. A matched goal
      whose name is null makes the non-null name setter throw while the merged goal is
      built, before anything is saved, so that case is a 500 with no side effect too. */
  function UpdateTransition(goals: seq<Goal>, readFault: Option<string>, saveFault: Option<string>,
                            goal: Goal, today: Date): (t: Transition<Option<Goal>>)
    ensures t.result.Failure? ==> t.result == Failure(InternalError) && t.goals == goals && t.emitted == []
    ensures readFault.Some? ==> t.result.Failure?
    ensures t.result == Success(None) <==>
              readFault.None? && FindByNameAndUserId(goals, goal.name, goal.userId).None?
    ensures t.result == Success(None) ==> t.goals == goals && t.emitted == []
    ensures t.result.Success? && t.result.value.Some? <==>
              && readFault.None? && saveFault.None? && goal.name.Some?
              && FindByNameAndUserId(goals, goal.name, goal.userId).Some?
    ensures readFault.None? && FindByNameAndUserId(goals, goal.name, goal.userId).Some? && saveFault.Some? ==>
              t.result.Failure?
    ensures readFault.None? && FindByNameAndUserId(goals, goal.name, goal.userId).Some? && goal.name.None? ==>
              t.result == Failure(InternalError) && t.goals == goals && t.emitted == []
    ensures t.result.Success? && t.result.value.Some? ==>
              var s := t.result.value.value;
              && readFault.None? && saveFault.None?
              && FindByNameAndUserId(goals, goal.name, goal.userId).Some?
              && var merged := MergeForUpdate(FindByNameAndUserId(goals, goal.name, goal.userId).value, goal, today);
              && Upsert(goals, merged) == Saved(s, t.goals)
              && (IdsValid(goals) ==> s == merged)
              && t.emitted == [Event(EventTypeFor(s.status), s.id, s)]
    ensures IdsValid(goals) ==> IdsValid(t.goals)
    ensures IdsValid(goals) && t.result.Success? && t.result.value.Some? ==>
              |t.goals| == |goals| && t.result.value.value in t.goals
    ensures IdsValid(goals) && NamesUnique(goals) ==> NamesUnique(t.goals)
  {
    if readFault.Some? then Transition(Failure(InternalError), goals, [])
    else match FindByNameAndUserId(goals, goal.name, goal.userId)
      case None => Transition(Success(None), goals, [])
      case Some(current) =>
        if current.name.None? || saveFault.Some? then Transition(Failure(InternalError), goals, [])
        else
          var merged := MergeForUpdate(current, goal, today);
          var s := Upsert(goals, merged);
          assert IdsValid(goals) ==> IdStored(goals, merged.id) && s.saved == merged by {
            if IdsValid(goals) {
              var k :| 0 <= k < |goals| && goals[k] == current;
            }
          }
          assert IdsValid(goals) && NamesUnique(goals) ==> NamesUnique(s.goals) by {
            if IdsValid(goals) && NamesUnique(goals) {
              var k :| 0 <= k < |goals| && goals[k] == current;
              assert forall i :: 0 <= i < |goals| && SameKey(goals[i], merged) ==> i == k;
              UpsertKeepsNamesUnique(goals, merged);
            }
          }
          Transition(Success(Some(s.saved)), s.goals, [Event(EventTypeFor(s.saved.status), s.saved.id, s.saved)])
  }

  class GoalService {
    const repo: GoalRepository
    /** The output-goals channel: every event published so far, in order. */
    var events: seq<Event>
    /** The configured page size, fixed for the life of the process. */
    const pageSize: nat

    ghost predicate Valid()
      reads this, repo
    {
      repo.Valid()
    }

    constructor (repo: GoalRepository, pageSize: nat)
      requires repo.Valid()
      ensures Valid() && this.repo == repo && this.pageSize == pageSize && events == []
    {
      this.repo := repo;
      this.pageSize := pageSize;
      events := [];
    }

    /** fetchGoals: a read failure fails the call; otherwise the response carries the
        query engine's page and no total yet. */
    function FetchGoals(text: Option<string>, page: Option<int>, statusFilter: seq<string>, user: string): (r: Result<GoalResponse, GoalError>)
      reads this, repo
      requires QueryEngine.ValidPage(page)
      ensures repo.readFault.Some? ==> r == Failure(DataAccessError(repo.readFault.value))
      ensures repo.readFault.None? ==>
                && r.Success? && r.value.totalgoals.None?
                && r.value.goals == QueryEngine.FetchGoals(repo.goals, repo.matches, text, page, statusFilter, user, pageSize)
    {
      if repo.readFault.Some? then Failure(DataAccessError(repo.readFault.value))
      else Success(GoalResponse(QueryEngine.FetchGoals(repo.goals, repo.matches, text, page, statusFilter, user, pageSize), None))
    }

    /** findTotalGoalCount: the number of goals the user owns, whatever the filters. */
    function FindTotalGoalCount(user: string): (r: Result<int, GoalError>)
      reads repo
      ensures repo.readFault.Some? ==> r == Failure(DataAccessError(repo.readFault.value))
      ensures repo.readFault.None? ==> r == Success(|FindAllByUserId(repo.goals, user)|)
    {
      TotalCountIsListingLength(repo.goals, user);
      if repo.readFault.Some? then Failure(DataAccessError(repo.readFault.value))
      else Success(FindTotalCount(repo.goals, user))
    }

    /** addGoal: look up (name, userId), then save, then publish GOAL_ADDED. */
    method AddGoal(goal: Goal) returns (r: Result<Goal, GoalError>)
      requires Valid()
      modifies this`events, repo`goals
      ensures Valid()
      ensures var t := AddTransition(old(repo.goals), repo.readFault, repo.saveFault, goal);
              r == t.result && repo.goals == t.goals && events == old(events) + t.emitted
    {
      if repo.readFault.Some? {
        return Failure(DataAccessError(repo.readFault.value));
      }
      if FindByNameAndUserId(repo.goals, goal.name, goal.userId).Some? {
        return Failure(Conflict);
      }
      r := repo.Save(goal);
      if r.Success? {
        events := events + [Event(GOAL_ADDED, r.value.id, r.value)];
      }
    }

    /** updateGoal: look up (name, userId), save the merged goal, publish its status event. */
    method UpdateGoal(goal: Goal, today: Date) returns (r: Result<Option<Goal>, GoalError>)
      requires Valid()
      modifies this`events, repo`goals
      ensures Valid()
      ensures var t := UpdateTransition(old(repo.goals), repo.readFault, repo.saveFault, goal, today);
              r == t.result && repo.goals == t.goals && events == old(events) + t.emitted
    {
      if repo.readFault.Some? {
        return Failure(InternalError);
      }
      var current := FindByNameAndUserId(repo.goals, goal.name, goal.userId);
      if current.None? {
        return Success(None);
      }
      if current.value.name.None? {
        return Failure(InternalError);
      }
      var saved := repo.Save(MergeForUpdate(current.value, goal, today));
      if saved.Failure? {
        return Failure(InternalError);
      }
      var savedGoal := saved.value;
      events := events + [Event(EventTypeFor(savedGoal.status), savedGoal.id, savedGoal)];
      r := Success(Some(savedGoal));
    }
  }
}

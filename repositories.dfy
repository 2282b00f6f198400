/** The goal store: the queries the service issues, as functions over the
    stored records in their natural order, and save as an upsert by id. */
module Repositories {
  import opened Wrappers
  import opened Model
  import opened Seqs

  /** findAllByUserId: the user's goals in store order (exact match on userId). */
  function FindAllByUserId(goals: seq<Goal>, user: string): (r: seq<Goal>)
    ensures forall i :: 0 <= i < |r| ==> r[i].userId == user && r[i] in goals
  {
    Filter(goals, (g: Goal) => g.userId == user)
  }

  /** findAllBy(text criteria): the stored records the text query matches, in store
      order, whatever their owner. */
  function FindAllByText(goals: seq<Goal>, matches: (Goal, string) -> bool, text: string): (r: seq<Goal>)
    ensures forall i :: 0 <= i < |r| ==> matches(r[i], text) && r[i] in goals
  {
    Filter(goals, (g: Goal) => matches(g, text))
  }

  /** findTotalCount: the count query {userId: user}. */
  function FindTotalCount(goals: seq<Goal>, user: string): nat
  {
    if goals == [] then 0
    else (if goals[0].userId == user then 1 else 0) + FindTotalCount(goals[1..], user)
  }

  /** The count query and the listing agree: the count is the number of the user's goals. */
  lemma {:induction false} TotalCountIsListingLength(goals: seq<Goal>, user: string)
    ensures FindTotalCount(goals, user) == |FindAllByUserId(goals, user)|
  {
    if goals != [] {
      TotalCountIsListingLength(goals[1..], user);
    }
  }

  predicate HasKey(g: Goal, name: Option<string>, userId: string)
  {
    g.name == name && g.userId == userId
  }

  predicate SameKey(a: Goal, b: Goal)
  {
    HasKey(a, b.name, b.userId)
  }

  /** findByNameAndUserId: the first stored goal with this name and owner, if any. */
  function FindByNameAndUserId(goals: seq<Goal>, name: Option<string>, userId: string): (r: Option<Goal>)
    ensures r.Some? ==> r.value in goals && HasKey(r.value, name, userId)
    ensures r.None? <==> forall i :: 0 <= i < |goals| ==> !HasKey(goals[i], name, userId)
  {
    if goals == [] then None
    else if HasKey(goals[0], name, userId) then Some(goals[0])
    else FindByNameAndUserId(goals[1..], name, userId)
  }

  /** Every stored record has an id and no two share one. */
  predicate IdsValid(goals: seq<Goal>)
  {
    && (forall i :: 0 <= i < |goals| ==> goals[i].id.Some?)
    && (forall i, j :: 0 <= i < j < |goals| ==> goals[i].id != goals[j].id)
  }

  /** No two stored goals share a (name, userId) pair. */
  predicate NamesUnique(goals: seq<Goal>)
  {
    forall i, j :: 0 <= i < j < |goals| ==> !SameKey(goals[i], goals[j])
  }

  function MaxIdLength(goals: seq<Goal>): (r: nat)
    ensures forall i :: 0 <= i < |goals| && goals[i].id.Some? ==> |goals[i].id.value| <= r
  {
    if goals == [] then 0
    else
      var rest := MaxIdLength(goals[1..]);
      var here := if goals[0].id.Some? then |goals[0].id.value| else 0;
      if here > rest then here else rest
  }

  /** The id the store assigns to a new record: longer than every stored id, so unused. */
  function FreshId(goals: seq<Goal>): (r: string)
    ensures forall i :: 0 <= i < |goals| ==> goals[i].id != Some(r)
  {
    seq(MaxIdLength(goals) + 1, _ => 'x')
  }

  /** The position of the record with this id, if any. */
  function IndexOfId(goals: seq<Goal>, id: string): (r: Option<nat>)
    ensures r.Some? ==> r.value < |goals| && goals[r.value].id == Some(id)
    ensures r.None? <==> forall i :: 0 <= i < |goals| ==> goals[i].id != Some(id)
  {
    if goals == [] then None
    else if goals[0].id == Some(id) then Some(0)
    else match IndexOfId(goals[1..], id)
      case Some(k) => Some(k + 1)
      case None => None
  }

  /** What a save leaves behind: the saved record and the new store contents. */
  datatype Saved = Saved(saved: Goal, goals: seq<Goal>)

  predicate IdStored(goals: seq<Goal>, id: Option<string>)
  {
    exists k :: 0 <= k < |goals| && goals[k].id == id && id.Some?
  }

  /** save: a goal without an id is inserted under a fresh id; a goal with an id
      replaces the record holding that id in place, or is inserted if none does. */
  function Upsert(goals: seq<Goal>, g: Goal): (r: Saved)
    ensures r.saved.id.Some? && r.saved == g.(id := r.saved.id)
    ensures g.id.Some? ==> r.saved == g
    ensures g.id.None? ==> forall i :: 0 <= i < |goals| ==> goals[i].id != r.saved.id
    ensures IdStored(goals, g.id) ==> |r.goals| == |goals| && r.saved in r.goals
    ensures !IdStored(goals, g.id) ==> r.goals == goals + [r.saved]
    ensures forall k :: 0 <= k < |goals| && goals[k].id != r.saved.id ==> r.goals[k] == goals[k]
    ensures IdsValid(goals) ==> IdsValid(r.goals)
    ensures IdsValid(goals) ==>
              forall x :: x in r.goals <==> x == r.saved || (x in goals && x.id != r.saved.id)
  {
    match g.id
    case None =>
      var s := g.(id := Some(FreshId(goals)));
      Saved(s, goals + [s])
    case Some(id) =>
      match IndexOfId(goals, id)
      case Some(k) =>
        var updated := goals[k := g];
        assert updated[k] == g;
        Saved(g, updated)
      case None => Saved(g, goals + [g])
  }

  /** A save keeps (name, userId) pairs unique when the only stored record that shares
      the saved goal's pair (if any) is the very record the save replaces. */
  lemma UpsertKeepsNamesUnique(goals: seq<Goal>, g: Goal)
    requires IdsValid(goals) && NamesUnique(goals)
    requires forall i :: 0 <= i < |goals| && SameKey(goals[i], g) ==> g.id.Some? && goals[i].id == g.id
    ensures NamesUnique(Upsert(goals, g).goals)
  {
    var r := Upsert(goals, g);
    forall i, j | 0 <= i < j < |r.goals| ensures !SameKey(r.goals[i], r.goals[j]) {
      var a, b := r.goals[i], r.goals[j];
      assert a.id != b.id;
      assert a in r.goals && b in r.goals;
      if a == r.saved || b == r.saved {
        var o := if a == r.saved then b else a;
        assert o in goals && o.id != r.saved.id;
        var p :| 0 <= p < |goals| && goals[p] == o;
        assert !SameKey(goals[p], g);
      } else {
        var p :| 0 <= p < |goals| && goals[p] == a;
        var q :| 0 <= q < |goals| && goals[q] == b;
        assert p != q;
      }
    }
  }

  /** The store. readFault and saveFault stand for the database: Some(message)
      means that kind of call fails with that message. matches stands for the
      full-text index: whether a record matches a text query, owner-agnostic. */
  class GoalRepository {
    var goals: seq<Goal>
    var matches: (Goal, string) -> bool
    var readFault: Option<string>
    var saveFault: Option<string>

    ghost predicate Valid()
      reads this
    {
      IdsValid(goals)
    }

    constructor (goals: seq<Goal>, matches: (Goal, string) -> bool, readFault: Option<string>, saveFault: Option<string>)
      requires IdsValid(goals)
      ensures Valid()
      ensures this.goals == goals && this.matches == matches
      ensures this.readFault == readFault && this.saveFault == saveFault
    {
      this.goals := goals;
      this.matches := matches;
      this.readFault := readFault;
      this.saveFault := saveFault;
    }

    /** save: fails with the store's message, or upserts and returns the saved record. */
    method Save(g: Goal) returns (r: Result<Goal, GoalError>)
      requires Valid()
      modifies this`goals
      ensures Valid()
      ensures saveFault.Some? ==> r == Failure(DataAccessError(saveFault.value)) && goals == old(goals)
      ensures saveFault.None? ==>
                r == Success(Upsert(old(goals), g).saved) && goals == Upsert(old(goals), g).goals
    {
      if saveFault.Some? {
        return Failure(DataAccessError(saveFault.value));
      }
      var u := Upsert(goals, g);
      goals := u.goals;
      r := Success(u.saved);
    }
  }
}

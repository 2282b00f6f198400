/** GoalService.fetchGoals as a pure pipeline: pick the source sequence (the
    text-search hits post-filtered by owner, or the owner's listing), keep the
    goals whose status passes the filter, skip to the page's offset and take
    one page. */
module QueryEngine {
  import opened Wrappers
  import opened Model
  import opened Text
  import opened Seqs
  import opened Repositories

  /** The page the caller may pass: absent, or at least 1. */
  predicate ValidPage(page: Option<int>)
  {
    page.Some? ==> page.value >= 1
  }

  /** The number of filtered goals before the page: 0 without a page, (page-1)*pageSize
      otherwise, in unbounded arithmetic (OffsetAsWritten is the 32-bit computation at
      GoalService.java:73). */
  function Offset(page: Option<int>, pageSize: nat): nat
    requires ValidPage(page)
  {
    if page.None? then 0 else (page.value - 1) * pageSize
  }

  /** Pages tile the filtered sequence: page 1 starts at 0 and each next page starts
      pageSize further on, so no goal is skipped or repeated between pages. */
  lemma OffsetTiles(p: int, pageSize: nat)
    requires p >= 1
    ensures Offset(None, pageSize) == Offset(Some(1), pageSize) == 0
    ensures Offset(Some(p + 1), pageSize) == Offset(Some(p), pageSize) + pageSize
  {
  }

  /** The status half of the filter: an empty filter keeps everything, otherwise
      the goal's status code must be listed. */
  predicate StatusMatches(g: Goal, statusFilter: seq<string>)
  {
    |statusFilter| == 0 || Code(g.status) in statusFilter
  }

  /** The search branch's filter: status, and the owner compared ignoring case. */
  predicate SearchMatches(g: Goal, statusFilter: seq<string>, user: string)
  {
    StatusMatches(g, statusFilter) && EqualsIgnoreCase(g.userId, user)
  }

  /** The filtered source sequence, before paging. */
  function Filtered(stored: seq<Goal>, matches: (Goal, string) -> bool, text: Option<string>,
                    statusFilter: seq<string>, user: string): seq<Goal>
  {
    if text.Some? then Filter(FindAllByText(stored, matches, text.value), (g: Goal) => SearchMatches(g, statusFilter, user))
    else Filter(FindAllByUserId(stored, user), (g: Goal) => StatusMatches(g, statusFilter))
  }

  /** fetchGoals: one page of the filtered sequence, in order. */
  function FetchGoals(stored: seq<Goal>, matches: (Goal, string) -> bool, text: Option<string>,
                      page: Option<int>, statusFilter: seq<string>, user: string, pageSize: nat): (r: seq<Goal>)
    requires ValidPage(page)
    ensures var f := Filtered(stored, matches, text, statusFilter, user);
            var offset := Offset(page, pageSize);
            && |r| <= pageSize
            && |r| == (if offset >= |f| then 0 else Min(pageSize, |f| - offset))
            && forall i :: 0 <= i < |r| ==> offset + i < |f| && r[i] == f[offset + i]
  {
    var f := Filtered(stored, matches, text, statusFilter, user);
    var offset := Offset(page, pageSize);
    SkipTake(f, offset, pageSize);
    Take(Skip(f, offset), pageSize)
  }

  /** A listing page shows only the user's stored goals, each passing the status filter. */
  lemma ListingSound(stored: seq<Goal>, matches: (Goal, string) -> bool, page: Option<int>,
                     statusFilter: seq<string>, user: string, pageSize: nat)
    requires ValidPage(page)
    ensures var r := FetchGoals(stored, matches, None, page, statusFilter, user, pageSize);
            forall i :: 0 <= i < |r| ==> StatusMatches(r[i], statusFilter) && r[i].userId == user && r[i] in stored
  {
    var owned := FindAllByUserId(stored, user);
    var f := Filtered(stored, matches, None, statusFilter, user);
    var p := (g: Goal) => StatusMatches(g, statusFilter);
    assert f == Filter(owned, p);
    FilterWindow(owned, p, Offset(page, pageSize), pageSize);
    var r := FetchGoals(stored, matches, None, page, statusFilter, user, pageSize);
    forall i | 0 <= i < |r|
      ensures r[i].userId == user && r[i] in stored
    {
      var k :| 0 <= k < |owned| && owned[k] == r[i];
    }
  }

  /** A search page shows only stored records the text matches whose owner equals
      the user ignoring case, each passing the status filter. */
  lemma SearchSound(stored: seq<Goal>, matches: (Goal, string) -> bool, text: string, page: Option<int>,
                    statusFilter: seq<string>, user: string, pageSize: nat)
    requires ValidPage(page)
    ensures var r := FetchGoals(stored, matches, Some(text), page, statusFilter, user, pageSize);
            forall i :: 0 <= i < |r| ==>
              SearchMatches(r[i], statusFilter, user) && matches(r[i], text) && r[i] in stored
  {
    var hits := FindAllByText(stored, matches, text);
    var f := Filtered(stored, matches, Some(text), statusFilter, user);
    var p := (g: Goal) => SearchMatches(g, statusFilter, user);
    assert f == Filter(hits, p);
    FilterWindow(hits, p, Offset(page, pageSize), pageSize);
    var r := FetchGoals(stored, matches, Some(text), page, statusFilter, user, pageSize);
    forall i | 0 <= i < |r|
      ensures matches(r[i], text) && r[i] in stored
    {
      var k :| 0 <= k < |hits| && hits[k] == r[i];
    }
  }

  /** A goal is in the filtered sequence exactly when it is in the source sequence
      and passes the filter. */
  lemma FilteredIff(stored: seq<Goal>, matches: (Goal, string) -> bool, text: Option<string>,
                    statusFilter: seq<string>, user: string, g: Goal)
    ensures text.None? ==>
              (g in Filtered(stored, matches, text, statusFilter, user) <==>
               g in stored && g.userId == user && StatusMatches(g, statusFilter))
    ensures text.Some? ==>
              (g in Filtered(stored, matches, text, statusFilter, user) <==>
               g in stored && matches(g, text.value) && EqualsIgnoreCase(g.userId, user) && StatusMatches(g, statusFilter))
  {
    if text.Some? {
      FilterMembership(FindAllByText(stored, matches, text.value), (g: Goal) => SearchMatches(g, statusFilter, user), g);
      FilterMembership(stored, (g: Goal) => matches(g, text.value), g);
    } else {
      var owned := FindAllByUserId(stored, user);
      FilterMembership(owned, (g: Goal) => StatusMatches(g, statusFilter), g);
      FilterMembership(stored, (g: Goal) => g.userId == user, g);
    }
  }

  /** An empty status filter is no filtering: the listing is the owner's goals
      and the search keeps every hit of that owner. */
  lemma EmptyStatusFilterKeepsAll(stored: seq<Goal>, matches: (Goal, string) -> bool, text: Option<string>, user: string)
    ensures text.None? ==> Filtered(stored, matches, text, [], user) == FindAllByUserId(stored, user)
    ensures text.Some? ==>
              Filtered(stored, matches, text, [], user)
              == Filter(FindAllByText(stored, matches, text.value), (g: Goal) => EqualsIgnoreCase(g.userId, user))
  {
    if text.Some? {
      FilterAgree(FindAllByText(stored, matches, text.value), (g: Goal) => SearchMatches(g, [], user),
                  (g: Goal) => EqualsIgnoreCase(g.userId, user));
    } else {
      FilterAll(FindAllByUserId(stored, user), (g: Goal) => StatusMatches(g, []));
    }
  }

  /** Goals of other owners never appear in a listing. */
  lemma OtherOwnersInvisible(stored: seq<Goal>, matches: (Goal, string) -> bool, page: Option<int>,
                             statusFilter: seq<string>, user: string, pageSize: nat)
    requires ValidPage(page)
    requires forall i :: 0 <= i < |stored| ==> stored[i].userId != user
    ensures FetchGoals(stored, matches, None, page, statusFilter, user, pageSize) == []
  {
  }

  /** Stored records the text matches that belong to other owners, even ignoring
      case, never appear. */
  lemma SearchOtherOwnersInvisible(stored: seq<Goal>, matches: (Goal, string) -> bool, text: string,
                                   page: Option<int>, statusFilter: seq<string>, user: string, pageSize: nat)
    requires ValidPage(page)
    requires forall i :: 0 <= i < |stored| && matches(stored[i], text) ==> !EqualsIgnoreCase(stored[i].userId, user)
    ensures FetchGoals(stored, matches, Some(text), page, statusFilter, user, pageSize) == []
  {
    var hits := FindAllByText(stored, matches, text);
    var p := (g: Goal) => SearchMatches(g, statusFilter, user);
    assert Filtered(stored, matches, Some(text), statusFilter, user) == Filter(hits, p);
    forall g | g in hits ensures !p(g) {
      var k :| 0 <= k < |hits| && hits[k] == g;
      var j :| 0 <= j < |stored| && stored[j] == g;
    }
    FilterNone(hits, p);
  }

  /** Every filtered goal is found on page j / pageSize + 1, at position j % pageSize. */
  lemma ItemOnPage(stored: seq<Goal>, matches: (Goal, string) -> bool, text: Option<string>,
                   statusFilter: seq<string>, user: string, pageSize: nat, j: nat)
    requires pageSize > 0
    requires j < |Filtered(stored, matches, text, statusFilter, user)|
    ensures 0 <= j / pageSize && 0 <= j % pageSize < pageSize
    ensures var r := FetchGoals(stored, matches, text, Some(j / pageSize + 1), statusFilter, user, pageSize);
            j % pageSize < |r| && r[j % pageSize] == Filtered(stored, matches, text, statusFilter, user)[j]
  {
    PageOfIndex(j, pageSize);
    PositionOnPage(stored, matches, text, statusFilter, user, pageSize, j / pageSize + 1, j % pageSize);
  }

  /** Euclidean division splits j into whole pages before it and a position on its page. */
  lemma PageOfIndex(j: nat, pageSize: nat)
    requires pageSize > 0
    ensures 0 <= j / pageSize && 0 <= j % pageSize < pageSize
    ensures Offset(Some(j / pageSize + 1), pageSize) + j % pageSize == j
  {
  }

  /** Position m of page p holds filtered goal Offset(p) + m, when there is one. */
  lemma PositionOnPage(stored: seq<Goal>, matches: (Goal, string) -> bool, text: Option<string>,
                       statusFilter: seq<string>, user: string, pageSize: nat, p: int, m: nat)
    requires p >= 1 && m < pageSize
    requires Offset(Some(p), pageSize) + m < |Filtered(stored, matches, text, statusFilter, user)|
    ensures var r := FetchGoals(stored, matches, text, Some(p), statusFilter, user, pageSize);
            m < |r| && r[m] == Filtered(stored, matches, text, statusFilter, user)[Offset(Some(p), pageSize) + m]
  {
  }

  /** A listing page never holds more goals than the owner's total count reports. */
  lemma ListingWithinTotalCount(stored: seq<Goal>, matches: (Goal, string) -> bool, page: Option<int>,
                                statusFilter: seq<string>, user: string, pageSize: nat)
    requires ValidPage(page)
    ensures |FetchGoals(stored, matches, None, page, statusFilter, user, pageSize)| <= FindTotalCount(stored, user)
  {
    TotalCountIsListingLength(stored, user);
    var owned := FindAllByUserId(stored, user);
    assert |Filtered(stored, matches, None, statusFilter, user)| <= |owned|;
  }

  /** Java int arithmetic: the value wrapped into [-2^31, 2^31). */
  function Int32(x: int): (r: int)
    ensures -0x8000_0000 <= r < 0x8000_0000
    ensures (r - x) % 0x1_0000_0000 == 0
  {
    (x + 0x8000_0000) % 0x1_0000_0000 - 0x8000_0000
  }

  /** The offset as GoalService.java:73 computes it, in 32-bit int arithmetic. */
  function OffsetAsWritten(page: Option<int>, pageSize: int): int
  {
    if page.None? then 0 else Int32(Int32(page.value - 1) * pageSize)
  }

  /** The page as written: Flux.skip refuses a negative count (None); otherwise
      skip the wrapped offset and take a page. */
  function PageAsWritten(filtered: seq<Goal>, page: Option<int>, pageSize: nat): Option<seq<Goal>>
  {
    var offset := OffsetAsWritten(page, pageSize);
    if offset < 0 then None else Some(Take(Skip(filtered, offset), pageSize))
  }

  /** With pageSize 5, page 858993461 should start at goal 4294967300; the 32-bit
      product wraps to 4, so that page repeats goals 4..8 of the first pages. */
  lemma OffsetWrapsAround(filtered: seq<Goal>)
    requires |filtered| == 10
    ensures OffsetAsWritten(Some(858993461), 5) == 4
    ensures Offset(Some(858993461), 5) == 4294967300
    ensures PageAsWritten(filtered, Some(858993461), 5) == Some(filtered[4..9])
    ensures Take(Skip(filtered, Offset(Some(858993461), 5)), 5) == []
  {
    assert OffsetAsWritten(Some(858993461), 5) == 4;
    assert Take(Skip(filtered, 4), 5) == filtered[4..][..5] == filtered[4..9];
  }

  /** Below 2^31 the as-written offset is the true one, so the two models agree on realistic inputs. */
  lemma OffsetAsWrittenAgreesWhenSmall(page: Option<int>, pageSize: nat)
    requires ValidPage(page)
    requires Offset(page, pageSize) < 0x8000_0000
    requires page.Some? ==> page.value < 0x8000_0000
    ensures OffsetAsWritten(page, pageSize) == Offset(page, pageSize)
  {
  }
}

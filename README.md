# Goal service: lifecycle and query core in Dafny

This project models the core of the goal service, a small service that stores
users' goals and lets them be listed, created and moved through their statuses.
A goal has a name, an owner (`userId`), a difficulty level and a status
(ACTIVE "A", DEFERRED "D", COMPLETED "C"). Every successful create or status
change publishes one lifecycle event.

The model covers:

- **Query engine** (`QueryEngine`, `Services.GoalService.FetchGoals`). It picks a
  source sequence: either the text-search hits, post-filtered by owner ignoring
  case, or the owner's own listing. It keeps the goals whose status code is in the
  status filter (an empty filter keeps everything). It then skips `(page-1)*pageSize`
  goals and takes `pageSize`.
- **Lifecycle manager** (`Services`). `AddGoal` first runs a conflict check on
  `(name, userId)`, then does one save, then publishes one `GOAL_ADDED` event.
  `UpdateGoal` merges fields: stored identity and details, plus the incoming
  status and notes. Completion stamps today's date and 3 votes. It then does one
  save and publishes one event whose type follows the new status.
  - Store and channel are sequential: the store is the class
    `Repositories.GoalRepository`, holding a sequence of records.
  - The channel is the `events` field of `Services.GoalService`.
  - Each method is tied to a pure transition function (`AddTransition`,
    `UpdateTransition`), and the lifecycle properties are proved about those functions.
- **Request layer** (`Resources`). It covers the status-filter parser (a loop), the
  page, status and name validators, the user-header injection, the 409-versus-500
  choice, and the join of page and owner count into one response.
- **Validation message builder** (`Exceptions`). This is the StringBuilder loop
  of `RequestBodyValidationException` and its getter.

Modelling choices:

- A Java reference that may be null is an `Option`.
- The database is represented by three fields of `GoalRepository`:
  - `readFault` and `saveFault`: `Some(message)` means that kind of call fails
    with that message.
  - `matches`: the full-text index, i.e. whether a record matches a text query.
    A text search (`Repositories.FindAllByText`) filters the current records with it,
    so a save is visible to the next search.
- "Today" is a parameter of the update.
- Store failures are treated differently on the two write paths:
  - `updateGoal` turns every lookup or save failure into a 500 (`onErrorMap`,
    GoalService.java:143).
  - `addGoal` passes store failures through unchanged (GoalService.java:100-108).
- The status filter is a list, so its order and duplicates are kept.
- A save of a goal that carries an id replaces whatever record holds that id. The
  model keeps this behaviour (`Repositories.Upsert`). So a create request whose
  body names another record's id overwrites that record.

## Model

| member | source | states |
|---|---|---|
| `Text.EqualsIgnoreCaseIff` | src/main/java/com/nikhilm/hourglass/goal/resources/GoalResource.java:110-115 | equalsIgnoreCase holds exactly when both strings upper-case to the same string |
| `Text.TrimEmptyIff` | src/main/java/com/nikhilm/hourglass/goal/resources/GoalResource.java:125 | `trim().isEmpty()` holds exactly when every character is at most U+0020 |
| `Text.JoinSplitAll` | src/main/java/com/nikhilm/hourglass/goal/resources/GoalResource.java:52 | splitting at every delimiter loses nothing: joining the pieces with the delimiter gives the input back |
| `Text.SplitRecovers` | src/main/java/com/nikhilm/hourglass/goal/resources/GoalResource.java:52 | without the delimiter `split` gives the input itself. Otherwise its pieces contain no delimiter and are a prefix of all pieces, whose last kept piece is non-empty. The dropped pieces are all empty, and all pieces rejoin to the input |
| `Text.ContainsIff` | src/main/java/com/nikhilm/hourglass/goal/resources/GoalResource.java:132 | `contains` holds exactly when the substring occurs at some position |
| `Seqs.Filter` | src/main/java/com/nikhilm/hourglass/goal/services/GoalService.java:79-80 | the filtered sequence is no longer than the input and holds only input elements that satisfy the predicate |
| `Seqs.FilterMembership` | src/main/java/com/nikhilm/hourglass/goal/services/GoalService.java:86 | an element survives the filter iff it is in the input and satisfies the predicate |
| `Seqs.FilterAppend` | src/main/java/com/nikhilm/hourglass/goal/services/GoalService.java:85-86 | filtering distributes over concatenation, so input order is kept |
| `Seqs.Skip` | src/main/java/com/nikhilm/hourglass/goal/services/GoalService.java:81 | after skipping n, element i is input element n+i; the length is what remains |
| `Seqs.Take` | src/main/java/com/nikhilm/hourglass/goal/services/GoalService.java:81 | taking n gives the first min(n, length) elements |
| `Seqs.SkipTake` | src/main/java/com/nikhilm/hourglass/goal/services/GoalService.java:81 | skip(n) then take(k) is the window of min(k, remaining) elements starting at n |
| `Seqs.FilterWindow` | src/main/java/com/nikhilm/hourglass/goal/services/GoalService.java:79-81 | every element of a window of a filtered sequence satisfies the predicate and comes from the input |
| `Seqs.FilterNone` | src/main/java/com/nikhilm/hourglass/goal/services/GoalService.java:79-80 | a predicate that holds of no input element keeps nothing |
| `Model.StatusOfCode` | src/main/java/com/nikhilm/hourglass/goal/model/GoalStatus.java:6-16 | a code maps back to the status whose code it is; a non-code maps to none |
| `Model.StatusCodeRoundTrip` | src/main/java/com/nikhilm/hourglass/goal/model/GoalStatus.java:6 | every status's code maps back to that status |
| `Repositories.FindAllByUserId` | src/main/java/com/nikhilm/hourglass/goal/repositories/GoalRepository.java:22 | the listing holds only stored goals whose userId is exactly the user's |
| `Repositories.FindAllByText` | src/main/java/com/nikhilm/hourglass/goal/services/GoalService.java:78 | a text search returns only current stored records that the text index matches, whatever their owner |
| `Repositories.TotalCountIsListingLength` | src/main/java/com/nikhilm/hourglass/goal/repositories/GoalRepository.java:17-18 | the count query equals the length of the owner's listing |
| `Repositories.FindByNameAndUserId` | src/main/java/com/nikhilm/hourglass/goal/repositories/GoalRepository.java:21 | a found goal is stored and has that name and owner; nothing is found iff no stored goal has them |
| `Repositories.FreshId` | src/main/java/com/nikhilm/hourglass/goal/repositories/GoalRepository.java:12 | the id given to a new record is held by no stored record |
| `Repositories.Upsert` | src/main/java/com/nikhilm/hourglass/goal/repositories/GoalRepository.java:12 | the saved record gets an id. An id-less goal gets a fresh one and is appended. A goal whose id is stored replaces that record in place. Records with other ids keep their positions, nothing else enters, and ids stay present and distinct |
| `Repositories.UpsertKeepsNamesUnique` | src/main/java/com/nikhilm/hourglass/goal/services/GoalService.java:100-105 | a save keeps (name, userId) unique when the only record sharing the pair is the one being replaced |
| `Repositories.GoalRepository.Save` | src/main/java/com/nikhilm/hourglass/goal/services/GoalService.java:103 | a save fault fails with the store's message and leaves the records alone; otherwise the records become the upsert and the saved record is returned |
| `QueryEngine.FetchGoals` | src/main/java/com/nikhilm/hourglass/goal/services/GoalService.java:61-94 | at most pageSize goals, exactly min(pageSize, remaining) of them, and item i is item offset+i of the filtered source |
| `QueryEngine.ListingSound` | src/main/java/com/nikhilm/hourglass/goal/services/GoalService.java:84-88 | every goal on a listing page is a stored goal of exactly that user and passes the status filter |
| `QueryEngine.SearchSound` | src/main/java/com/nikhilm/hourglass/goal/services/GoalService.java:76-83 | every goal on a search page is a stored record the text matches, passes the status filter, and has an owner equal to the user ignoring case |
| `QueryEngine.PositionOnPage` | src/main/java/com/nikhilm/hourglass/goal/services/GoalService.java:73-81 | position m of page p holds filtered goal (p-1)*pageSize+m whenever that goal exists |
| `QueryEngine.OffsetTiles` | src/main/java/com/nikhilm/hourglass/goal/services/GoalService.java:73 | the offset is 0 without a page and on page 1, and each next page starts pageSize further on |
| `QueryEngine.FilteredIff` | src/main/java/com/nikhilm/hourglass/goal/services/GoalService.java:76-88 | a goal is in the filtered source iff it passes the status filter and either is a stored goal of exactly that user (listing) or is a stored record the text matches, with an owner equal to the user ignoring case (search) |
| `QueryEngine.EmptyStatusFilterKeepsAll` | src/main/java/com/nikhilm/hourglass/goal/services/GoalService.java:79-86 | an empty status filter keeps the whole listing, or every hit of the owner |
| `QueryEngine.OtherOwnersInvisible` | src/main/java/com/nikhilm/hourglass/goal/services/GoalService.java:85 | a store holding only other owners' goals gives an empty listing |
| `QueryEngine.SearchOtherOwnersInvisible` | src/main/java/com/nikhilm/hourglass/goal/services/GoalService.java:80 | when every stored record the text matches has an owner different from the user even ignoring case, the search page is empty |
| `QueryEngine.ItemOnPage` | src/main/java/com/nikhilm/hourglass/goal/services/GoalService.java:73-87 | filtered goal j appears on page j/pageSize+1 at position j%pageSize |
| `QueryEngine.ListingWithinTotalCount` | src/main/java/com/nikhilm/hourglass/goal/services/GoalService.java:115-118 | a listing page is never longer than the owner's total count |
| `QueryEngine.Int32` | src/main/java/com/nikhilm/hourglass/goal/services/GoalService.java:73 | Java int arithmetic: the result is in int range and congruent to the input modulo 2^32 |
| `QueryEngine.OffsetWrapsAround` | src/main/java/com/nikhilm/hourglass/goal/services/GoalService.java:73 | with pageSize 5, page 858993461 gets the 32-bit offset 4 instead of 4294967300, so that page repeats goals 4..8 |
| `QueryEngine.OffsetAsWrittenAgreesWhenSmall` | src/main/java/com/nikhilm/hourglass/goal/services/GoalService.java:73 | below 2^31 the 32-bit offset equals the true one |
| `Services.AddTransition` | src/main/java/com/nikhilm/hourglass/goal/services/GoalService.java:96-112 | A read fault propagates, and a save fault after a clear check propagates with its own message. An existing (name, userId) gives 409 "Conflict!". Any failure leaves the store alone and publishes nothing. Success happens iff there is no fault and no match; then the store is the upsert, the saved goal has an id, and exactly one GOAL_ADDED event is published with that id and goal. Ids and (name, userId) uniqueness are preserved, and afterwards the saved goal is the only record of its pair |
| `Services.AddTwiceConflicts` | src/main/java/com/nikhilm/hourglass/goal/services/GoalService.java:100-101 | once an add succeeds, the same add again is a conflict with no store change and no event |
| `Services.MergeForUpdate` | src/main/java/com/nikhilm/hourglass/goal/services/GoalService.java:122-139 | name, description, dueDate, level, id and userId come from the stored goal, and status and notes from the incoming one. COMPLETED gives completedOn = today and 3 votes; any other status gives no completedOn and 0 votes |
| `Services.MergeIdempotent` | src/main/java/com/nikhilm/hourglass/goal/services/GoalService.java:122-139 | merging the same update into its own result changes nothing |
| `Services.EventTypeFor` | src/main/java/com/nikhilm/hourglass/goal/services/GoalService.java:144-155 | a status change never publishes GOAL_ADDED or a task event |
| `Services.EventTypeForInjective` | src/main/java/com/nikhilm/hourglass/goal/services/GoalService.java:144-155 | distinct statuses publish distinct event types |
| `Services.UpdateTransition` | src/main/java/com/nikhilm/hourglass/goal/services/GoalService.java:120-161 | Every failure is a 500 with no store change and no event. The result is empty exactly when reads work and no goal has the pair; then nothing changes. A read fault, or a save fault after a match, fails. A match on a null name fails with no save, because the non-null name setter (Goal.java:27-29, called at GoalService.java:125) throws while the merged goal is built. A match on a non-null name with no fault is exactly when the result holds a goal; then the saved goal is the merge of the match, saved in place, and one event follows with the type of its status and its id as key. Ids and uniqueness are preserved |
| `Services.GoalService.constructor` | src/main/java/com/nikhilm/hourglass/goal/services/GoalService.java:46-51 | the service starts with the given store, the configured page size and no events |
| `Services.GoalService.FetchGoals` | src/main/java/com/nikhilm/hourglass/goal/services/GoalService.java:61-94 | a read fault fails with the store's message; otherwise the response holds the query engine's page and no total |
| `Services.GoalService.FindTotalGoalCount` | src/main/java/com/nikhilm/hourglass/goal/services/GoalService.java:115-118 | a read fault fails; otherwise the count is the number of goals the user owns, whatever the filters |
| `Services.GoalService.AddGoal` | src/main/java/com/nikhilm/hourglass/goal/services/GoalService.java:96-112 | result, new store and appended events are exactly those of AddTransition; the store stays valid |
| `Services.GoalService.UpdateGoal` | src/main/java/com/nikhilm/hourglass/goal/services/GoalService.java:120-161 | result, new store and appended events are exactly those of UpdateTransition; the store stays valid |
| `Resources.UpperAll` | src/main/java/com/nikhilm/hourglass/goal/resources/GoalResource.java:54 | each piece is upper-cased, in order, and none is lost |
| `Resources.ParseStatusFilter` | src/main/java/com/nikhilm/hourglass/goal/resources/GoalResource.java:48-58 | the output is the delimiter-split pieces, each upper-cased, in input order |
| `Resources.UnknownStatusIff` | src/main/java/com/nikhilm/hourglass/goal/resources/GoalResource.java:105-118 | a token matches no status code ignoring case iff its upper-cased form is no code |
| `Resources.ValidFilterHoldsCodes` | src/main/java/com/nikhilm/hourglass/goal/resources/GoalResource.java:105-118 | an upper-cased filter that passes isStatusInvalid holds only exact status codes |
| `Resources.PageGuardIff` | src/main/java/com/nikhilm/hourglass/goal/resources/GoalResource.java:97-104 | isPageInputInvalid rejects exactly a present page below 1, so the pages it lets through are exactly those the query engine accepts |
| `Resources.ParsedFilterValidIff` | src/main/java/com/nikhilm/hourglass/goal/resources/GoalResource.java:73-78 | a parsed status parameter is valid iff every split piece upper-cases to a status code |
| `Resources.NameInvalidIff` | src/main/java/com/nikhilm/hourglass/goal/resources/GoalResource.java:125-128 | the name guard rejects exactly a null name and a name made only of white space |
| `Resources.Assemble` | src/main/java/com/nikhilm/hourglass/goal/resources/GoalResource.java:80-91 | the join succeeds iff both the page and the count succeed; the response has the page's goals and the count as total; a failure is one of theirs |
| `Resources.ConflictMessageMatches` | src/main/java/com/nikhilm/hourglass/goal/resources/GoalResource.java:132-135 | the conflict's message contains "Conflict", so the fallback lets it through |
| `Resources.GoalResource.Goals` | src/main/java/com/nikhilm/hourglass/goal/resources/GoalResource.java:61-93 | A page below 1 gives ValidationException "Wrong input!". An unknown status token gives "Wrong input!!". A read fault gives a 500. Otherwise the response has the query page over the parsed filter, with the owner's total count (not the filtered count) as total |
| `Resources.GoalResource.AddGoal` | src/main/java/com/nikhilm/hourglass/goal/resources/GoalResource.java:121-142 | A null or blank name gives ValidationException with no store change and no event. Otherwise the service adds the goal with userId set to the user header. Success is 201 at "/" + id. A conflict passes through as 409; any other failure becomes a 500 |
| `Resources.GoalResource.UpdateGoalStatus` | src/main/java/com/nikhilm/hourglass/goal/resources/GoalResource.java:144-160 | A null or blank name gives ValidationException with no change. Otherwise the service updates the goal with userId set to the user header. Empty is 404, a goal is 200, any failure is a 500. A returned goal always belongs to the user |
| `Exceptions.Fragment` | src/main/java/com/nikhilm/hourglass/goal/exceptions/RequestBodyValidationException.java:16-21 | Every fragment ends in ". ". A field error's fragment is the field, a space, the rendered default message (null reads "null") and ". ". Any other error's is a space, the rendered message and ". " |
| `Exceptions.MessagesAppend` | src/main/java/com/nikhilm/hourglass/goal/exceptions/RequestBodyValidationException.java:15-22 | the message of l1 + l2 is the message of l1 followed by the message of l2 |
| `Exceptions.MessagesEmptyIff` | src/main/java/com/nikhilm/hourglass/goal/exceptions/RequestBodyValidationException.java:14-23 | the message is empty exactly when there are no errors |
| `Exceptions.RequestBodyValidationException.constructor` | src/main/java/com/nikhilm/hourglass/goal/exceptions/RequestBodyValidationException.java:12-25 | the loop leaves the message equal to the in-order concatenation of the errors' fragments |
| `Exceptions.RequestBodyValidationException.GetMessages` | src/main/java/com/nikhilm/hourglass/goal/exceptions/RequestBodyValidationException.java:27-29 | getMessages returns exactly the message built from the constructor's error list |

## Left out

- Reactor scheduling is replaced by one sequential call per operation. The
  `Mono.zip` fan-out and the check-then-save race of concurrent creates are concurrency.
- The circuit breaker is modelled only as its fallbacks, which map failures to 500
  (409 passes through on create). Timeouts and open-circuit states are not modelled,
  because they belong to a library outside this model.
- MongoDB full-text search semantics: which records a query matches is the
  uninterpreted `matches` field of the store. Hits come back in store order, while
  MongoDB gives no order guarantee for an unsorted text query.
- The channel transport: publishing appends to `events`. `send` returns a boolean
  the code ignores, and it can also throw. A throwing send is not modelled: in
  `addGoal` that would turn into a failure after the save had already happened
  (GoalService.java:104-105).
- QueryEngine.FetchGoals: uses the unbounded offset, as do
  Services.GoalService.FetchGoals and Resources.GoalResource.Goals. They agree with the
  code only while (page-1)*pageSize < 2^31 (`QueryEngine.OffsetAsWrittenAgreesWhenSmall`).
  The wrapped offset is modelled separately, under Findings.
- Clock reads: today is a parameter, and the event creation timestamp is omitted.
- `GoalMapper` (generated code), `GoalExceptionHandler` (constant HTTP mapping),
  logging, the stray `System.out.println`, and Jackson annotations are not modelled.
- Spring's conversion of request parameters (a non-integer page is a type-mismatch
  400 before the controller runs) is not modelled.
- Text.UpperCase: only ASCII letters are mapped, so Java's full Unicode and
  locale-dependent upper-casing is not modelled.
- Text.EqualsIgnoreCaseIff: ASCII only, because of the same limitation.
- Text.Split: only a single literal delimiter character is modelled, not a regular
  expression. The one call site passes ",".
- Stored ids are strings of 'x' longer than every stored id, not MongoDB ObjectIds;
  the core treats ids as opaque.
- Repositories.FindByNameAndUserId: returns the first match. A store holding two
  goals with the same pair (which the lifecycle never produces) would make the
  driver fail instead.
- Null `userId` or `status` on a stored or incoming goal (a NullPointerException in
  the source) is not modelled: both fields are non-null here.
- QueryEngine.FetchGoals: requires a page that is absent or at least 1. Every caller
  validates this first. A direct call whose 32-bit offset is negative (such as page 0
  with a positive page size) would hit Reactor's rejection of a negative skip count;
  some very negative pages wrap to a non-negative offset instead (see
  `QueryEngine.OffsetAsWritten`).
- `pageSize` is a natural number: a negative configured page size is not modelled.
- The service-level create never completes empty, so the create endpoint's
  not-found branch is unreachable and has no counterpart here.

## Findings

| source | as written | input that shows it | evidently intended | confidence | as-written member | corrected member |
|---|---|---|---|---|---|---|
| src/main/java/com/nikhilm/hourglass/goal/services/GoalService.java:73 | `(page.get() - 1) * pageSize` is computed in 32-bit `int` and wraps around | pageSize 5, page 858993461: the offset becomes 4 instead of 4294967300, so that page shows goals 4..8 instead of nothing | the offset of page p is (p-1)*pageSize with no wrap-around | not executed; the wrap is certain from Java's int semantics | `QueryEngine.OffsetWrapsAround` | `QueryEngine.OffsetTiles` |

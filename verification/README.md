# Grading history viewer: a Dafny model of its core

The web app shows teachers the grading history of one Canvas submission.
A visitor opens the app. `doGet` checks that their address is on the
authorised list. It renders the main page for a listed visitor and the
no-access page for anyone else.

The main page hands a SpeedGrader link to `getSubmission`, which works in
four steps:

1. `parseLink` recovers three things from the link: the course, the
   assignment and the student, plus the Canvas deployment ("ensign" or
   "byui").
2. It fetches the submission, the assignment and the grading events.
3. It keeps the events of this submission that have a human grader.
4. It walks them in order. It writes five display fields into each one in
   place:
   - the name of the user who graded it;
   - the assignment's name;
   - the grade before, which is the previous event's grade, or 0 for the
     first event;
   - the grade after, which is the event's score;
   - the submission's current score.

   Each grade is shown over the assignment's points possible. The result
   carries the student's name and the annotated events.

The model has six modules:

- `Wrappers` holds `Option` and `Result`.
- `Strings` models JavaScript's `split` on a one-character separator and
  `includes`.
- `Values` models the JavaScript values the code copies, and the text a
  template literal `${v}` makes of each.
- `Locator` models `parseLink`. A `TypeError` thrown from `.split` of
  `undefined` becomes a `LinkError`. An array index past the end becomes
  `None` (JavaScript's `undefined`).
- `GradeHistory` models `getSubmission` in two layers:
  - The imperative layer is `GetSubmission`. It copies the filtered events
    into a fresh array and calls `AnnotateInPlace`, which walks that array
    by index and writes each element in place.
  - The specification layer is `SubmissionHistory`. It is built on the
    recursive `Chain`, which carries the previous event's grade from one
    step to the next.
  - `GetSubmission`'s contract states that it computes `SubmissionHistory`,
    and the lemmas state what that history is.
  - The `findUserById(id)[0].name` lookups are a function parameter,
    `userName`. It returns `None` when no user is found; reading `.name`
    of `undefined` then throws. `GetSubmission` also returns the sequence
    of ids it looked up.
- `Access` models `doGet`'s decision.

## Model

| member | source | states |
|---|---|---|
| Strings.Split | Code.js:118-118 | `split` on a one-character separator always yields at least one piece, and no piece contains the separator |
| Strings.SplitThenJoin | Code.js:118-118 | joining the pieces of a split with the separator gives back the original text |
| Strings.JoinThenSplit | Code.js:131-136 | splitting a join of separator-free pieces (at least one) gives back exactly those pieces |
| Strings.SplitAfterFreePrefix | Code.js:131-132 | a separator-free prefix fuses into the first piece and leaves the later pieces as they were |
| Strings.SplitHasSecondPiece | Code.js:131-136 | the index `[1]` of a split exists exactly when the separator occurs in the text |
| Strings.IncludesIffOccurs | Code.js:122-122 | `includes` holds exactly when the text occurs at some position |
| Values.Digits | Code.js:93-95 | a number prints as at least one decimal digit |
| Values.DigitsRoundTrip | Code.js:93-95 | reading the printed digits back gives the number |
| Values.NumberTextSign | Code.js:93-95 | a number's text starts with '-' exactly when the number is negative |
| Values.NumberTextInjective | Code.js:93-95 | two numbers print alike exactly when they are equal |
| Values.RatioTextCancels | Code.js:93-95 | two `${x}/${points_possible}` texts over the same total are equal exactly when the numerators print alike |
| Locator.ParseLink | Code.js:117-145 | parseLink throws exactly when the link has no '?', or when its query has no '&'; on success the deployment is "ensign" exactly when the link contains "ensign" |
| Locator.ParamValueAfterEquals | Code.js:135-136 | `key=value` yields `value`, and a piece without '=' yields `undefined` |
| Locator.ParamValueBetweenFirstAndSecondEquals | Code.js:135-136 | `key=rest` yields the text between the first and the second '=', that is `rest` up to its own first '=' |
| Locator.IdsTakenByPosition | Code.js:131-136 | the assignment id is the first query parameter's value and the student id the second's, whatever their names, whatever parameters follow and whatever follows a second '?'; a value holding '=' is cut at it |
| Locator.CourseIdIsFifthSegment | Code.js:118-129 | whenever the link parses, the course id is its fifth '/'-segment, or `undefined` when there are fewer than five |
| GradeHistory.Graded | Code.js:73-73 | the filter keeps no more events than it is given, and every kept event is one of them, of this submission and with a grader that is not null (order is stated by GradedDistributes) |
| GradeHistory.GradedKeepsExactlyRetained | Code.js:73-73 | an event is kept exactly when it is in the history, its id equals the submission's id and its grader is not null |
| GradeHistory.GradedDistributes | Code.js:73-73 | filtering a concatenation concatenates the filtered parts, so order is kept |
| GradeHistory.FirstUnknown | Code.js:88-91 | every grader before the stopping index is found, and the one at it (if any) is not |
| GradeHistory.Chain | Code.js:76-96 | the walk yields one entry per event when it succeeds |
| GradeHistory.ChainEntrywise | Code.js:76-96 | the walk succeeds exactly when every grader is found; it fails naming the first grader not found; otherwise entry k is event k annotated with grade before = event k-1's grade (0 for k = 0) |
| GradeHistory.ChainFromEntries | Code.js:76-96 | a sequence annotated entry by entry as the loop does is exactly what the walk yields |
| GradeHistory.AnnotateInPlace | Code.js:76-96 | the loop stops at the first grader not found, or runs to the end. Elements before the stop are annotated; the rest are unchanged. It looks up each grader in order, up to and including the failing one. A full run leaves the array equal to the walk's result |
| GradeHistory.GetSubmission | Code.js:54-110 | getSubmission resolves or rejects exactly as the history function says and makes exactly the lookups the lookup function lists |
| GradeHistory.HistoryEntries | Code.js:76-102 | a resolved history has one entry per retained event, each annotated as the loop annotates that index |
| GradeHistory.HistoryMirrorsFilteredEvents | Code.js:73-102 | a resolved history is the retained events in order. Only the display fields are added; every other field is unchanged. No null-grader event or event of another submission appears |
| GradeHistory.FirstGradeBeforeIsZero | Code.js:78-93 | the first entry's grade before reads `0/points_possible` |
| GradeHistory.GradeBeforeReadsPreviousGrade | Code.js:78-94 | entry i's grade after is its own score; for i > 0 its grade before is the previous event's `grade` |
| GradeHistory.GradeChainsIffGradeMatchesScore | Code.js:82-94 | entry i's grade before reads like entry i-1's grade after exactly when the previous event's grade prints like its score (for numbers: exactly when they are equal) |
| GradeHistory.SharedFieldsAreConstant | Code.js:88-95 | every entry names its own grader, and all entries share the assignment name and the current grade `score/points_possible` |
| GradeHistory.SucceedsExactlyWhenAllFound | Code.js:56-100 | getSubmission resolves exactly when the link parses, every retained event's grader is found and the student is found; a malformed link rejects with parseLink's error |
| GradeHistory.OneLookupPerRetainedEvent | Code.js:56-91 | a malformed link makes no lookup. Otherwise the student is looked up first, then each retained event's grader in order; when all graders are found, that is one lookup per retained event |
| GradeHistory.EmptyHistoryLooksUpNoGrader | Code.js:73-102 | with no retained event, the history is empty and only the student is looked up |
| Access.Action | Code.js:19-23 | the action is "authenticated" exactly for a listed address and "noaccess" exactly for any other |
| Access.DoGet | Code.js:7-32 | doGet renders "index" exactly for a listed address, "noaccess" exactly for any other, and never "default" |
| Access.ListingMoreNeverRevokes | Code.js:19-23 | adding addresses to the list never takes the main page away, and prepending unrelated addresses changes nothing |

## Left out

- Left as the code has it:
  - A link with fewer than five '/'-segments is not rejected: the course
    id is then `undefined`.
  - The two ids are read by position, not by parameter name.
  - A null or missing points-possible value prints as "null" or
    "undefined"; it is not defaulted.
- Grade before versus grade after: an entry's grade before is the previous
  event's `grade`, while the previous entry's grade after is its `score`.
  This is modelled as written. GradeChainsIffGradeMatchesScore states when
  the two agree.
- Canvas fetches (`getUserAssignmentSubmissions`, `findAssignmentsById`,
  `getSubmissionGrading`) are inputs. The submission, assignment and event
  list are given records, and their failures are not modelled.
- An assignment lookup that finds nothing is not modelled. `[0]` of an
  empty result is `undefined`, and the loop then throws on `.name`.
- An absent submission record is not modelled.
- `userName` is a pure, total function: the same id gets the same answer
  for the student lookup and for every grader lookup. A `findUserById`
  call that fails by throwing, rather than finding nobody, is not
  modelled.
- `userName` stands for `findUserById(id)[0].name` on the link's own
  deployment. The deployment is fixed for one call, so it is not a
  parameter of the lookup.
- `async`/`await` and the ordering of outstanding requests are not
  modelled; the lookups happen one after another, as awaited.
- Events keep only the fields this code reads: `id`, `grader_id`, `grade`
  and `score`. Canvas's other event fields pass through untouched and are
  not represented.
- The three grade texts are kept as the value pair they are printed from;
  `Values.RatioText` gives the text.
- Numbers are integers: fractional scores and JavaScript's floating-point
  number printing are not modelled.
- After a lookup fails, the entries already annotated are not returned, and
  the model does not keep them either: the rejection carries only the
  missing id.
- `doGet`:
  - `buildUsers` (the spreadsheet read) and `Session.getActiveUser()` are
    inputs: the address list and the visitor's address.
  - The request object's JSON round trip is a no-op and is left out.
  - Template rendering through `HtmlService` is reduced to the template's
    name.
- `Logger` calls, the `include` helper and the functions after `parseLink`
  are outside this model.

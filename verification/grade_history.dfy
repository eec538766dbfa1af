/**
 * getSubmission: rebuilds the grading history of one submission. The grading
 * events are filtered to those of this submission that have a grader, then
 * walked by index, and five display fields are written into each event in
 * place: its grading user's name, the assignment's name, the grade before (read
 * from the previous event's `grade`), the grade after (this event's `score`)
 * and the submission's current score, each shown over the points possible.
 *
 * The Canvas fetches are inputs: the submission, the assignment and the event
 * list are given records, and `userName` answers the user lookups (the
 * student's, then one per retained event), returning the user's `name`, or
 * None when no user is found.
 */
module GradeHistory {
  import opened Wrappers
  import opened Values
  import Locator

  /**
   * The five fields the annotation adds to an event. The three grades are
   * the texts `${x}/${points_possible}`, kept as the Ratio they are built
   * from; RatioText gives the text.
   */
  datatype Display = Display(graderName: Value, assignmentName: Value,
                             gradeBefore: Ratio, gradeAfter: Ratio, gradeCurrent: Ratio)

  /**
   * One grading event as Canvas returns it, reduced to the fields this code
   * reads: the submission it belongs to, its grader (Null for an automatic
   * event), its grade and its score; plus the display fields once annotated.
   */
  datatype Event = Event(id: Value, graderId: Value, grade: Value, score: Value,
                         display: Option<Display>)

  datatype Submission = Submission(id: Value, score: Value)

  datatype Assignment = Assignment(name: Value, pointsPossible: Value)

  /** The object getSubmission resolves to. */
  datatype Returned = Returned(studentName: Value, submissions: seq<Event>)

  /**
   * Why getSubmission rejects: parseLink threw, or a user lookup found nobody
   * and reading its `name` threw.
   */
  datatype Failure = MalformedLink(reason: Locator.LinkError) | UserNotFound(userId: Value)

  /** `findUserById(id)[0].name`, or None when no user is found. */
  type UserLookup = Value -> Option<Value>

  /** The id passed to the student lookup: the parsed student id, or `undefined`. */
  function IdValue(id: Option<string>): Value {
    match id
    case Some(s) => Text(s)
    case None => Undefined
  }

  /** The filter's test: `item.id === submission.id && item.grader_id !== null`. */
  predicate Retained(e: Event, submission: Submission) {
    e.id == submission.id && e.graderId != Null
  }

  /** `gradingHistory.filter(...)`: the retained events, in their original order. */
  function Graded(history: seq<Event>, submission: Submission): (kept: seq<Event>)
    ensures |kept| <= |history|
    ensures forall e :: e in kept ==> e in history && Retained(e, submission)
    decreases |history|
  {
    if history == [] then []
    else (if Retained(history[0], submission) then [history[0]] else []) + Graded(history[1..], submission)
  }

  /** An event is kept exactly when it is in the log and passes the test. */
  lemma {:induction false} GradedKeepsExactlyRetained(history: seq<Event>, submission: Submission, e: Event)
    ensures e in Graded(history, submission) <==> e in history && Retained(e, submission)
    decreases |history|
  {
    if history != [] {
      GradedKeepsExactlyRetained(history[1..], submission, e);
      assert history == [history[0]] + history[1..];
    }
  }

  /** Filtering keeps relative order: it distributes over concatenation. */
  lemma {:induction false} GradedDistributes(a: seq<Event>, b: seq<Event>, submission: Submission)
    ensures Graded(a + b, submission) == Graded(a, submission) + Graded(b, submission)
    decreases |a|
  {
    if a == [] {
      assert a + b == b;
    } else {
      GradedDistributes(a[1..], b, submission);
      assert (a + b)[0] == a[0];
      assert (a + b)[1..] == a[1..] + b;
    }
  }

  /** Grader ids of a run of events, in order. */
  function GraderIds(events: seq<Event>): (ids: seq<Value>)
    ensures |ids| == |events|
    ensures forall k :: 0 <= k < |events| ==> ids[k] == events[k].graderId
  {
    seq(|events|, k requires 0 <= k < |events| => events[k].graderId)
  }

  /** Index of the first event whose grader is not found, or the length when all are found. */
  function FirstUnknown(events: seq<Event>, userName: UserLookup): (k: nat)
    ensures k <= |events|
    ensures forall j :: 0 <= j < k ==> userName(events[j].graderId).Some?
    ensures k < |events| ==> userName(events[k].graderId).None?
    decreases |events|
  {
    if events == [] || userName(events[0].graderId).None? then 0
    else 1 + FirstUnknown(events[1..], userName)
  }

  /**
   * Reference definition of the annotation, walking the events while carrying
   * the previous event's grade (`baseline` before the first one), and stopping
   * at the first grader that is not found.
   */
  function Chain(events: seq<Event>, baseline: Value, submission: Submission,
                 assignment: Assignment, userName: UserLookup): (r: Result<seq<Event>, Failure>)
    ensures r.Success? ==> |r.value| == |events|
    decreases |events|
  {
    if events == [] then Success([])
    else
      var e := events[0];
      match userName(e.graderId)
      case None => Failure(UserNotFound(e.graderId))
      case Some(name) =>
        var entry := Annotated(e, name, baseline, submission, assignment);
        match Chain(events[1..], e.grade, submission, assignment, userName)
        case Failure(err) => Failure(err)
        case Success(rest) => Success([entry] + rest)
  }

  /** The five property writes into one event (Code.js lines 91-95). */
  function Annotated(e: Event, graderName: Value, gradeBefore: Value, submission: Submission,
                     assignment: Assignment): Event
  {
    var total := assignment.pointsPossible;
    e.(display := Some(Display(graderName, assignment.name, Ratio(gradeBefore, total),
                               Ratio(e.score, total), Ratio(submission.score, total))))
  }

  /** The annotated event at index k, as the loop builds it, given its grader's name. */
  function EntryAt(events: seq<Event>, k: nat, baseline: Value, submission: Submission,
                   assignment: Assignment, graderName: Value): Event
    requires k < |events|
  {
    Annotated(events[k], graderName, if k == 0 then baseline else events[k - 1].grade, submission, assignment)
  }

  /**
   * The running-value definition and the index-wise one agree: the walk
   * succeeds exactly when every grader is found, fails naming the first one
   * that is not, and otherwise yields EntryAt at every index.
   */
  lemma {:induction false} ChainEntrywise(events: seq<Event>, baseline: Value, submission: Submission,
                                          assignment: Assignment, userName: UserLookup)
    ensures var r := Chain(events, baseline, submission, assignment, userName);
            r.Success? <==> FirstUnknown(events, userName) == |events|
    ensures var r := Chain(events, baseline, submission, assignment, userName);
            r.Failure? ==> FirstUnknown(events, userName) < |events| &&
                           r.error == UserNotFound(events[FirstUnknown(events, userName)].graderId)
    ensures var r := Chain(events, baseline, submission, assignment, userName);
            r.Success? ==> forall k :: 0 <= k < |events| ==>
              r.value[k] == EntryAt(events, k, baseline, submission, assignment, userName(events[k].graderId).value)
    decreases |events|
  {
    if events != [] && userName(events[0].graderId).Some? {
      var e := events[0];
      var rest := events[1..];
      ChainEntrywise(rest, e.grade, submission, assignment, userName);
      var r := Chain(events, baseline, submission, assignment, userName);
      var tail := Chain(rest, e.grade, submission, assignment, userName);
      if r.Success? {
        forall k | 0 <= k < |events|
          ensures r.value[k] == EntryAt(events, k, baseline, submission, assignment, userName(events[k].graderId).value)
        {
          if k > 0 {
            assert r.value[k] == tail.value[k - 1];
            assert rest[k - 1] == events[k];
            if k > 1 {
              assert rest[k - 2] == events[k - 1];
            }
          }
        }
      }
    }
  }

  /** A sequence that is EntryAt at every index is what Chain yields, once every grader is found. */
  lemma ChainFromEntries(events: seq<Event>, entries: seq<Event>, submission: Submission,
                         assignment: Assignment, userName: UserLookup)
    requires FirstUnknown(events, userName) == |events| == |entries|
    requires forall k :: 0 <= k < |events| ==>
               entries[k] == EntryAt(events, k, Num(0), submission, assignment, userName(events[k].graderId).value)
    ensures Chain(events, Num(0), submission, assignment, userName) == Success(entries)
  {
    ChainEntrywise(events, Num(0), submission, assignment, userName);
    var r := Chain(events, Num(0), submission, assignment, userName);
    assert r.Success? && |r.value| == |entries|;
    assert forall k :: 0 <= k < |entries| ==> r.value[k] == entries[k];
    assert r.value == entries;
  }

  /**
   * What getSubmission resolves or rejects with: parse the link, look up the
   * student, filter the events, annotate them, then read the student's name.
   */
  function SubmissionHistory(link: string, submission: Submission, assignment: Assignment,
                             gradingHistory: seq<Event>, userName: UserLookup): Result<Returned, Failure>
  {
    match Locator.ParseLink(link)
    case Failure(reason) => Failure(MalformedLink(reason))
    case Success(dat) =>
      var studentId := IdValue(dat.studentId);
      match Chain(Graded(gradingHistory, submission), Num(0), submission, assignment, userName)
      case Failure(err) => Failure(err)
      case Success(entries) =>
        match userName(studentId)
        case None => Failure(UserNotFound(studentId))
        case Some(name) => Success(Returned(name, entries))
  }

  /**
   * The ids getSubmission looks up, in order: none when the link is
   * malformed; otherwise the student, then each retained event's grader
   * up to and including the first one that is not found.
   */
  function Lookups(link: string, submission: Submission, gradingHistory: seq<Event>,
                   userName: UserLookup): seq<Value>
  {
    match Locator.ParseLink(link)
    case Failure(_) => []
    case Success(dat) =>
      var graded := Graded(gradingHistory, submission);
      var k := FirstUnknown(graded, userName);
      [IdValue(dat.studentId)] + GraderIds(graded[..if k < |graded| then k + 1 else k])
  }

  /**
   * The annotation loop: walks the filtered array by index and writes the
   * display fields into each element in place, reading the grade before from
   * the previous element. It stops at the first grader that is not found
   * (where getSubmission throws reading `grader.name`), leaving the elements before it annotated and
   * the rest untouched. `stop` is the index it stopped at, or the length.
   */
  method AnnotateInPlace(subGrading: array<Event>, submission: Submission, assignment: Assignment,
                         userName: UserLookup)
    returns (stop: nat, lookups: seq<Value>)
    modifies subGrading
    ensures stop == FirstUnknown(old(subGrading[..]), userName)
    ensures |lookups| == if stop < subGrading.Length then stop + 1 else stop
    ensures forall k :: 0 <= k < |lookups| ==> lookups[k] == old(subGrading[k]).graderId
    ensures forall k :: 0 <= k < stop ==>
              subGrading[k] == EntryAt(old(subGrading[..]), k, Num(0), submission, assignment,
                                       userName(old(subGrading[k]).graderId).value)
    ensures forall k :: stop <= k < subGrading.Length ==> subGrading[k] == old(subGrading[k])
    ensures stop == subGrading.Length ==>
              Chain(old(subGrading[..]), Num(0), submission, assignment, userName) == Success(subGrading[..])
  {
    ghost var events := subGrading[..];
    ghost var firstUnknown := FirstUnknown(events, userName);
    lookups := [];
    stop := 0;
    while stop < subGrading.Length
      invariant stop <= subGrading.Length && stop <= firstUnknown
      invariant |lookups| == stop
      invariant forall k :: 0 <= k < stop ==> lookups[k] == events[k].graderId
      invariant forall k :: 0 <= k < stop ==>
                  subGrading[k] == EntryAt(events, k, Num(0), submission, assignment, userName(events[k].graderId).value)
      invariant forall k :: stop <= k < subGrading.Length ==> subGrading[k] == events[k]
    {
      var gradeBefore := Num(0);
      if stop > 0 {
        gradeBefore := subGrading[stop - 1].grade;
      }
      var grader := userName(subGrading[stop].graderId);
      lookups := lookups + [subGrading[stop].graderId];
      if grader.None? {
        // reading `grader.name` throws here
        break;
      }
      subGrading[stop] := Annotated(subGrading[stop], grader.value, gradeBefore, submission, assignment);
      stop := stop + 1;
    }
    if stop == subGrading.Length {
      ChainFromEntries(events, subGrading[..], submission, assignment, userName);
    }
  }

  /**
   * getSubmission: parse the link, look up the student, filter the events
   * into a fresh array, annotate it in place, and resolve with the student's
   * name and the annotated array; any thrown error rejects instead.
   */
  method GetSubmission(link: string, submission: Submission, assignment: Assignment,
                       gradingHistory: seq<Event>, userName: UserLookup)
    returns (r: Result<Returned, Failure>, lookups: seq<Value>)
    ensures r == SubmissionHistory(link, submission, assignment, gradingHistory, userName)
    ensures lookups == Lookups(link, submission, gradingHistory, userName)
  {
    var parsed := Locator.ParseLink(link);
    if parsed.Failure? {
      r, lookups := Failure(MalformedLink(parsed.error)), [];
      return;
    }
    var dat := parsed.value;
    var studentId := IdValue(dat.studentId);
    var user := userName(studentId);
    var graded := Graded(gradingHistory, submission);
    var subGrading := new Event[|graded|](k requires 0 <= k < |graded| => graded[k]);
    assert subGrading[..] == graded;
    var stop, graderLookups := AnnotateInPlace(subGrading, submission, assignment, userName);
    lookups := [studentId] + graderLookups;
    ChainEntrywise(graded, Num(0), submission, assignment, userName);
    if stop < subGrading.Length {
      r := Failure(UserNotFound(graded[stop].graderId));
    } else if user.None? {
      r := Failure(UserNotFound(studentId));
    } else {
      r := Success(Returned(user.value, subGrading[..]));
    }
  }

  // Properties of the history getSubmission resolves with

  /** Every successful history is the filtered events, each annotated as the loop does it. */
  lemma HistoryEntries(link: string, submission: Submission, assignment: Assignment,
                       gradingHistory: seq<Event>, userName: UserLookup)
    ensures var h := SubmissionHistory(link, submission, assignment, gradingHistory, userName);
            var graded := Graded(gradingHistory, submission);
            h.Success? ==>
              |h.value.submissions| == |graded| && FirstUnknown(graded, userName) == |graded| &&
              forall i :: 0 <= i < |graded| ==>
                h.value.submissions[i] ==
                  EntryAt(graded, i, Num(0), submission, assignment, userName(graded[i].graderId).value)
  {
    ChainEntrywise(Graded(gradingHistory, submission), Num(0), submission, assignment, userName);
  }

  /**
   * The history has one entry per retained event, in the same order; each is
   * that event with the display fields added and every other field as it was,
   * so no event without a grader, and none of another submission, appears.
   */
  lemma HistoryMirrorsFilteredEvents(link: string, submission: Submission, assignment: Assignment,
                                     gradingHistory: seq<Event>, userName: UserLookup)
    ensures var h := SubmissionHistory(link, submission, assignment, gradingHistory, userName);
            var graded := Graded(gradingHistory, submission);
            h.Success? ==>
              |h.value.submissions| == |graded| &&
              forall i :: 0 <= i < |graded| ==>
                h.value.submissions[i].display.Some? &&
                h.value.submissions[i] == graded[i].(display := h.value.submissions[i].display) &&
                h.value.submissions[i].graderId != Null && h.value.submissions[i].id == submission.id
  {
    HistoryEntries(link, submission, assignment, gradingHistory, userName);
    var graded := Graded(gradingHistory, submission);
    forall i | 0 <= i < |graded| ensures Retained(graded[i], submission) {
      assert graded[i] in graded;
    }
  }

  /** The first entry's grade before is the zero baseline `0/points_possible`. */
  lemma FirstGradeBeforeIsZero(link: string, submission: Submission, assignment: Assignment,
                               gradingHistory: seq<Event>, userName: UserLookup)
    ensures var h := SubmissionHistory(link, submission, assignment, gradingHistory, userName);
            h.Success? && |h.value.submissions| > 0 ==>
              h.value.submissions[0].display.Some? &&
              RatioText(h.value.submissions[0].display.value.gradeBefore) ==
                "0/" + ToStr(assignment.pointsPossible)
  {
  }

  /**
   * Entry i's grade after is its own event's score; for i > 0 its grade before
   * is the previous event's grade (the `grade` field, not its score).
   */
  lemma GradeBeforeReadsPreviousGrade(link: string, submission: Submission, assignment: Assignment,
                                      gradingHistory: seq<Event>, userName: UserLookup, i: nat)
    ensures var h := SubmissionHistory(link, submission, assignment, gradingHistory, userName);
            var graded := Graded(gradingHistory, submission);
            var total := assignment.pointsPossible;
            h.Success? && i < |h.value.submissions| ==>
              h.value.submissions[i].display.Some? &&
              h.value.submissions[i].display.value.gradeAfter == Ratio(graded[i].score, total) &&
              (i > 0 ==> h.value.submissions[i].display.value.gradeBefore == Ratio(graded[i - 1].grade, total))
  {
    HistoryEntries(link, submission, assignment, gradingHistory, userName);
  }

  /**
   * Entry i's grade before reads the same as entry i-1's grade after exactly
   * when the previous event's grade prints like its score; for numeric grade
   * and score, exactly when they are equal.
   */
  lemma GradeChainsIffGradeMatchesScore(link: string, submission: Submission, assignment: Assignment,
                                        gradingHistory: seq<Event>, userName: UserLookup, i: nat)
    ensures var h := SubmissionHistory(link, submission, assignment, gradingHistory, userName);
            var graded := Graded(gradingHistory, submission);
            h.Success? && 0 < i < |h.value.submissions| ==>
              h.value.submissions[i].display.Some? && h.value.submissions[i - 1].display.Some? &&
              var previous := graded[i - 1];
              var chains := RatioText(h.value.submissions[i].display.value.gradeBefore) ==
                            RatioText(h.value.submissions[i - 1].display.value.gradeAfter);
              (chains <==> ToStr(previous.grade) == ToStr(previous.score)) &&
              (previous.grade.Num? && previous.score.Num? ==> (chains <==> previous.grade == previous.score))
  {
    HistoryEntries(link, submission, assignment, gradingHistory, userName);
    var h := SubmissionHistory(link, submission, assignment, gradingHistory, userName);
    var graded := Graded(gradingHistory, submission);
    if h.Success? && 0 < i < |h.value.submissions| {
      var previous := graded[i - 1];
      RatioTextCancels(previous.grade, previous.score, assignment.pointsPossible);
      if previous.grade.Num? && previous.score.Num? {
        NumberTextInjective(previous.grade.n, previous.score.n);
      }
    }
  }

  /**
   * Every entry names its own grader and shares the assignment's name and the
   * current grade `submission.score/points_possible`.
   */
  lemma SharedFieldsAreConstant(link: string, submission: Submission, assignment: Assignment,
                                gradingHistory: seq<Event>, userName: UserLookup)
    ensures var h := SubmissionHistory(link, submission, assignment, gradingHistory, userName);
            var graded := Graded(gradingHistory, submission);
            h.Success? ==>
              forall i :: 0 <= i < |h.value.submissions| ==>
                i < |graded| && h.value.submissions[i].display.Some? &&
                userName(graded[i].graderId) == Some(h.value.submissions[i].display.value.graderName) &&
                h.value.submissions[i].display.value.assignmentName == assignment.name &&
                h.value.submissions[i].display.value.gradeCurrent == Ratio(submission.score, assignment.pointsPossible)
  {
    HistoryEntries(link, submission, assignment, gradingHistory, userName);
  }

  /** Every event's grader id resolves to a user. */
  predicate AllGradersKnown(events: seq<Event>, userName: UserLookup) {
    forall i :: 0 <= i < |events| ==> userName(events[i].graderId).Some?
  }

  /**
   * getSubmission resolves exactly when the link parses, every retained
   * event's grader is found and the student is found; a malformed link
   * rejects with parseLink's own error.
   */
  lemma SucceedsExactlyWhenAllFound(link: string, submission: Submission, assignment: Assignment,
                                    gradingHistory: seq<Event>, userName: UserLookup)
    ensures var h := SubmissionHistory(link, submission, assignment, gradingHistory, userName);
            var parsed := Locator.ParseLink(link);
            var graded := Graded(gradingHistory, submission);
            h.Success? ==>
               parsed.Success? &&
               AllGradersKnown(graded, userName) &&
               userName(IdValue(parsed.value.studentId)).Some?
    ensures var h := SubmissionHistory(link, submission, assignment, gradingHistory, userName);
            var parsed := Locator.ParseLink(link);
            var graded := Graded(gradingHistory, submission);
            parsed.Success? &&
            AllGradersKnown(graded, userName) &&
            userName(IdValue(parsed.value.studentId)).Some? ==>
              h.Success?
    ensures var parsed := Locator.ParseLink(link);
            parsed.Failure? ==>
              SubmissionHistory(link, submission, assignment, gradingHistory, userName) ==
                Failure(MalformedLink(parsed.error))
  {
    var graded := Graded(gradingHistory, submission);
    ChainEntrywise(graded, Num(0), submission, assignment, userName);
    var chained := Chain(graded, Num(0), submission, assignment, userName);
    var k := FirstUnknown(graded, userName);
    if k < |graded| {
      assert userName(graded[k].graderId).None?;
      assert chained.Failure?;
      assert !AllGradersKnown(graded, userName);
    } else {
      assert chained.Success?;
    }
  }

  /**
   * A malformed link makes no lookup. Otherwise the student is looked up
   * first, then each retained event's grader once, in order; when all
   * graders are found that is exactly one lookup per retained event.
   */
  lemma OneLookupPerRetainedEvent(link: string, submission: Submission,
                                  gradingHistory: seq<Event>, userName: UserLookup)
    ensures var parsed := Locator.ParseLink(link);
            var graded := Graded(gradingHistory, submission);
            var trace := Lookups(link, submission, gradingHistory, userName);
            (parsed.Failure? ==> trace == []) &&
            (parsed.Success? ==>
               |trace| >= 1 && trace[0] == IdValue(parsed.value.studentId) &&
               |trace| <= |graded| + 1 &&
               (forall i :: 0 <= i < |trace| - 1 ==> trace[i + 1] == graded[i].graderId) &&
               (AllGradersKnown(graded, userName) ==>
                  |trace| == |graded| + 1))
  {
  }

  /**
   * No retained event gives an empty history and no grader lookup: only the
   * student is looked up.
   */
  lemma EmptyHistoryLooksUpNoGrader(link: string, submission: Submission, assignment: Assignment,
                                    gradingHistory: seq<Event>, userName: UserLookup)
    requires Locator.ParseLink(link).Success?
    requires Graded(gradingHistory, submission) == []
    ensures var studentId := IdValue(Locator.ParseLink(link).value.studentId);
            Lookups(link, submission, gradingHistory, userName) == [studentId] &&
            SubmissionHistory(link, submission, assignment, gradingHistory, userName) ==
              match userName(studentId)
              case Some(name) => Success(Returned(name, []))
              case None => Failure(UserNotFound(studentId))
  {
  }
}

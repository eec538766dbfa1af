/**
 * parseLink: recovers the course, assignment and student of a SpeedGrader link
 * and which Canvas deployment it belongs to. The course is taken by position
 * from the path, the two ids by position from the query string (the parameter
 * names are never looked at), the deployment by a substring test.
 */
module Locator {
  import opened Wrappers
  import opened Strings

  /** The Canvas deployment: "ensign" or "byui". */
  datatype Instance = Ensign | Byui

  /** The parsed link; `None` stands for JavaScript's `undefined`. */
  datatype Link = Link(courseId: Option<string>, assignmentId: Option<string>,
                       studentId: Option<string>, instance: Instance)

  /**
   * The two ways parseLink throws (a TypeError from calling `.split` on
   * `undefined`): the link has no '?', or its query has no second '&'-piece.
   */
  datatype LinkError = NoQueryString | SingleQueryParameter

  /** JavaScript array indexing: `undefined` past the end. */
  function At(xs: seq<string>, i: nat): Option<string> {
    if i < |xs| then Some(xs[i]) else None
  }

  /** `piece.split("=")[1]`: the text between the first and the second '='. */
  function ParamValue(piece: string): Option<string> {
    At(Split(piece, '='), 1)
  }

  /** The text after the first '?' and before any later '?'; requires a '?'. */
  function QueryPart(link: string): string
    requires '?' in link
  {
    SplitHasSecondPiece(link, '?');
    Split(link, '?')[1]
  }

  function ParseLink(link: string): (r: Result<Link, LinkError>)
    ensures r == Failure(NoQueryString) <==> '?' !in link
    ensures r == Failure(SingleQueryParameter) <==> '?' in link && '&' !in QueryPart(link)
    ensures r.Success? ==> (r.value.instance == Ensign <==> exists i :: OccursAt(link, "ensign", i))
  {
    var urlParts := Split(link, '/');
    var instance := if Includes(link, "ensign") then Ensign else Byui;
    var courseId := At(urlParts, 4);
    var queryPieces := Split(link, '?');
    SplitHasSecondPiece(link, '?');
    IncludesIffOccurs(link, "ensign");
    if |queryPieces| < 2 then Failure(NoQueryString)
    else
      var paramsParts := Split(queryPieces[1], '&');
      SplitHasSecondPiece(queryPieces[1], '&');
      if |paramsParts| < 2 then Failure(SingleQueryParameter)
      else Success(Link(courseId, ParamValue(paramsParts[0]), ParamValue(paramsParts[1]), instance))
  }

  /** `key=value` yields `value`; a piece without '=' yields undefined. */
  lemma {:induction false} ParamValueAfterEquals(key: string, value: string)
    requires '=' !in key && '=' !in value
    ensures ParamValue(key + "=" + value) == Some(value)
    ensures ParamValue(key) == None
  {
    assert Join([key, value], '=') == key + "=" + value;
    JoinThenSplit([key, value], '=');
    SplitHasSecondPiece(key, '=');
  }

  /**
   * `key=rest` yields the text of `rest` up to its first '=' (all of `rest`
   * when it has none): the value is what lies between the first and the
   * second '=' of the piece.
   */
  lemma ParamValueBetweenFirstAndSecondEquals(key: string, rest: string)
    requires '=' !in key
    ensures ParamValue(key + "=" + rest) == Some(Split(rest, '=')[0])
  {
    SplitAfterFreePrefix(key, "=" + rest, '=');
    assert key + "=" + rest == key + ("=" + rest);
    assert ("=" + rest)[1..] == rest;
  }

  /** Text that holds neither of the delimiters '?' and '&' between query parameters. */
  predicate Plain(s: string) {
    '?' !in s && '&' !in s
  }

  /**
   * The assignment id is the value of the first query parameter and the student
   * id that of the second, whatever the parameters are called, whatever
   * parameters follow them and whatever follows a second '?'.
   */
  lemma {:induction false} IdsTakenByPosition(path: string, key1: string, rest1: string,
                                              key2: string, rest2: string, more: seq<string>,
                                              later: seq<string>)
    requires '?' !in path
    requires Plain(key1) && Plain(rest1) && Plain(key2) && Plain(rest2)
    requires '=' !in key1 && '=' !in key2
    requires forall p :: p in more ==> Plain(p)
    requires forall p :: p in later ==> '?' !in p
    ensures var query := Join([key1 + "=" + rest1, key2 + "=" + rest2] + more, '&');
            var link := Join([path, query] + later, '?');
            ParseLink(link).Success? &&
            ParseLink(link).value.assignmentId == Some(Split(rest1, '=')[0]) &&
            ParseLink(link).value.studentId == Some(Split(rest2, '=')[0])
  {
    var first, second := key1 + "=" + rest1, key2 + "=" + rest2;
    var params := [first, second] + more;
    var query := Join(params, '&');
    var parts := [path, query] + later;
    forall p | p in params
      ensures Plain(p)
    {
      if p !in more {
        assert p == first || p == second;
      }
    }
    JoinAvoids(params, '&', '?');
    forall p | p in parts
      ensures '?' !in p
    {
      if p !in later {
        assert p == path || p == query;
      }
    }
    JoinThenSplit(parts, '?');
    JoinThenSplit(params, '&');
    ParamValueBetweenFirstAndSecondEquals(key1, rest1);
    ParamValueBetweenFirstAndSecondEquals(key2, rest2);
  }

  /** The course id is the fifth '/'-segment of the link, or undefined when there are fewer. */
  lemma {:induction false} CourseIdIsFifthSegment(segments: seq<string>)
    requires |segments| >= 1
    requires forall s :: s in segments ==> '/' !in s
    ensures var r := ParseLink(Join(segments, '/'));
            r.Success? ==> r.value.courseId == At(segments, 4)
  {
    JoinThenSplit(segments, '/');
  }
}

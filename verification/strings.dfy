/**
 * The two JavaScript string operations the link parser relies on:
 * `String.prototype.split` with a one-character separator and
 * `String.prototype.includes`.
 */
module Strings {

  /** `s.split(sep)`: the pieces between separators, in order; never empty. */
  function Split(s: string, sep: char): (pieces: seq<string>)
    ensures |pieces| >= 1
    ensures forall p :: p in pieces ==> sep !in p
    decreases |s|
  {
    if s == [] then [[]]
    else
      var rest := Split(s[1..], sep);
      if s[0] == sep then [[]] + rest
      else [[s[0]] + rest[0]] + rest[1..]
  }

  /** `pieces.join(sep)`, the inverse of Split. */
  function Join(pieces: seq<string>, sep: char): string
    decreases |pieces|
  {
    if pieces == [] then []
    else if |pieces| == 1 then pieces[0]
    else pieces[0] + [sep] + Join(pieces[1..], sep)
  }

  /** Splitting and joining again gives back the original string. */
  lemma {:induction false} SplitThenJoin(s: string, sep: char)
    ensures Join(Split(s, sep), sep) == s
    decreases |s|
  {
    if s != [] {
      var rest := Split(s[1..], sep);
      SplitThenJoin(s[1..], sep);
      assert s == [s[0]] + s[1..];
      if s[0] == sep {
        assert Split(s, sep) == [[]] + rest;
        assert ([[]] + rest)[1..] == rest;
      } else {
        var pieces := [[s[0]] + rest[0]] + rest[1..];
        assert Split(s, sep) == pieces;
        if |rest| > 1 {
          assert pieces[1..] == rest[1..];
          assert Join(rest, sep) == rest[0] + [sep] + Join(rest[1..], sep);
        }
      }
    }
  }

  /** A leading piece free of the separator becomes part of the first piece. */
  lemma {:induction false} SplitAfterFreePrefix(p: string, t: string, sep: char)
    requires sep !in p
    ensures Split(p + t, sep) == [p + Split(t, sep)[0]] + Split(t, sep)[1..]
    decreases |p|
  {
    if p == [] {
      var r := Split(t, sep);
      assert p + t == t && p + r[0] == r[0];
      assert r == [r[0]] + r[1..];
    } else {
      SplitAfterFreePrefix(p[1..], t, sep);
      assert (p + t)[0] == p[0];
      assert (p + t)[1..] == p[1..] + t;
      assert [p[0]] + (p[1..] + Split(t, sep)[0]) == p + Split(t, sep)[0];
    }
  }

  /** Joining pieces that avoid the separator and splitting again gives back the pieces. */
  lemma {:induction false} JoinThenSplit(pieces: seq<string>, sep: char)
    requires |pieces| >= 1
    requires forall p :: p in pieces ==> sep !in p
    ensures Split(Join(pieces, sep), sep) == pieces
    decreases |pieces|
  {
    if |pieces| == 1 {
      SplitAfterFreePrefix(pieces[0], [], sep);
      assert pieces[0] + [] == pieces[0];
    } else {
      var tail := Join(pieces[1..], sep);
      var t := [sep] + tail;
      assert pieces[0] in pieces;
      JoinThenSplit(pieces[1..], sep);
      SplitAfterFreePrefix(pieces[0], t, sep);
      assert Join(pieces, sep) == pieces[0] + t;
      assert t[0] == sep && t[1..] == tail;
      var r := Split(t, sep);
      assert r == [[]] + pieces[1..];
      assert r[0] == [] && r[1..] == pieces[1..];
      assert pieces[0] + r[0] == pieces[0];
      assert pieces == [pieces[0]] + pieces[1..];
    }
  }

  /** A character that is neither the separator nor in any piece is not in the joined string. */
  lemma {:induction false} JoinAvoids(pieces: seq<string>, sep: char, c: char)
    requires c != sep
    requires forall p :: p in pieces ==> c !in p
    ensures c !in Join(pieces, sep)
    decreases |pieces|
  {
    if |pieces| > 1 {
      assert pieces[0] in pieces;
      JoinAvoids(pieces[1..], sep, c);
    } else if |pieces| == 1 {
      assert pieces[0] in pieces;
    }
  }

  /** Split yields at least two pieces exactly when the separator occurs. */
  lemma {:induction false} SplitHasSecondPiece(s: string, sep: char)
    ensures |Split(s, sep)| >= 2 <==> sep in s
    decreases |s|
  {
    if s != [] {
      SplitHasSecondPiece(s[1..], sep);
      assert s == [s[0]] + s[1..];
    }
  }

  /** `s.startsWith(prefix)` */
  predicate StartsWith(s: string, prefix: string) {
    |prefix| <= |s| && s[..|prefix|] == prefix
  }

  /** `s.includes(sub)`, by trying every start position from the left. */
  predicate Includes(s: string, sub: string)
    decreases |s|
  {
    StartsWith(s, sub) || (s != [] && Includes(s[1..], sub))
  }

  /** `sub` occurs in `s` starting at index `i`. */
  ghost predicate OccursAt(s: string, sub: string, i: int) {
    0 <= i && i + |sub| <= |s| && s[i..i + |sub|] == sub
  }

  /** Includes holds exactly when the substring occurs at some position. */
  lemma {:induction false} IncludesIffOccurs(s: string, sub: string)
    ensures Includes(s, sub) <==> exists i :: OccursAt(s, sub, i)
    decreases |s|
  {
    if StartsWith(s, sub) {
      assert OccursAt(s, sub, 0);
    }
    if s != [] {
      IncludesIffOccurs(s[1..], sub);
      if Includes(s[1..], sub) {
        var i :| OccursAt(s[1..], sub, i);
        assert s[1..][i..i + |sub|] == s[i + 1..i + 1 + |sub|];
        assert OccursAt(s, sub, i + 1);
      }
      if i :| OccursAt(s, sub, i) {
        if i > 0 {
          assert s[1..][i - 1..i - 1 + |sub|] == s[i..i + |sub|];
          assert OccursAt(s[1..], sub, i - 1);
        } else {
          assert StartsWith(s, sub);
        }
      }
    } else {
      if i :| OccursAt(s, sub, i) {
        assert StartsWith(s, sub);
      }
    }
  }
}

/** The e-mail check both sign-in forms use: the pattern `\S+@\S+\.\S+`
    applied without anchors, so it passes when some part of the text has the
    shape "non-space run, `@`, non-space run, `.`, non-space run". */
module EmailPattern {
  import opened Wrappers
  import Text

  /** No white space in `s[lo..hi]`. */
  predicate NonSpace(s: string, lo: int, hi: int)
    requires 0 <= lo <= hi <= |s|
  {
    forall k :: lo <= k < hi ==> !Text.IsSpace(s[k])
  }

  /** The pattern matches `s[a..b]` with its `@` at `i` and its `.` at `j`:
      each `\S+` takes a non-empty run of non-space characters. */
  predicate Shape(s: string, a: int, i: int, j: int, b: int) {
    && 0 <= a < i && i + 1 < j && j + 1 < b <= |s|
    && s[i] == '@' && s[j] == '.'
    && NonSpace(s, a, i) && NonSpace(s, i + 1, j) && NonSpace(s, j + 1, b)
  }

  /** The shortest match around an `@` at `i` and a `.` at `j`: one
      character before the `@`, one after the `.`. */
  predicate MatchAt(s: string, i: int, j: int) {
    && 1 <= i && i + 2 <= j && j + 2 <= |s|
    && s[i] == '@' && s[j] == '.' && NonSpace(s, i - 1, j + 2)
  }

  /** `/\S+@\S+\.\S+/.test(s)`. */
  predicate Occurs(s: string) {
    exists i, j | 0 <= i < |s| && 0 <= j < |s| :: MatchAt(s, i, j)
  }

  /** Every match contains a shortest one around the same `@` and `.`. */
  lemma ShapeHasShortest(s: string, a: int, i: int, j: int, b: int)
    requires Shape(s, a, i, j, b)
    ensures MatchAt(s, i, j)
  {
    assert NonSpace(s, i - 1, j + 2) by {
      forall k | i - 1 <= k < j + 2 ensures !Text.IsSpace(s[k]) {
        if k < i {
        } else if i < k < j {
        } else if j < k {
        }
      }
    }
  }

  /** A shortest match is a match. */
  lemma ShortestIsShape(s: string, i: int, j: int)
    requires MatchAt(s, i, j)
    ensures Shape(s, i - 1, i, j, j + 2)
  {
  }

  /** One pass over the text deciding whether the pattern occurs. It tracks
      the current run of non-space characters and the first `@` in that run
      with a character before it; a `.` two or more places after that `@`,
      followed by a non-space character, completes a match. */
  method Search(s: string) returns (found: bool)
    ensures found <==> Occurs(s)
  {
    var runStart := 0;
    var at := -1;
    var k := 0;
    while k < |s|
      invariant 0 <= runStart <= k <= |s|
      invariant NonSpace(s, runStart, k)
      invariant runStart > 0 ==> Text.IsSpace(s[runStart - 1])
      invariant at == -1 || (runStart + 1 <= at < k && s[at] == '@')
      invariant forall p :: runStart + 1 <= p < k && s[p] == '@' ==> at != -1 && at <= p
      invariant forall i, j :: MatchAt(s, i, j) ==> k < j + 2
    {
      if Text.IsSpace(s[k]) {
        runStart := k + 1;
        at := -1;
      } else {
        if 1 <= k && s[k - 1] == '.' && at != -1 && at + 2 <= k - 1 {
          assert MatchAt(s, at, k - 1);
          return true;
        }
        if s[k] == '@' && at == -1 && runStart + 1 <= k {
          at := k;
        }
      }
      k := k + 1;
    }
    found := false;
  }

  /** The message both sign-in forms show for the e-mail field, if any: the
      required check comes first, then the pattern. */
  function EmailError(email: string): (r: Option<string>)
    ensures r.None? <==> email != "" && Occurs(email)
    ensures email == "" ==> r == Some("Email is required")
    ensures email != "" && !Occurs(email) ==> r == Some("Email is invalid")
  {
    if email == "" then Some("Email is required")
    else if !Occurs(email) then Some("Email is invalid")
    else None
  }

  /** "a@b.c" has the shape; "a@b" and "@b.c" do not. */
  lemma Examples()
    ensures Occurs("a@b.c")
    ensures !Occurs("a@b")
    ensures !Occurs("@b.c")
  {
    assert MatchAt("a@b.c", 1, 3);
  }
}

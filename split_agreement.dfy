/**
 * `transposeTab` splits and joins at `'\n'`, `getCookie` splits at a string; both are the same
 * `String.prototype.split` and `Array.prototype.join`. The line functions of `Transpose` and the
 * pattern's `HasAt` are the general `AppModel` definitions at a one-character separator.
 */
module SplitAgreement {
  import opened Wrappers
  import Transpose
  import ChordScanner
  import AppModel

  /** `HasAt` of the chord pattern and `OccursAt` of `split` are the same test. */
  lemma HasAtIsOccursAt(s: string, at: nat, w: string)
    ensures ChordScanner.HasAt(s, at, w) <==> AppModel.OccursAt(s, at, w)
  {
  }

  /** `lines.join('\n')` is `join` at the separator `"\n"`. */
  lemma {:induction false} JoinLinesIsJoinOn(lines: seq<string>)
    requires |lines| >= 1
    ensures Transpose.JoinLines(lines) == AppModel.JoinOn(lines, "\n")
    decreases |lines|
  {
    if |lines| > 1 {
      JoinLinesIsJoinOn(lines[1..]);
    }
  }

  /** `s.split('\n')` is `split` at the separator `"\n"`. */
  lemma {:induction false} SplitLinesIsSplitOn(s: string)
    ensures Transpose.SplitLines(s) == AppModel.SplitOn(s, "\n")
    decreases |s|
  {
    if s != "" {
      var tail := s[1..];
      SplitLinesIsSplitOn(tail);
      if s[0] == '\n' {
        assert AppModel.FirstOccurrenceFrom(s, "\n", 0) == Some(0);
        assert s[1..] == tail;
      } else {
        FirstLineFeedAfterHead(s);
      }
    }
  }

  /** Past a first character that is not a line feed, `split` keeps it on the first piece. */
  lemma FirstLineFeedAfterHead(s: string)
    requires s != "" && s[0] != '\n'
    ensures var rest := AppModel.SplitOn(s[1..], "\n");
      AppModel.SplitOn(s, "\n") == [[s[0]] + rest[0]] + rest[1..]
  {
    var tail := s[1..];
    OneCharSlice(s, 0);
    assert AppModel.FirstOccurrenceFrom(s, "\n", 0) == AppModel.FirstOccurrenceFrom(s, "\n", 1);
    ShiftedOccurrence(s, tail, 0);
    var found := AppModel.FirstOccurrenceFrom(tail, "\n", 0);
    if found.Some? {
      var i := found.value;
      PiecesAfterHead(s, tail, i, s[i + 2..]);
    } else {
      assert [s[0]] + tail == s;
    }
  }

  lemma PiecesAfterHead(s: string, tail: string, i: nat, after: string)
    requires |s| > 0 && tail == s[1..] && i + 1 <= |tail| && after == s[i + 2..]
    requires AppModel.FirstOccurrenceFrom(tail, "\n", 0) == Some(i)
    requires AppModel.FirstOccurrenceFrom(s, "\n", 0) == Some(i + 1)
    ensures var rest := AppModel.SplitOn(tail, "\n");
      AppModel.SplitOn(s, "\n") == [[s[0]] + rest[0]] + rest[1..]
  {
    assert tail[i + 1..] == after;
    assert [s[0]] + tail[..i] == s[..i + 1];
  }

  /** Searching `s` from `from + 1` is searching its tail from `from`, one position on. */
  lemma {:induction false} ShiftedOccurrence(s: string, tail: string, from: nat)
    requires |s| > 0 && tail == s[1..] && from < |s|
    ensures var r := AppModel.FirstOccurrenceFrom(tail, "\n", from);
      AppModel.FirstOccurrenceFrom(s, "\n", from + 1) == if r.Some? then Some(r.value + 1) else None
    decreases |s| - from
  {
    if from + 1 < |s| {
      OneCharSlice(s, from + 1);
      OneCharSlice(tail, from);
      assert tail[from] == s[from + 1];
      if s[from + 1] != '\n' {
        ShiftedOccurrence(s, tail, from + 1);
      }
    }
  }

  lemma OneCharSlice(s: string, i: nat)
    requires i < |s|
    ensures s[i..i + 1] == [s[i]]
  {
  }
}

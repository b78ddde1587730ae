/**
 * `transposeTab` of src/components/songDisplay.jsx: the text is split at line feeds, every
 * chord `CHORD_REGEX` finds on a line has its root and its bass note moved by the same number
 * of semitones, and the lines are joined again.
 *
 * A line is first cut into tokens the way a global `String.prototype.replace` walks it: at each
 * position the pattern is tried; a match becomes a chord token and the walk resumes after it,
 * otherwise the character is kept as text and the walk moves on by one.
 */
module Transpose {
  import opened Wrappers
  import Pitch
  import opened ChordScanner

  /** One piece of a line: a character outside every match, or the four groups of one match. */
  datatype Token = Text(c: char) | Chord(root: string, modifier: string, digits: string, bass: string)
  {
    /** The characters of the line this token covers. */
    function Original(): string {
      match this
      case Text(c) => [c]
      case Chord(root, modifier, digits, bass) => root + modifier + digits + bass
    }

    /** The replacement the callback of `transposeTab` returns for this token. */
    function Rendered(semitones: int): string {
      match this
      case Text(c) => [c]
      case Chord(root, modifier, digits, bass) =>
        Pitch.TransposeNote(root, semitones) + modifier + digits
        + (if bass != "" then "/" + Pitch.TransposeNote(bass[1..], semitones) else bass)
    }

    /** A chord token holds what the groups of the pattern can capture. */
    predicate WellFormed() {
      Chord? ==> GroupMatches(0, root) && GroupMatches(1, modifier) && GroupMatches(2, digits) && GroupMatches(3, bass)
    }

    /** Its notes are spelt as `NOTES` spells them, so transposing by octaves leaves them alone. */
    predicate CanonicalNotes() {
      Chord? ==> Pitch.IsCanonical(root) && (bass == "" || (|bass| >= 1 && Pitch.IsCanonical(bass[1..])))
    }
  }

  function Source(ts: seq<Token>): string {
    if ts == [] then "" else ts[0].Original() + Source(ts[1..])
  }

  function Render(ts: seq<Token>, semitones: int): string {
    if ts == [] then "" else ts[0].Rendered(semitones) + Render(ts[1..], semitones)
  }

  /** The chord token for the match of shape `sh` at `p`. */
  function ChordOf(s: string, p: nat, sh: Shape): (t: Token)
    requires p < |s| && MatchAt(s, p) == Some(sh)
    ensures t.Chord? && t.WellFormed()
    ensures t.Original() == s[p..p + sh.Length()]
  {
    var q := p + sh.root;
    var r := q + sh.modifier;
    var u := r + sh.digits;
    var e := u + sh.bass;
    MatchedGroups(s, p, sh, q, r, u, e);
    SlicesJoin(s, p, q, r, u, e);
    Chord(s[p..q], s[q..r], s[r..u], s[u..e])
  }

  lemma MatchedGroups(s: string, p: nat, sh: Shape, q: nat, r: nat, u: nat, e: nat)
    requires p < |s| && MatchAt(s, p) == Some(sh)
    requires q == p + sh.root && r == q + sh.modifier && u == r + sh.digits && e == u + sh.bass
    ensures e == p + sh.Length() && e <= |s|
    ensures GroupMatches(0, s[p..q]) && GroupMatches(1, s[q..r]) && GroupMatches(2, s[r..u]) && GroupMatches(3, s[u..e])
  {
  }

  lemma SlicesJoin(s: string, a: nat, b: nat, c: nat, d: nat, e: nat)
    requires a <= b <= c <= d <= e <= |s|
    ensures s[a..b] + s[b..c] + s[c..d] + s[d..e] == s[a..e]
  {
    assert s[a..b] + s[b..c] == s[a..c];
    assert s[a..c] + s[c..d] == s[a..d];
  }

  /**
   * One step of the walk at `p`: the chord the pattern matches there, resuming after it, or
   * else the character at `p` as text, resuming at the next position.
   */
  function NextToken(s: string, p: nat): (r: (Token, nat))
    requires p < |s|
    ensures p < r.1 <= |s|
    ensures r.0.WellFormed() && r.0.Original() == s[p..r.1]
  {
    match MatchAt(s, p)
    case None =>
      assert [s[p]] == s[p..p + 1];
      (Text(s[p]), p + 1)
    case Some(sh) => (ChordOf(s, p, sh), p + sh.Length())
  }

  /** The walk of a global replace over `s` from position `p`. */
  function TokenizeFrom(s: string, p: nat): seq<Token>
    requires p <= |s|
    decreases |s| - p
  {
    if p == |s| then []
    else
      var step := NextToken(s, p);
      [step.0] + TokenizeFrom(s, step.1)
  }

  function Tokenize(line: string): seq<Token> { TokenizeFrom(line, 0) }

  /** `line.replace(CHORD_REGEX, ...)` with the callback of `transposeTab`. */
  function TransposeLine(line: string, semitones: int): string {
    Render(Tokenize(line), semitones)
  }

  // ---------------------------------------------------------------------------------------------
  // Lines: `split('\n')` and `join('\n')`

  /** `s.split('\n')`: always at least one piece, an empty one for an empty string. */
  function SplitLines(s: string): (r: seq<string>)
    ensures |r| >= 1
  {
    if s == "" then [""]
    else
      var rest := SplitLines(s[1..]);
      if s[0] == '\n' then [""] + rest else [[s[0]] + rest[0]] + rest[1..]
  }

  /** `lines.join('\n')`. */
  function JoinLines(lines: seq<string>): string
    requires |lines| >= 1
  {
    if |lines| == 1 then lines[0] else lines[0] + "\n" + JoinLines(lines[1..])
  }

  function TransposeLines(lines: seq<string>, semitones: int): (r: seq<string>)
    ensures |r| == |lines|
    ensures forall i :: 0 <= i < |lines| ==> r[i] == TransposeLine(lines[i], semitones)
  {
    if lines == [] then [] else [TransposeLine(lines[0], semitones)] + TransposeLines(lines[1..], semitones)
  }

  /** `transposeTab(text, semitones)`. */
  function TransposeTab(text: string, semitones: int): string {
    JoinLines(TransposeLines(SplitLines(text), semitones))
  }

  predicate NoLineFeed(s: string) { forall i :: 0 <= i < |s| ==> s[i] != '\n' }

  // ---------------------------------------------------------------------------------------------
  // Tokenizing loses and invents nothing

  lemma {:induction false} TokenizeFromSource(s: string, p: nat)
    requires p <= |s|
    ensures Source(TokenizeFrom(s, p)) == s[p..]
    decreases |s| - p
  {
    if p < |s| {
      var step := NextToken(s, p);
      TokenizeFromSource(s, step.1);
      SourceCons(step.0, TokenizeFrom(s, step.1));
      SliceSplit(s, p, step.1);
    }
  }

  lemma SourceCons(tok: Token, rest: seq<Token>)
    ensures Source([tok] + rest) == tok.Original() + Source(rest)
  {
    assert ([tok] + rest)[1..] == rest;
  }

  lemma SliceSplit(s: string, p: nat, q: nat)
    requires p <= q <= |s|
    ensures s[p..] == s[p..q] + s[q..]
  {
  }

  lemma {:induction false} TokenizeFromWellFormed(s: string, p: nat)
    requires p <= |s|
    ensures forall k :: 0 <= k < |TokenizeFrom(s, p)| ==> TokenizeFrom(s, p)[k].WellFormed()
    decreases |s| - p
  {
    if p < |s| {
      TokenizeFromWellFormed(s, NextToken(s, p).1);
    }
  }

  /** Concatenating what the tokens of a line cover gives the line back. */
  lemma TokenizeCovers(line: string)
    ensures Source(Tokenize(line)) == line
    ensures forall k :: 0 <= k < |Tokenize(line)| ==> Tokenize(line)[k].WellFormed()
  {
    TokenizeFromSource(line, 0);
    TokenizeFromWellFormed(line, 0);
  }

  /** Where the pattern matches nowhere, the walk keeps every character as text. */
  lemma {:induction false} NoChordFromIsText(s: string, p: nat)
    requires p <= |s|
    requires forall q: nat, sh :: p <= q < |s| ==> !IsChordAt(s, q, sh)
    ensures forall k :: 0 <= k < |TokenizeFrom(s, p)| ==> TokenizeFrom(s, p)[k].Text?
    decreases |s| - p
  {
    if p < |s| {
      assert MatchAt(s, p).None?;
      NoChordFromIsText(s, p + 1);
    }
  }

  // ---------------------------------------------------------------------------------------------
  // What rendering does

  lemma {:induction false} RenderTextOnly(ts: seq<Token>, semitones: int)
    requires forall k :: 0 <= k < |ts| ==> ts[k].Text?
    ensures Render(ts, semitones) == Source(ts)
  {
    if ts != [] {
      assert forall k :: 0 <= k < |ts[1..]| ==> ts[1..][k] == ts[k + 1];
      RenderTextOnly(ts[1..], semitones);
    }
  }

  /** A line on which the pattern matches nowhere comes back unchanged. */
  lemma LineWithoutChordsUnchanged(line: string, semitones: int)
    requires forall p: nat, sh :: p < |line| ==> !IsChordAt(line, p, sh)
    ensures TransposeLine(line, semitones) == line
  {
    NoChordFromIsText(line, 0);
    RenderTextOnly(Tokenize(line), semitones);
    TokenizeCovers(line);
  }

  /** A line in which no word starts with a capital `A` to `G` is left alone. */
  lemma LineWithoutRootsUnchanged(line: string, semitones: int)
    requires forall p: nat :: p < |line| && AtWordBoundary(line, p) ==> !Pitch.IsNoteLetter(line[p])
    ensures TransposeLine(line, semitones) == line
  {
    forall p: nat, sh | p < |line| ensures !IsChordAt(line, p, sh) {
      if AtWordBoundary(line, p) && p + sh.Length() <= |line| && sh.root > 0 {
        assert line[p..p + sh.root][0] == line[p];
      }
    }
    LineWithoutChordsUnchanged(line, semitones);
  }

  /**
   * A chord keeps its quality, extension and the shape of its bass; its root and bass note
   * become the canonical spelling of the pitch `semitones` away. The pass-through branch of
   * `transposeNote` is never taken for a captured note.
   */
  lemma RenderedChord(t: Token, semitones: int)
    requires t.Chord? && t.WellFormed()
    ensures t.root in Pitch.NoteToIndex
    ensures t.bass != "" ==> |t.bass| >= 2 && t.bass[0] == '/' && t.bass[1..] in Pitch.NoteToIndex
    ensures var newRoot := Pitch.TransposeNote(t.root, semitones);
      && Pitch.IsCanonical(newRoot)
      && Pitch.NoteToIndex[newRoot] == (Pitch.NoteToIndex[t.root] + semitones) % 12
      && t.Rendered(semitones) == newRoot + t.modifier + t.digits
         + (if t.bass == "" then "" else "/" + Pitch.TransposeNote(t.bass[1..], semitones))
    ensures t.bass != "" ==>
      var newBass := Pitch.TransposeNote(t.bass[1..], semitones);
      Pitch.IsCanonical(newBass) && Pitch.NoteToIndex[newBass] == (Pitch.NoteToIndex[t.bass[1..]] + semitones) % 12
  {
    Pitch.KeysAreSpellings(t.root);
    if t.bass != "" {
      Pitch.KeysAreSpellings(t.bass[1..]);
    }
  }

  lemma OctaveFixesCanonicalToken(t: Token, k: int)
    requires t.WellFormed() && t.CanonicalNotes()
    ensures t.Rendered(12 * k) == t.Original()
  {
    if t.Chord? {
      Pitch.OctaveFixesCanonical(t.root, k);
      if t.bass != "" {
        Pitch.OctaveFixesCanonical(t.bass[1..], k);
        assert t.bass == [t.bass[0]] + t.bass[1..];
      }
    }
  }

  lemma {:induction false} RenderOctaves(ts: seq<Token>, k: int)
    requires forall i :: 0 <= i < |ts| ==> ts[i].WellFormed() && ts[i].CanonicalNotes()
    ensures Render(ts, 12 * k) == Source(ts)
  {
    if ts != [] {
      OctaveFixesCanonicalToken(ts[0], k);
      assert forall i :: 0 <= i < |ts[1..]| ==> ts[1..][i] == ts[i + 1];
      RenderOctaves(ts[1..], k);
    }
  }

  /** A line whose chords are all spelt canonically is unchanged by whole octaves. */
  lemma OctaveFixesCanonicalLine(line: string, k: int)
    requires forall i :: 0 <= i < |Tokenize(line)| ==> Tokenize(line)[i].CanonicalNotes()
    ensures TransposeLine(line, 12 * k) == line
  {
    TokenizeCovers(line);
    RenderOctaves(Tokenize(line), k);
  }

  lemma NoLineFeedConcat(a: string, b: string)
    ensures NoLineFeed(a + b) <==> NoLineFeed(a) && NoLineFeed(b)
  {
    if NoLineFeed(a + b) {
      assert forall i :: 0 <= i < |a| ==> (a + b)[i] == a[i];
      assert forall i :: 0 <= i < |b| ==> (a + b)[|a| + i] == b[i];
    }
  }

  lemma TransposedNoteHasNoLineFeed(note: string, semitones: int)
    requires note in Pitch.NoteToIndex
    ensures NoLineFeed(Pitch.TransposeNote(note, semitones))
  {
    var r := Pitch.TransposeNote(note, semitones);
    Pitch.KeysAreSpellings(r);
  }

  lemma TokenKeepsLineFeedFree(t: Token, semitones: int)
    requires t.WellFormed() && NoLineFeed(t.Original())
    ensures NoLineFeed(t.Rendered(semitones))
  {
    if t.Chord? {
      RenderedChord(t, semitones);
      TransposedNoteHasNoLineFeed(t.root, semitones);
      NoLineFeedConcat(t.root + t.modifier + t.digits, t.bass);
      NoLineFeedConcat(t.root + t.modifier, t.digits);
      NoLineFeedConcat(t.root, t.modifier);
      var newRoot := Pitch.TransposeNote(t.root, semitones);
      NoLineFeedConcat(newRoot, t.modifier);
      NoLineFeedConcat(newRoot + t.modifier, t.digits);
      if t.bass != "" {
        var newBass := Pitch.TransposeNote(t.bass[1..], semitones);
        TransposedNoteHasNoLineFeed(t.bass[1..], semitones);
        NoLineFeedConcat("/", newBass);
        NoLineFeedConcat(newRoot + t.modifier + t.digits, "/" + newBass);
      }
    }
  }

  lemma {:induction false} RenderKeepsLineFeedFree(ts: seq<Token>, semitones: int)
    requires forall k :: 0 <= k < |ts| ==> ts[k].WellFormed()
    requires NoLineFeed(Source(ts))
    ensures NoLineFeed(Render(ts, semitones))
  {
    if ts != [] {
      NoLineFeedConcat(ts[0].Original(), Source(ts[1..]));
      TokenKeepsLineFeedFree(ts[0], semitones);
      assert forall k :: 0 <= k < |ts[1..]| ==> ts[1..][k] == ts[k + 1];
      RenderKeepsLineFeedFree(ts[1..], semitones);
      NoLineFeedConcat(ts[0].Rendered(semitones), Render(ts[1..], semitones));
    }
  }

  /** Transposing a line never introduces a line feed. */
  lemma TransposeLineKeepsLineFeedFree(line: string, semitones: int)
    requires NoLineFeed(line)
    ensures NoLineFeed(TransposeLine(line, semitones))
  {
    TokenizeCovers(line);
    RenderKeepsLineFeedFree(Tokenize(line), semitones);
  }

  // ---------------------------------------------------------------------------------------------
  // Splitting and joining

  lemma {:induction false} SplitLinesHaveNoLineFeed(s: string)
    ensures forall i :: 0 <= i < |SplitLines(s)| ==> NoLineFeed(SplitLines(s)[i])
  {
    if s != "" {
      SplitLinesHaveNoLineFeed(s[1..]);
    }
  }

  /** `split('\n')` followed by `join('\n')` gives the text back. */
  lemma {:induction false} JoinSplit(s: string)
    ensures JoinLines(SplitLines(s)) == s
  {
    if s != "" {
      var rest := SplitLines(s[1..]);
      JoinSplit(s[1..]);
      if s[0] == '\n' {
        assert ([""] + rest)[1..] == rest;
      } else {
        var r := [[s[0]] + rest[0]] + rest[1..];
        if |rest| > 1 {
          assert r[1..] == rest[1..];
          assert JoinLines(rest) == rest[0] + "\n" + JoinLines(rest[1..]);
        }
      }
    }
  }

  /** `join('\n')` followed by `split('\n')` gives the lines back when none holds a line feed. */
  lemma {:induction false} SplitJoin(lines: seq<string>)
    requires |lines| >= 1
    requires forall i :: 0 <= i < |lines| ==> NoLineFeed(lines[i])
    ensures SplitLines(JoinLines(lines)) == lines
    decreases |lines|, |lines[0]|
  {
    var l := lines[0];
    if |lines| == 1 {
      SplitOfLine(l);
    } else {
      var tail := lines[1..];
      assert forall i :: 0 <= i < |tail| ==> tail[i] == lines[i + 1];
      if l == "" {
        assert JoinLines(lines) == "\n" + JoinLines(tail);
        SplitJoin(tail);
        assert lines == [""] + tail;
      } else {
        var shorter := [l[1..]] + tail;
        assert shorter[1..] == tail;
        assert JoinLines(lines) == [l[0]] + JoinLines(shorter) by {
          assert JoinLines(shorter) == l[1..] + "\n" + JoinLines(tail);
          assert l == [l[0]] + l[1..];
        }
        assert forall i :: 0 <= i < |shorter| ==> NoLineFeed(shorter[i]) by {
          assert NoLineFeed(l[1..]) by {
            assert forall i :: 0 <= i < |l[1..]| ==> l[1..][i] == l[i + 1];
          }
        }
        SplitJoin(shorter);
        assert ([l[0]] + JoinLines(shorter))[1..] == JoinLines(shorter);
        assert l == [l[0]] + l[1..];
        assert lines == [l] + tail;
      }
    }
  }

  lemma {:induction false} SplitOfLine(l: string)
    requires NoLineFeed(l)
    ensures SplitLines(l) == [l]
  {
    if l != "" {
      assert NoLineFeed(l[1..]) by {
        assert forall i :: 0 <= i < |l[1..]| ==> l[1..][i] == l[i + 1];
      }
      SplitOfLine(l[1..]);
      assert l == [l[0]] + l[1..];
    }
  }

  /**
   * `transposeTab` keeps the line structure: the result has as many lines as the text, and its
   * line `i` is line `i` of the text transposed on its own.
   */
  lemma TransposeTabLines(text: string, semitones: int)
    ensures var lines := SplitLines(text);
      var out := SplitLines(TransposeTab(text, semitones));
      |out| == |lines| && forall i :: 0 <= i < |lines| ==> out[i] == TransposeLine(lines[i], semitones)
  {
    var lines := SplitLines(text);
    var out := TransposeLines(lines, semitones);
    SplitLinesHaveNoLineFeed(text);
    forall i | 0 <= i < |out| ensures NoLineFeed(out[i]) {
      TransposeLineKeepsLineFeedFree(lines[i], semitones);
    }
    SplitJoin(out);
  }

  /** A text in which the pattern matches on no line comes back unchanged. */
  lemma TabWithoutChordsUnchanged(text: string, semitones: int)
    requires forall i, p: nat, sh :: 0 <= i < |SplitLines(text)| && p < |SplitLines(text)[i]| ==>
      !IsChordAt(SplitLines(text)[i], p, sh)
    ensures TransposeTab(text, semitones) == text
  {
    var lines := SplitLines(text);
    var out := TransposeLines(lines, semitones);
    forall i | 0 <= i < |lines| ensures out[i] == lines[i] {
      LineWithoutChordsUnchanged(lines[i], semitones);
    }
    assert out == lines;
    JoinSplit(text);
  }
}

/**
 * Worked lines. Each lemma takes its line as a parameter equal to the literal, so that the
 * verifier follows the proof's steps instead of evaluating the matcher on its own.
 */
module TransposeExamples {
  import opened Wrappers
  import Pitch
  import opened ChordScanner
  import opened ChordScannerFacts
  import opened Transpose

  /** `A` then the minor quality; the space after `m` ends the chord. */
  lemma MinorChordMatch(s: string)
    requires s == "Am G"
    ensures MatchAt(s, 0) == Some(Shape(1, 1, 0, 0))
  {
    assert Candidates(s, 0, 0) == [1];
    MinorModifier(s, 1);
    assert Candidates(s, 2, 2) == [0];
    assert Candidates(s, 2, 3) == [0];
    assert Search(s, 3, 2, [0]) == Some([0]);
    TryStep(s, 2, 2, 0, [0]);
    SearchTakesFirst(s, 2, 2, [0], [0] + [0]);
    TryStep(s, 1, 1, 1, [0] + [0]);
    SearchTakesFirst(s, 1, 1, [1, 0], [1] + ([0] + [0]));
    TryStep(s, 0, 0, 1, [1] + ([0] + [0]));
    SearchTakesFirst(s, 0, 0, [1], [1] + ([1] + ([0] + [0])));
    MatchFromSearch(s, 0, [1] + ([1] + ([0] + [0])));
  }

  lemma MinorAndMajorTokens(s: string)
    requires s == "Am G"
    ensures Tokenize(s) == [Chord("A", "m", "", ""), Text(' '), Chord("G", "", "", "")]
  {
    MinorChordMatch(s);
    BareRootMatch(s, 3, 1);
    NoRootNoMatch(s, 2);
    assert TokenizeFrom(s, 4) == [];
    assert TokenizeFrom(s, 3) == [Chord(s[3..4], s[4..4], s[4..4], s[4..4])];
    assert TokenizeFrom(s, 2) == [Text(' ')] + TokenizeFrom(s, 3);
    assert TokenizeFrom(s, 0) == [Chord(s[0..1], s[1..2], s[2..2], s[2..2])] + TokenizeFrom(s, 2);
    assert s[0..1] == "A" && s[1..2] == "m" && s[3..4] == "G";
  }

  lemma MinorAndMajorRendered(ts: seq<Token>)
    requires ts == [Chord("A", "m", "", ""), Text(' '), Chord("G", "", "", "")]
    ensures Render(ts, 1) == "A#m G#"
  {
    MinorChordUp(ts[0]);
    MajorChordUp(ts[2]);
    assert ts[1].Rendered(1) == " ";
    RenderOfThree(ts, 1);
  }

  lemma MinorChordUp(t: Token)
    requires t == Chord("A", "m", "", "")
    ensures t.Rendered(1) == "A#m"
  {
    var r := t.root;
    assert r == "A" && Pitch.IsSpelling(r) && Pitch.ReferencePitch(r) == 0;
    Pitch.TransposeLandsOn(r, 1, 1);
  }

  lemma MajorChordUp(t: Token)
    requires t == Chord("G", "", "", "")
    ensures t.Rendered(1) == "G#"
  {
    var r := t.root;
    assert r == "G" && Pitch.IsSpelling(r) && Pitch.ReferencePitch(r) == 10;
    Pitch.TransposeLandsOn(r, 1, 11);
  }

  lemma RenderOfThree(ts: seq<Token>, semitones: int)
    requires |ts| == 3
    ensures Render(ts, semitones) == ts[0].Rendered(semitones) + ts[1].Rendered(semitones) + ts[2].Rendered(semitones)
  {
    assert ts[2..][1..] == [];
    assert Render(ts[2..], semitones) == ts[2].Rendered(semitones);
    assert ts[1..][1..] == ts[2..];
    assert Render(ts[1..], semitones) == ts[1].Rendered(semitones) + ts[2].Rendered(semitones);
  }

  /** Each chord of the line moves up a semitone; the space between them stays. */
  lemma TransposeMinorAndMajor(s: string)
    requires s == "Am G"
    ensures TransposeLine(s, 1) == "A#m G#"
  {
    MinorAndMajorTokens(s);
    MinorAndMajorRendered(Tokenize(s));
  }

  /** A slash chord: root and bass both move, the slash stays. */
  lemma SlashChordTokens(s: string)
    requires s == "D/F#"
    ensures Tokenize(s) == [Chord("D", "", "", "/F#")]
  {
    var tail := [0] + ([0] + [3]);
    assert Search(s, 1, 1, Candidates(s, 1, 1)) == Some(tail) by {
      NoModifier(s, 1);
      assert Candidates(s, 1, 2) == [0];
      assert Candidates(s, 1, 3) == [3, 2, 0];
      assert Search(s, 3, 1, [3, 2, 0]) == Some([3]);
      TryStep(s, 2, 1, 0, [3]);
      SearchTakesFirst(s, 2, 1, [0], [0] + [3]);
      TryStep(s, 1, 1, 0, [0] + [3]);
      SearchTakesFirst(s, 1, 1, [0], tail);
    }
    assert Candidates(s, 0, 0) == [1];
    TryStep(s, 0, 0, 1, tail);
    SearchTakesFirst(s, 0, 0, [1], [1] + tail);
    MatchFromSearch(s, 0, [1] + tail);
    assert TokenizeFrom(s, 4) == [];
    assert s[0..1] == "D" && s[1..4] == "/F#";
  }

  lemma SlashChordRendered(ts: seq<Token>)
    requires ts == [Chord("D", "", "", "/F#")]
    ensures Render(ts, -2) == "C/E"
  {
    var t := ts[0];
    var r, b := t.root, t.bass[1..];
    assert r == "D" && Pitch.IsSpelling(r) && Pitch.ReferencePitch(r) == 5;
    assert b == "F#" && Pitch.IsSpelling(b) && Pitch.ReferencePitch(b) == 9;
    Pitch.TransposeLandsOn(r, -2, 3);
    Pitch.TransposeLandsOn(b, -2, 7);
    assert t.Rendered(-2) == "C/E";
    assert ts[1..] == [];
  }

  /** `D/F#` down a whole tone is `C/E`. */
  lemma TransposeSlashChord(s: string)
    requires s == "D/F#"
    ensures TransposeLine(s, -2) == "C/E"
  {
    SlashChordTokens(s);
    SlashChordRendered(Tokenize(s));
  }

  /** A root followed by a letter fails the look-ahead: the word is left alone. */
  lemma WordIsNotChord(s: string)
    requires s == "Go"
    ensures TransposeLine(s, 3) == s
  {
    assert MatchAt(s, 0) == None by {
      NoModifier(s, 1);
      assert Candidates(s, 1, 2) == [0];
      assert Candidates(s, 1, 3) == [0];
      assert Search(s, 3, 1, [0]) == None by {
        SearchSkipsFirst(s, 3, 1, [0]);
      }
      TryStepFails(s, 2, 1, 0);
      SearchSkipsFirst(s, 2, 1, [0]);
      TryStepFails(s, 1, 1, 0);
      SearchSkipsFirst(s, 1, 1, [0]);
      assert Candidates(s, 0, 0) == [1];
      TryStepFails(s, 0, 0, 1);
      SearchSkipsFirst(s, 0, 0, [1]);
    }
    InsideWordNoMatch(s, 1);
    assert TokenizeFrom(s, 2) == [];
    assert TokenizeFrom(s, 1) == [Text('o')];
    assert Tokenize(s) == [Text('G'), Text('o')];
    RenderTextOnly(Tokenize(s), 3);
    TokenizeCovers(s);
  }

  /**
   * The engine takes the accidental, and `C##` becomes the chord `C#` followed by the text `#`.
   * Up a semitone gives `D#`, which now reads as one chord, and down again gives `D`: at the
   * level of text, up then down is not the identity.
   */
  lemma DoubleSharpTokens(s: string)
    requires s == "C##"
    ensures Tokenize(s) == [Chord("C#", "", "", ""), Text('#')]
  {
    BareRootMatch(s, 0, 2);
    NoRootNoMatch(s, 2);
    assert TokenizeFrom(s, 3) == [];
    assert TokenizeFrom(s, 2) == [Text('#')];
    assert s[0..2] == "C#";
  }

  lemma SharpTokens(s: string)
    requires s == "D#"
    ensures Tokenize(s) == [Chord("D#", "", "", "")]
  {
    BareRootMatch(s, 0, 2);
    assert TokenizeFrom(s, 2) == [];
    assert s[0..2] == "D#";
  }

  lemma DoubleSharpRendered(ts: seq<Token>)
    requires ts == [Chord("C#", "", "", ""), Text('#')]
    ensures Render(ts, 1) == "D#"
  {
    var c := ts[0].Rendered(1);
    assert c == "D" by {
      var r := ts[0].root;
      assert r == "C#" && Pitch.IsSpelling(r) && Pitch.ReferencePitch(r) == 4;
      Pitch.TransposeLandsOn(r, 1, 5);
    }
    assert Render(ts[1..], 1) == "#" by {
      assert ts[1..][1..] == [];
    }
    assert Render(ts, 1) == c + "#";
  }

  lemma SharpRendered(ts: seq<Token>)
    requires ts == [Chord("D#", "", "", "")]
    ensures Render(ts, -1) == "D"
  {
    assert ts[0].Rendered(-1) == "D" by {
      var r := ts[0].root;
      assert r == "D#" && Pitch.IsSpelling(r) && Pitch.ReferencePitch(r) == 6;
      Pitch.TransposeLandsOn(r, -1, 5);
    }
    assert ts[1..] == [];
  }

  lemma UpThenDownDrifts(s: string)
    requires s == "C##"
    ensures TransposeLine(s, 1) == "D#"
    ensures TransposeLine(TransposeLine(s, 1), -1) == "D"
  {
    DoubleSharpTokens(s);
    DoubleSharpRendered(Tokenize(s));
    var t := TransposeLine(s, 1);
    SharpTokens(t);
    SharpRendered(Tokenize(t));
  }

  /** A line without note letters, such as a line of lyrics, is left alone. */
  lemma LyricsUnchanged(s: string)
    requires s == "Hello"
    ensures TransposeLine(s, 1) == s
  {
    LineWithoutRootsUnchanged(s, 1);
  }

  /** `transposeTab` works line by line: the chord line moves, the lyrics line does not. */
  lemma TransposeTwoLines(text: string)
    requires text == "Am G\nHello"
    ensures TransposeTab(text, 1) == "A#m G#" + "\n" + "Hello"
  {
    var lines := ["Am G", "Hello"];
    assert SplitLines(text) == lines by {
      assert JoinLines(lines) == text;
      SplitJoin(lines);
    }
    var out := TransposeLines(lines, 1);
    assert out == ["A#m G#", "Hello"] by {
      TransposeMinorAndMajor(lines[0]);
      LyricsUnchanged(lines[1]);
    }
    assert JoinLines(out) == "A#m G#" + "\n" + "Hello" by {
      assert out[1..] == ["Hello"];
    }
  }

  /** Digits are given back when the look-ahead fails after them: in `Em7b` only `Em` is a chord. */
  lemma DigitsGivenBack(s: string)
    requires s == "Em7b"
    ensures MatchAt(s, 0) == Some(Shape(1, 1, 0, 0))
  {
    var tail := [1] + ([0] + [0]);
    DigitsGivenBackAfterRoot(s);
    assert Candidates(s, 0, 0) == [1];
    TryStep(s, 0, 0, 1, tail);
    SearchTakesFirst(s, 0, 0, [1], [1] + tail);
    MatchFromSearch(s, 0, [1] + tail);
  }

  lemma DigitsGivenBackAfterRoot(s: string)
    requires s == "Em7b"
    ensures Search(s, 1, 1, Candidates(s, 1, 1)) == Some([1] + ([0] + [0]))
  {
    MinorModifier(s, 1);
    DigitsGivenBackAfterModifier(s);
    TryStep(s, 1, 1, 1, [0] + [0]);
    SearchTakesFirst(s, 1, 1, [1, 0], [1] + ([0] + [0]));
  }

  lemma DigitsGivenBackAfterModifier(s: string)
    requires s == "Em7b"
    ensures Search(s, 2, 2, Candidates(s, 2, 2)) == Some([0] + [0])
  {
    assert DigitRun(s, 2) == 1;
    assert Candidates(s, 2, 2) == [1, 0];
    assert Search(s, 3, 3, Candidates(s, 3, 3)) == None by {
      assert Candidates(s, 3, 3) == [0];
      SearchSkipsFirst(s, 3, 3, [0]);
    }
    TryStepFails(s, 2, 2, 1);
    SearchSkipsFirst(s, 2, 2, [1, 0]);
    assert Candidates(s, 2, 3) == [0];
    assert Search(s, 3, 2, [0]) == Some([0]);
    TryStep(s, 2, 2, 0, [0]);
    SearchTakesFirst(s, 2, 2, [0], [0] + [0]);
    assert [1, 0][1..] == [0];
  }

  /** The first alternative of the root group takes the accidental, but here it must be given back. */
  lemma AccidentalGivenBack(s: string)
    requires s == "C#x"
    ensures MatchAt(s, 0) == Some(Shape(1, 0, 0, 0))
  {
    var tail := [0] + ([0] + [0]);
    AccidentalFirstFails(s);
    assert Search(s, 1, 1, Candidates(s, 1, 1)) == Some(tail) by {
      NothingAfterRoot(s, 1);
    }
    TryStep(s, 0, 0, 1, tail);
    SearchTakesFirst(s, 0, 0, [1], [1] + tail);
    MatchFromSearch(s, 0, [1] + tail);
  }

  lemma AccidentalFirstFails(s: string)
    requires s == "C#x"
    ensures Search(s, 0, 0, Candidates(s, 0, 0)) == Search(s, 0, 0, [1])
  {
    AccidentalKeptFails(s);
    assert Candidates(s, 0, 0) == [2, 1];
    TryStepFails(s, 0, 0, 2);
    SearchSkipsFirst(s, 0, 0, [2, 1]);
    assert [2, 1][1..] == [1];
  }

  lemma AccidentalKeptFails(s: string)
    requires s == "C#x"
    ensures Search(s, 1, 2, Candidates(s, 2, 1)) == None
  {
    NoModifier(s, 2);
    assert Candidates(s, 2, 2) == [0];
    assert Candidates(s, 2, 3) == [0];
    assert Search(s, 3, 2, [0]) == None by {
      SearchSkipsFirst(s, 3, 2, [0]);
    }
    TryStepFails(s, 2, 2, 0);
    SearchSkipsFirst(s, 2, 2, [0]);
    TryStepFails(s, 1, 2, 0);
    SearchSkipsFirst(s, 1, 2, [0]);
  }
}

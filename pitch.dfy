/**
 * Note spellings and pitch classes of the chord transposer
 * (src/components/songDisplay.jsx, `NOTES`, `NOTE_TO_INDEX`, `transposeNote`).
 * Pitch classes count semitones upwards from A = 0.
 */
module Pitch {

  /** `NOTES`: the canonical spelling of each pitch class; sharps, except `Eb` for class 6. */
  const Notes: seq<string> := ["A", "A#", "B", "C", "C#", "D", "Eb", "E", "F", "F#", "G", "G#"]

  /** `NOTE_TO_INDEX`: every spelling the transposer recognises, with its pitch class. */
  const NoteToIndex: map<string, int> := map[
    "A" := 0, "A#" := 1, "Bb" := 1,
    "B" := 2, "Cb" := 2,
    "C" := 3, "B#" := 3,
    "C#" := 4, "Db" := 4,
    "D" := 5,
    "D#" := 6, "Eb" := 6,
    "E" := 7, "Fb" := 7,
    "F" := 8, "E#" := 8,
    "F#" := 9, "Gb" := 9,
    "G" := 10,
    "G#" := 11, "Ab" := 11
  ]

  predicate IsNoteLetter(c: char) { 'A' <= c <= 'G' }

  predicate IsAccidental(c: char) { c == '#' || c == 'b' }

  /** The spellings `[A-G][#b]?` that the chord pattern can capture as a root or a bass. */
  predicate IsSpelling(w: string) {
    || (|w| == 1 && IsNoteLetter(w[0]))
    || (|w| == 2 && IsNoteLetter(w[0]) && IsAccidental(w[1]))
  }

  /** Reference pitch class of a natural note letter, independent of the table. */
  function LetterPitch(c: char): int
    requires IsNoteLetter(c)
  {
    match c
    case 'A' => 0
    case 'B' => 2
    case 'C' => 3
    case 'D' => 5
    case 'E' => 7
    case 'F' => 8
    case 'G' => 10
  }

  /** Reference pitch class of a spelling: the letter's, raised by `#` or lowered by `b`, modulo 12. */
  function ReferencePitch(w: string): int
    requires IsSpelling(w)
  {
    var shift := if |w| == 1 then 0 else if w[1] == '#' then 1 else -1;
    (LetterPitch(w[0]) + shift) % 12
  }

  lemma SpellingOfLength1(w: string)
    requires |w| == 1 && IsNoteLetter(w[0])
    ensures w in NoteToIndex
  {
    assert w == [w[0]];
  }

  lemma SpellingOfLength2(w: string)
    requires |w| == 2 && IsNoteLetter(w[0]) && IsAccidental(w[1])
    ensures w in NoteToIndex
  {
    assert w == [w[0], w[1]];
    if w[1] == '#' {
      assert w[0] == 'A' || w[0] == 'B' || w[0] == 'C' || w[0] == 'D' || w[0] == 'E' || w[0] == 'F' || w[0] == 'G';
    } else {
      assert w[0] == 'A' || w[0] == 'B' || w[0] == 'C' || w[0] == 'D' || w[0] == 'E' || w[0] == 'F' || w[0] == 'G';
    }
  }

  /** The table's keys are exactly the 21 spellings `[A-G][#b]?`: nothing more, nothing less. */
  lemma KeysAreSpellings(w: string)
    ensures w in NoteToIndex <==> IsSpelling(w)
  {
    if IsSpelling(w) {
      if |w| == 1 { SpellingOfLength1(w); } else { SpellingOfLength2(w); }
    }
  }

  /** Every entry of the table is the enharmonically correct pitch class, as the reference computes it. */
  lemma TableIsEnharmonic(w: string)
    requires w in NoteToIndex
    ensures IsSpelling(w) && NoteToIndex[w] == ReferencePitch(w)
    ensures 0 <= NoteToIndex[w] < 12
  {
    KeysAreSpellings(w);
    if |w| == 1 {
      assert w == [w[0]];
    } else {
      assert w == [w[0], w[1]];
    }
  }

  lemma IndexInRange(w: string)
    requires w in NoteToIndex
    ensures 0 <= NoteToIndex[w] < 12
  {
  }

  /** Canonical spellings round-trip: `NOTE_TO_INDEX[NOTES[i]] == i`. */
  lemma CanonicalRoundTrip(i: int)
    requires 0 <= i < 12
    ensures Notes[i] in NoteToIndex && NoteToIndex[Notes[i]] == i
  {
  }

  /** A spelling is canonical when it is one of the twelve `NOTES`. */
  predicate IsCanonical(w: string) { w in Notes }

  /**
   * `transposeNote`: an unrecognised spelling is returned unchanged; a recognised one is shifted
   * by `semitones` modulo 12 and returned in its canonical spelling. Dafny's `%` is Euclidean, so
   * the index is in range for every integer `semitones` (see `TransposeNoteAsWritten` for the
   * JavaScript operator).
   */
  function TransposeNote(note: string, semitones: int): (r: string)
    ensures note !in NoteToIndex ==> r == note
    ensures note in NoteToIndex ==>
      IsCanonical(r) && r in NoteToIndex && NoteToIndex[r] == (NoteToIndex[note] + semitones) % 12
  {
    if note !in NoteToIndex then note
    else
      var newIndex := (NoteToIndex[note] + semitones + 12) % 12;
      CanonicalRoundTrip(newIndex);
      Notes[newIndex]
  }

  /** Transposition is the reference pitch moved by `semitones`, spelt as in `NOTES`. */
  lemma TransposeByReference(w: string, semitones: int)
    requires IsSpelling(w)
    ensures 0 <= (ReferencePitch(w) + semitones) % 12 < 12
    ensures TransposeNote(w, semitones) == Notes[(ReferencePitch(w) + semitones) % 12]
  {
    KeysAreSpellings(w);
    TableIsEnharmonic(w);
    AddOctave(NoteToIndex[w] + semitones);
  }

  /** A spelling whose reference pitch moved by `semitones` is class `i` is transposed to `NOTES[i]`. */
  lemma TransposeLandsOn(w: string, semitones: int, i: int)
    requires IsSpelling(w) && 0 <= i < 12 && (ReferencePitch(w) + semitones) % 12 == i
    ensures TransposeNote(w, semitones) == Notes[i]
  {
    TransposeByReference(w, semitones);
  }

  lemma AddOctave(x: int)
    ensures (x + 12) % 12 == x % 12
  {
  }

  /** Transposing by `a` and then by `b` is transposing by `a + b` (repeated up/down presses accumulate). */
  lemma TransposeNoteComposes(note: string, a: int, b: int)
    requires note in NoteToIndex
    ensures TransposeNote(TransposeNote(note, a), b) == TransposeNote(note, a + b)
  {
    var j, k := ComposedIndices(note, a, b);
  }

  /** The pitch classes reached by transposing by `a` and then by `b`. */
  lemma ComposedIndices(note: string, a: int, b: int) returns (j: int, k: int)
    requires note in NoteToIndex
    ensures 0 <= j < 12 && 0 <= k < 12
    ensures TransposeNote(note, a) == Notes[j] && TransposeNote(Notes[j], b) == Notes[k]
    ensures TransposeNote(note, a + b) == Notes[k]
  {
    var i := NoteToIndex[note];
    j := (i + a + 12) % 12;
    k := (j + b + 12) % 12;
    TransposeAsIndex(note, a, j);
    CanonicalRoundTrip(j);
    TransposeAsIndex(Notes[j], b, k);
    ShiftsAdd(i, a, b);
    TransposeAsIndex(note, a + b, k);
  }

  lemma TransposeAsIndex(note: string, semitones: int, k: int)
    requires note in NoteToIndex && k == (NoteToIndex[note] + semitones + 12) % 12
    ensures TransposeNote(note, semitones) == Notes[k]
  {
  }

  lemma ShiftsAdd(i: int, a: int, b: int)
    ensures ((i + a + 12) % 12 + b + 12) % 12 == (i + a + b + 12) % 12
  {
    ShiftTwice(i + a + 12, b + 12);
    AddOctave(i + a + b + 12);
  }

  /** A canonical spelling is determined by its pitch class. */
  lemma CanonicalByIndex(x: string, y: string)
    requires IsCanonical(x) && IsCanonical(y) && x in NoteToIndex && y in NoteToIndex
    requires NoteToIndex[x] == NoteToIndex[y]
    ensures x == y
  {
    var i :| 0 <= i < 12 && Notes[i] == x;
    var j :| 0 <= j < 12 && Notes[j] == y;
    CanonicalRoundTrip(i);
    CanonicalRoundTrip(j);
  }

  lemma ShiftTwice(x: int, b: int)
    ensures (x % 12 + b) % 12 == (x + b) % 12
  {
    var q := x / 12;
    assert x == 12 * q + x % 12;
    assert x % 12 + b == (x + b) - 12 * q;
  }

  /** Up then down normalises a spelling to its canonical one, e.g. `Bb` comes back as `A#`. */
  lemma UpThenDownNormalises(note: string)
    requires note in NoteToIndex
    ensures 0 <= NoteToIndex[note] < 12
    ensures TransposeNote(TransposeNote(note, 1), -1) == Notes[NoteToIndex[note]]
  {
    TransposeNoteComposes(note, 1, -1);
    IndexInRange(note);
    ShiftByZero(NoteToIndex[note]);
  }

  lemma ShiftByZero(i: int)
    requires 0 <= i < 12
    ensures (i + 0 + 12) % 12 == i
  {
  }

  /** The flat spelling `Bb` comes back from up-then-down as the canonical `A#`. */
  lemma FlatIsNormalised(w: string)
    requires w == "Bb"
    ensures TransposeNote(TransposeNote(w, 1), -1) == "A#"
  {
    assert IsSpelling(w);
    KeysAreSpellings(w);
    TableIsEnharmonic(w);
    UpThenDownNormalises(w);
  }

  /** A canonical spelling is a fixed point of transposition by any multiple of 12. */
  lemma OctaveFixesCanonical(note: string, k: int)
    requires IsCanonical(note)
    ensures TransposeNote(note, 12 * k) == note
  {
    var i :| 0 <= i < 12 && Notes[i] == note;
    CanonicalRoundTrip(i);
    AddOctaves(i, k);
  }

  lemma AddOctaves(i: int, k: int)
    requires 0 <= i < 12
    ensures (i + 12 * k + 12) % 12 == i
  {
    assert i + 12 * k + 12 == i + 12 * (k + 1);
  }

  // ---------------------------------------------------------------------------------------------
  // The index formula as JavaScript evaluates it.

  /** JavaScript's `a % 12`: the remainder truncates towards zero and takes the sign of `a`. */
  function JsRemainder12(a: int): (r: int)
    ensures -12 < r < 12
    ensures a >= 0 ==> r >= 0
    ensures a <= 0 ==> r <= 0
    ensures (a - r) % 12 == 0
  {
    if a >= 0 then
      MultipleOf12(a / 12);
      a % 12
    else
      var m := (-a) % 12;
      MultipleOf12(-((-a) / 12));
      -m
  }

  lemma MultipleOf12(k: int)
    ensures (12 * k) % 12 == 0
  {
  }

  /** A JavaScript string-or-`undefined` value. */
  datatype JsString = Str(s: string) | Undefined

  /**
   * `transposeNote` exactly as written: `(index + semitones + 12) % 12` with the truncating `%`,
   * then `NOTES[newIndex]`, which is `undefined` for a negative index.
   */
  function TransposeNoteAsWritten(note: string, semitones: int): (r: JsString)
    ensures note !in NoteToIndex ==> r == Str(note)
    ensures r.Undefined? ==> note in NoteToIndex && NoteToIndex[note] + semitones + 12 < 0
  {
    if note !in NoteToIndex then Str(note)
    else
      var newIndex := JsRemainder12(NoteToIndex[note] + semitones + 12);
      if 0 <= newIndex < 12 then Str(Notes[newIndex]) else Undefined
  }

  /** For `semitones >= -12` (the callers pass only +1 and -1) the code agrees with `TransposeNote`. */
  lemma AsWrittenAgreesFromMinus12(note: string, semitones: int)
    requires semitones >= -12
    ensures TransposeNoteAsWritten(note, semitones) == Str(TransposeNote(note, semitones))
  {
    if note in NoteToIndex {
      var k := NoteToIndex[note] + semitones + 12;
      assert JsRemainder12(k) == k % 12;
    }
  }

  /** Below that range the code indexes `NOTES` with a negative number: `A` shifted by -13. */
  lemma AsWrittenUndefinedBelowRange(note: string)
    requires note == "A"
    ensures TransposeNoteAsWritten(note, -13) == Undefined
    ensures TransposeNote(note, -13) == "G#"
  {
    CanonicalRoundTrip(0);
    assert Notes[0] == note;
    assert JsRemainder12(-1) == -1;
    assert (-1) % 12 == 11;
  }
}

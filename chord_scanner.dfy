/**
 * `CHORD_REGEX` of src/components/songDisplay.jsx as a left-to-right backtracking matcher:
 *
 *   \b ([A-G][#b]?) (maj|min|dim|aug|add|sus[24]?|m|M)? (\d+)? (\/[A-G][#b]?)? (?![a-zA-Z])
 *
 * The four groups are "levels" 0 to 3. At each level the matcher tries the group's possible
 * lengths in the order JavaScript's engine tries them (greedy: present before absent, longer
 * digit runs before shorter ones, alternatives left to right) and checks the look-ahead once
 * all four levels are chosen. The first choice that succeeds is the match.
 */
module ChordScanner {
  import opened Wrappers
  import Pitch

  predicate IsAsciiLetter(c: char) { 'a' <= c <= 'z' || 'A' <= c <= 'Z' }

  predicate IsDigit(c: char) { '0' <= c <= '9' }

  /** A character of JavaScript's `\w` class. */
  predicate IsWordChar(c: char) { IsAsciiLetter(c) || IsDigit(c) || c == '_' }

  /** `\b` at position `p`: exactly one of the characters on either side is a word character. */
  predicate AtWordBoundary(s: string, p: nat)
    requires p <= |s|
  {
    (p > 0 && IsWordChar(s[p - 1])) != (p < |s| && IsWordChar(s[p]))
  }

  /** `(?![a-zA-Z])` at position `e`. */
  predicate NotBeforeLetter(s: string, e: nat)
    requires e <= |s|
  {
    e == |s| || !IsAsciiLetter(s[e])
  }

  /** The alternatives of the quality group, in the order they are tried (`sus[24]?` gives three). */
  const Modifiers: seq<string> := ["maj", "min", "dim", "aug", "add", "sus2", "sus4", "sus", "m", "M"]

  predicate IsModifierText(w: string) { w == "" || exists k :: 0 <= k < |Modifiers| && w == Modifiers[k] }

  predicate IsDigitsText(w: string) { forall i :: 0 <= i < |w| ==> IsDigit(w[i]) }

  predicate IsBassText(w: string) { w == "" || (|w| >= 2 && w[0] == '/' && Pitch.IsSpelling(w[1..])) }

  /** What group `level` may capture (the empty string standing for an absent optional group). */
  predicate GroupMatches(level: nat, w: string) {
    if level == 0 then Pitch.IsSpelling(w)
    else if level == 1 then IsModifierText(w)
    else if level == 2 then IsDigitsText(w)
    else IsBassText(w)
  }

  /** Group `level` can capture the `len` characters of `s` from `at`. */
  predicate GroupAt(s: string, level: nat, at: nat, len: nat) {
    at + len <= |s| && GroupMatches(level, s[at..at + len])
  }

  /** The lengths of the four groups of one match. */
  datatype Shape = Shape(root: nat, modifier: nat, digits: nat, bass: nat)
  {
    function Length(): nat { root + modifier + digits + bass }
  }

  /**
   * The declarative reading of the pattern: a chord of shape `sh` occurs at position `p` when
   * the four groups capture consecutive slices from a word boundary and no letter follows them.
   */
  predicate IsChordAt(s: string, p: nat, sh: Shape) {
    var q := p + sh.root;
    var r := q + sh.modifier;
    var t := r + sh.digits;
    var e := t + sh.bass;
    && e <= |s|
    && AtWordBoundary(s, p)
    && GroupAt(s, 0, p, sh.root)
    && GroupAt(s, 1, q, sh.modifier)
    && GroupAt(s, 2, r, sh.digits)
    && GroupAt(s, 3, t, sh.bass)
    && NotBeforeLetter(s, e)
  }

  // ---------------------------------------------------------------------------------------------
  // Candidate lengths of each group, in the engine's order

  /** Each length once, longest first: the order a greedy engine tries a group's captures in. */
  predicate LongestFirst(r: seq<nat>) {
    forall i, j :: 0 <= i < j < |r| ==> r[i] > r[j]
  }

  /** `[A-G][#b]?`: with the accidental first, then without. */
  function RootCandidates(s: string, at: nat): (r: seq<nat>)
    requires at <= |s|
    ensures forall o: nat :: o in r <==> GroupAt(s, 0, at, o)
  {
    if at < |s| && Pitch.IsNoteLetter(s[at]) then
      if at + 1 < |s| && Pitch.IsAccidental(s[at + 1]) then [2, 1] else [1]
    else []
  }

  /** The string `w` occurs in `s` at position `at`. */
  predicate HasAt(s: string, at: nat, w: string) { at + |w| <= |s| && s[at..at + |w|] == w }

  /**
   * The alternatives are non-empty, and of two of them present at `at` the one listed first is
   * the longer: left-to-right alternation then tries the present ones longest first.
   */
  predicate PresentLongerFirst(s: string, at: nat, alts: seq<string>) {
    && (forall k :: 0 <= k < |alts| ==> |alts[k]| > 0)
    && (forall k, l :: 0 <= k < l < |alts| && HasAt(s, at, alts[k]) && HasAt(s, at, alts[l]) ==> |alts[k]| > |alts[l]|)
  }

  /** The lengths of the alternatives `alts` present at `at`, in order, and finally 0 for "absent". */
  function AlternativesFrom(s: string, at: nat, alts: seq<string>): (r: seq<nat>)
    requires at <= |s|
    ensures 0 in r
    ensures forall o: nat :: o in r ==>
      at + o <= |s| && (o == 0 || exists k :: 0 <= k < |alts| && |alts[k]| == o && HasAt(s, at, alts[k]))
    ensures forall k :: 0 <= k < |alts| && HasAt(s, at, alts[k]) ==> |alts[k]| in r
  {
    if alts == [] then [0]
    else
      var w := alts[0];
      var rest := AlternativesFrom(s, at, alts[1..]);
      assert forall k :: 1 <= k < |alts| ==> alts[k] == alts[1..][k - 1];
      (if HasAt(s, at, w) then [|w|] else []) + rest
  }

  /** When the alternatives present are listed longer first, so are their lengths. */
  lemma {:induction false} AlternativesLongestFirst(s: string, at: nat, alts: seq<string>)
    requires at <= |s| && PresentLongerFirst(s, at, alts)
    ensures LongestFirst(AlternativesFrom(s, at, alts))
  {
    if alts != [] {
      var w := alts[0];
      assert forall k :: 1 <= k < |alts| ==> alts[k] == alts[1..][k - 1];
      assert PresentLongerFirst(s, at, alts[1..]);
      AlternativesLongestFirst(s, at, alts[1..]);
      var rest := AlternativesFrom(s, at, alts[1..]);
      if HasAt(s, at, w) {
        forall j | 0 <= j < |rest| ensures rest[j] < |w| {
          assert rest[j] in rest;
          if rest[j] != 0 {
            var k :| 0 <= k < |alts[1..]| && |alts[1..][k]| == rest[j] && HasAt(s, at, alts[1..][k]);
            assert alts[1..][k] == alts[k + 1];
          }
        }
        ConsLongestFirst(|w|, rest);
      }
    }
  }

  lemma ConsLongestFirst(x: nat, rest: seq<nat>)
    requires LongestFirst(rest) && forall j :: 0 <= j < |rest| ==> rest[j] < x
    ensures LongestFirst([x] + rest)
  {
    assert forall j :: 1 <= j < |[x] + rest| ==> ([x] + rest)[j] == rest[j - 1];
  }

  /** `(maj|min|dim|aug|add|sus[24]?|m|M)?`: each alternative that is present, left to right, then none. */
  function ModifierCandidates(s: string, at: nat): (r: seq<nat>)
    requires at <= |s|
    ensures forall o: nat :: o in r <==> GroupAt(s, 1, at, o)
  {
    var r := AlternativesFrom(s, at, Modifiers);
    forall o: nat | GroupAt(s, 1, at, o) ensures o in r {
      if o != 0 {
        var k :| 0 <= k < |Modifiers| && s[at..at + o] == Modifiers[k];
        assert HasAt(s, at, Modifiers[k]);
      }
    }
    r
  }

  /**
   * `maj` and `min` come before `m`, `sus2` and `sus4` before `sus`: no alternative is a prefix
   * of a later one, so two alternatives present at once are tried longer first.
   */
  lemma ModifiersPresentLongerFirst(s: string, at: nat)
    ensures PresentLongerFirst(s, at, Modifiers)
  {
    ModifiersNoEarlierPrefix();
    forall k, l | 0 <= k < l < |Modifiers| && HasAt(s, at, Modifiers[k]) && HasAt(s, at, Modifiers[l])
      ensures |Modifiers[k]| > |Modifiers[l]|
    {
      PresentTogether(s, at, Modifiers[k], Modifiers[l]);
    }
  }

  lemma ModifiersNoEarlierPrefix()
    ensures forall k, l :: 0 <= k < l < |Modifiers| && |Modifiers[k]| <= |Modifiers[l]| ==>
      Modifiers[l][..|Modifiers[k]|] != Modifiers[k]
  {
    forall k, l | 0 <= k < l < |Modifiers| && |Modifiers[k]| <= |Modifiers[l]|
      ensures Modifiers[l][..|Modifiers[k]|] != Modifiers[k]
    {
      var v, w := Modifiers[k], Modifiers[l];
      if k == 8 {
        assert w == "M";
        assert w[..1][0] != v[0];
      } else if k < 5 {
        assert l < 8;
        assert w[..3][0] != v[0] || w[..3][1] != v[1] || w[..3][2] != v[2];
      } else {
        assert k == 5 && l == 6;
        assert w[..4][3] != v[3];
      }
    }
  }

  /** Two words present at the same position: the shorter is a prefix of the longer. */
  lemma PresentTogether(s: string, at: nat, v: string, w: string)
    ensures HasAt(s, at, v) && HasAt(s, at, w) && |v| <= |w| ==> w[..|v|] == v
  {
    if HasAt(s, at, v) && HasAt(s, at, w) && |v| <= |w| {
      assert s[at..at + |w|][..|v|] == s[at..at + |v|];
    }
  }

  /** The length of the longest run of digits starting at `at`. */
  function DigitRun(s: string, at: nat): (n: nat)
    requires at <= |s|
    ensures at + n <= |s|
    ensures forall i :: at <= i < at + n ==> IsDigit(s[i])
    ensures at + n == |s| || !IsDigit(s[at + n])
    decreases |s| - at
  {
    if at < |s| && IsDigit(s[at]) then 1 + DigitRun(s, at + 1) else 0
  }

  /** `n, n - 1, ..., 0`. */
  function Countdown(n: nat): (r: seq<nat>)
    ensures forall o: nat :: o in r <==> o <= n
  {
    if n == 0 then [0]
    else
      var rest := Countdown(n - 1);
      assert forall o: nat :: o in [n] + rest <==> o == n || o in rest;
      [n] + rest
  }

  lemma {:induction false} CountdownLongestFirst(n: nat)
    ensures LongestFirst(Countdown(n))
  {
    if n > 0 {
      var rest := Countdown(n - 1);
      CountdownLongestFirst(n - 1);
      assert forall j :: 0 <= j < |rest| ==> rest[j] in rest;
      ConsLongestFirst(n, rest);
    }
  }

  /** `(\d+)?`: greedy, so the longest run first, giving back one digit at a time, then none. */
  function DigitCandidates(s: string, at: nat): (r: seq<nat>)
    requires at <= |s|
    ensures forall o: nat :: o in r <==> GroupAt(s, 2, at, o)
  {
    var n := DigitRun(s, at);
    forall o: nat | n < o ensures !GroupAt(s, 2, at, o) {
      if at + o <= |s| {
        assert s[at..at + o][n] == s[at + n];
      }
    }
    forall o: nat | o <= n ensures GroupAt(s, 2, at, o) {
      var w := s[at..at + o];
      forall i | 0 <= i < |w| ensures IsDigit(w[i]) {
        assert w[i] == s[at + i];
      }
    }
    Countdown(n)
  }

  /** `(\/[A-G][#b]?)?`: with the accidental, without it, then no bass at all. */
  function BassCandidates(s: string, at: nat): (r: seq<nat>)
    requires at <= |s|
    ensures forall o: nat :: o in r <==> GroupAt(s, 3, at, o)
  {
    if at + 1 < |s| && s[at] == '/' && Pitch.IsNoteLetter(s[at + 1]) then
      if at + 2 < |s| && Pitch.IsAccidental(s[at + 2]) then [3, 2, 0] else [2, 0]
    else [0]
  }

  /** The candidate lengths of group `level` at `at`: exactly the lengths the group can match. */
  function Candidates(s: string, at: nat, level: nat): (r: seq<nat>)
    requires at <= |s| && level < 4
    ensures forall o: nat :: o in r <==> GroupAt(s, level, at, o)
  {
    if level == 0 then RootCandidates(s, at)
    else if level == 1 then ModifierCandidates(s, at)
    else if level == 2 then DigitCandidates(s, at)
    else BassCandidates(s, at)
  }

  /**
   * The quality's alternatives are tried longest first: `maj` and `min` before `m`, `sus2` and
   * `sus4` before `sus`, and absence last.
   */
  lemma ModifierCandidatesLongestFirst(s: string, at: nat)
    requires at <= |s|
    ensures LongestFirst(ModifierCandidates(s, at))
  {
    ModifiersPresentLongerFirst(s, at);
    AlternativesLongestFirst(s, at, Modifiers);
  }

  /** Every group's captures are tried longest first, so a longer capture is always tried earlier. */
  lemma CandidatesLongestFirst(s: string, at: nat, level: nat)
    requires at <= |s| && level < 4
    ensures LongestFirst(Candidates(s, at, level))
  {
    if level == 1 {
      ModifierCandidatesLongestFirst(s, at);
    } else if level == 2 {
      CountdownLongestFirst(DigitRun(s, at));
    }
  }

  // ---------------------------------------------------------------------------------------------
  // Backtracking search

  /** `path` lists the lengths of groups `level..3` from `at` and the look-ahead holds after them. */
  predicate Completes(s: string, level: nat, at: nat, path: seq<nat>)
    requires level <= 4 && at <= |s|
    decreases 4 - level
  {
    if level == 4 then path == [] && NotBeforeLetter(s, at)
    else
      && |path| > 0
      && GroupAt(s, level, at, path[0])
      && Completes(s, level + 1, at + path[0], path[1..])
  }

  /**
   * Depth-first search over the candidates `opts` of group `level`, each followed by the search
   * of the remaining groups: the first completion found, or none when no candidate completes.
   */
  function Search(s: string, level: nat, at: nat, opts: seq<nat>): Option<seq<nat>>
    requires level < 4 && at <= |s|
    requires forall o: nat :: o in opts ==> GroupAt(s, level, at, o)
    decreases 4 - level, |opts|
  {
    if opts == [] then None
    else
      assert opts[0] in opts;
      assert forall o: nat :: o in opts[1..] ==> o in opts;
      var first := TryCandidate(s, level, at, opts[0]);
      if first.Some? then first else Search(s, level, at, opts[1..])
  }

  /** Group `level` takes `o` characters; then the later groups are searched, or the look-ahead is checked. */
  function TryCandidate(s: string, level: nat, at: nat, o: nat): Option<seq<nat>>
    requires level < 4 && GroupAt(s, level, at, o)
    decreases 4 - level, 0
  {
    if level == 3 then
      if NotBeforeLetter(s, at + o) then Some([o]) else None
    else
      match Search(s, level + 1, at + o, Candidates(s, at + o, level + 1))
      case Some(rest) => Some([o] + rest)
      case None => None
  }

  lemma CompletesStep(s: string, level: nat, at: nat, path: seq<nat>)
    requires level < 4 && at <= |s|
    requires Completes(s, level, at, path)
    ensures |path| > 0 && GroupAt(s, level, at, path[0]) && Completes(s, level + 1, at + path[0], path[1..])
  {
  }

  /** What the search returns is a completion that starts with one of the candidates. */
  lemma {:induction false} SearchSound(s: string, level: nat, at: nat, opts: seq<nat>)
    requires level < 4 && at <= |s|
    requires forall o: nat :: o in opts ==> GroupAt(s, level, at, o)
    ensures var r := Search(s, level, at, opts);
      r.Some? ==> |r.value| > 0 && r.value[0] in opts && Completes(s, level, at, r.value)
    decreases 4 - level, |opts|
  {
    if opts != [] {
      var o := opts[0];
      assert o in opts && GroupAt(s, level, at, o);
      assert forall o': nat :: o' in opts[1..] ==> o' in opts;
      var first := TryCandidate(s, level, at, o);
      if first.Some? {
        TryCandidateSound(s, level, at, o);
      } else {
        SearchSound(s, level, at, opts[1..]);
      }
    }
  }

  lemma {:induction false} TryCandidateSound(s: string, level: nat, at: nat, o: nat)
    requires level < 4 && GroupAt(s, level, at, o)
    ensures var r := TryCandidate(s, level, at, o);
      r.Some? ==> |r.value| > 0 && r.value[0] == o && Completes(s, level, at, r.value)
    decreases 4 - level, 0
  {
    if level == 3 {
      if NotBeforeLetter(s, at + o) {
        assert [o][1..] == [];
        assert Completes(s, 4, at + o, []);
        CompletesCons(s, 3, at, [o]);
      }
    } else {
      var cands := Candidates(s, at + o, level + 1);
      SearchSound(s, level + 1, at + o, cands);
      var inner := Search(s, level + 1, at + o, cands);
      if inner.Some? {
        var path := [o] + inner.value;
        assert path[0] == o && path[1..] == inner.value;
        CompletesCons(s, level, at, path);
      }
    }
  }

  /** The search finds a match whenever some candidate of `opts` can be completed. */
  lemma {:induction false} SearchComplete(s: string, level: nat, at: nat, opts: seq<nat>, path: seq<nat>)
    requires level < 4 && at <= |s|
    requires forall o: nat :: o in opts ==> GroupAt(s, level, at, o)
    requires |path| > 0 && path[0] in opts && Completes(s, level, at, path)
    ensures Search(s, level, at, opts).Some?
    decreases 4 - level, |opts|
  {
    var o := opts[0];
    assert o in opts && GroupAt(s, level, at, o);
    assert forall o': nat :: o' in opts[1..] ==> o' in opts;
    if path[0] != o {
      assert path[0] in opts[1..];
      SearchComplete(s, level, at, opts[1..], path);
    } else {
      TryCandidateComplete(s, level, at, path);
    }
  }

  lemma {:induction false} TryCandidateComplete(s: string, level: nat, at: nat, path: seq<nat>)
    requires level < 4 && at <= |s|
    requires Completes(s, level, at, path)
    ensures |path| > 0 && GroupAt(s, level, at, path[0])
    ensures TryCandidate(s, level, at, path[0]).Some?
    decreases 4 - level, 0
  {
    CompletesStep(s, level, at, path);
    var o := path[0];
    if level < 3 {
      var cands := Candidates(s, at + o, level + 1);
      var rest := path[1..];
      CompletesStep(s, level + 1, at + o, rest);
      assert rest[0] in cands;
      SearchComplete(s, level + 1, at + o, cands, rest);
    }
  }

  /** `a` comes before `b` in lexicographic order. */
  predicate LexLess(a: seq<nat>, b: seq<nat>)
    decreases |a|
  {
    |a| > 0 && |b| > 0 && (a[0] < b[0] || (a[0] == b[0] && LexLess(a[1..], b[1..])))
  }

  /**
   * Over candidates listed longest first, the search returns the lexicographically greatest
   * completion: any other completion is lexicographically smaller than the one it returns.
   */
  lemma {:induction false} SearchPrefersLongest(s: string, level: nat, at: nat, opts: seq<nat>, path: seq<nat>)
    requires level < 4 && at <= |s|
    requires forall o: nat :: o in opts ==> GroupAt(s, level, at, o)
    requires LongestFirst(opts)
    requires |path| > 0 && path[0] in opts && Completes(s, level, at, path)
    ensures Search(s, level, at, opts).Some?
    ensures var m := Search(s, level, at, opts).value; path == m || LexLess(path, m)
    decreases 4 - level, |opts|
  {
    SearchComplete(s, level, at, opts, path);
    var o := opts[0];
    assert o in opts && GroupAt(s, level, at, o);
    assert forall o': nat :: o' in opts[1..] ==> o' in opts;
    if path[0] == o {
      TryCandidatePrefersLongest(s, level, at, path);
    } else {
      var i :| 0 <= i < |opts[1..]| && opts[1..][i] == path[0];
      assert opts[i + 1] == path[0] && path[0] < o;
      var first := TryCandidate(s, level, at, o);
      if first.Some? {
        TryCandidateSound(s, level, at, o);
      } else {
        SearchPrefersLongest(s, level, at, opts[1..], path);
      }
    }
  }

  lemma {:induction false} TryCandidatePrefersLongest(s: string, level: nat, at: nat, path: seq<nat>)
    requires level < 4 && at <= |s|
    requires Completes(s, level, at, path)
    ensures |path| > 0 && GroupAt(s, level, at, path[0])
    ensures TryCandidate(s, level, at, path[0]).Some?
    ensures var m := TryCandidate(s, level, at, path[0]).value; path == m || LexLess(path, m)
    decreases 4 - level, 0
  {
    TryCandidateComplete(s, level, at, path);
    CompletesStep(s, level, at, path);
    var o := path[0];
    var rest := path[1..];
    assert path == [o] + rest;
    if level == 3 {
      assert rest == [];
    } else {
      var cands := Candidates(s, at + o, level + 1);
      CandidatesLongestFirst(s, at + o, level + 1);
      CompletesStep(s, level + 1, at + o, rest);
      assert rest[0] in cands;
      SearchPrefersLongest(s, level + 1, at + o, cands, rest);
      var inner := Search(s, level + 1, at + o, cands).value;
      assert ([o] + inner)[1..] == inner;
    }
  }

  /** A completion from level 0 is four group captures in a row followed by the look-ahead. */
  lemma CompletesIsChord(s: string, p: nat, path: seq<nat>)
    requires p <= |s|
    requires Completes(s, 0, p, path)
    ensures |path| == 4
    ensures GroupAt(s, 0, p, path[0]) && GroupAt(s, 1, p + path[0], path[1])
    ensures GroupAt(s, 2, p + path[0] + path[1], path[2]) && GroupAt(s, 3, p + path[0] + path[1] + path[2], path[3])
    ensures NotBeforeLetter(s, p + path[0] + path[1] + path[2] + path[3])
  {
    CompletesStep(s, 0, p, path);
    var rest := path[1..];
    CompletesTail3(s, p + path[0], rest);
    assert path[1] == rest[0] && path[2] == rest[1] && path[3] == rest[2];
  }

  /** Four consecutive captures at a word boundary, with no letter after them, are a chord. */
  lemma GroupsMakeChord(s: string, p: nat, path: seq<nat>)
    requires p <= |s| && AtWordBoundary(s, p) && |path| == 4
    requires GroupAt(s, 0, p, path[0]) && GroupAt(s, 1, p + path[0], path[1])
    requires GroupAt(s, 2, p + path[0] + path[1], path[2]) && GroupAt(s, 3, p + path[0] + path[1] + path[2], path[3])
    requires NotBeforeLetter(s, p + path[0] + path[1] + path[2] + path[3])
    ensures IsChordAt(s, p, Shape(path[0], path[1], path[2], path[3]))
  {
  }

  /** From level 1, a completion is three captures in a row followed by the look-ahead. */
  lemma CompletesTail3(s: string, q: nat, rest: seq<nat>)
    requires q <= |s|
    ensures Completes(s, 1, q, rest) <==>
      && |rest| == 3 && GroupAt(s, 1, q, rest[0])
      && GroupAt(s, 2, q + rest[0], rest[1]) && GroupAt(s, 3, q + rest[0] + rest[1], rest[2])
      && NotBeforeLetter(s, q + rest[0] + rest[1] + rest[2])
  {
    if |rest| > 0 && GroupAt(s, 1, q, rest[0]) {
      CompletesTail2(s, q + rest[0], rest[1..]);
    }
  }

  lemma CompletesTail2(s: string, r: nat, rest: seq<nat>)
    requires r <= |s|
    ensures Completes(s, 2, r, rest) <==>
      && |rest| == 2 && GroupAt(s, 2, r, rest[0]) && GroupAt(s, 3, r + rest[0], rest[1])
      && NotBeforeLetter(s, r + rest[0] + rest[1])
  {
    if |rest| > 0 && GroupAt(s, 2, r, rest[0]) {
      CompletesTail1(s, r + rest[0], rest[1..]);
    }
  }

  lemma CompletesTail1(s: string, t: nat, rest: seq<nat>)
    requires t <= |s|
    ensures Completes(s, 3, t, rest) <==> |rest| == 1 && GroupAt(s, 3, t, rest[0]) && NotBeforeLetter(s, t + rest[0])
  {
    if |rest| > 0 && GroupAt(s, 3, t, rest[0]) {
      assert |rest| == 1 <==> rest[1..] == [];
    }
  }

  lemma ChordCompletes(s: string, p: nat, sh: Shape)
    requires p <= |s|
    requires IsChordAt(s, p, sh)
    ensures Completes(s, 0, p, [sh.root, sh.modifier, sh.digits, sh.bass])
  {
    GroupsComplete(s, p, [sh.root, sh.modifier, sh.digits, sh.bass]);
  }

  /** Four consecutive captures with no letter after them complete the search from level 0. */
  lemma GroupsComplete(s: string, p: nat, path: seq<nat>)
    requires p <= |s| && |path| == 4
    requires GroupAt(s, 0, p, path[0]) && GroupAt(s, 1, p + path[0], path[1])
    requires GroupAt(s, 2, p + path[0] + path[1], path[2]) && GroupAt(s, 3, p + path[0] + path[1] + path[2], path[3])
    requires NotBeforeLetter(s, p + path[0] + path[1] + path[2] + path[3])
    ensures Completes(s, 0, p, path)
  {
    var rest := path[1..];
    assert path[1] == rest[0] && path[2] == rest[1] && path[3] == rest[2];
    CompletesTail3(s, p + path[0], rest);
  }

  /** A capture of group `level` followed by a completion of the later groups is a completion. */
  lemma CompletesCons(s: string, level: nat, at: nat, path: seq<nat>)
    requires level < 4 && |path| > 0 && GroupAt(s, level, at, path[0])
    requires Completes(s, level + 1, at + path[0], path[1..])
    ensures Completes(s, level, at, path)
  {
  }

  /**
   * `CHORD_REGEX` tried at position `p`: the match it finds, if any. A match found is a chord
   * of the pattern, and no match is found only when no chord of the pattern starts at `p`.
   */
  function MatchAt(s: string, p: nat): (r: Option<Shape>)
    requires p < |s|
    ensures r.Some? ==> IsChordAt(s, p, r.value) && r.value.Length() > 0
    ensures r.None? ==> forall sh :: !IsChordAt(s, p, sh)
  {
    if !AtWordBoundary(s, p) then None
    else
      match Search(s, 0, p, Candidates(s, p, 0))
      case Some(path) =>
        FoundIsChord(s, p, path);
        Some(Shape(path[0], path[1], path[2], path[3]))
      case None =>
        NotFoundNoChord(s, p);
        None
  }

  /** What the search finds from a word boundary is a chord of the pattern. */
  lemma FoundIsChord(s: string, p: nat, path: seq<nat>)
    requires p < |s| && AtWordBoundary(s, p)
    requires Search(s, 0, p, Candidates(s, p, 0)) == Some(path)
    ensures |path| == 4 && path[0] > 0
    ensures IsChordAt(s, p, Shape(path[0], path[1], path[2], path[3]))
  {
    SearchSound(s, 0, p, Candidates(s, p, 0));
    CompletesIsChord(s, p, path);
    GroupsMakeChord(s, p, path);
  }

  /**
   * The engine tries shape `a` before shape `b`: a longer root first, then a longer quality,
   * then more digits, then a longer bass.
   */
  predicate TriedBefore(a: Shape, b: Shape) {
    || a.root > b.root
    || (a.root == b.root && a.modifier > b.modifier)
    || (a.root == b.root && a.modifier == b.modifier && a.digits > b.digits)
    || (a.root == b.root && a.modifier == b.modifier && a.digits == b.digits && a.bass > b.bass)
  }

  /**
   * Where several shapes of the pattern fit at `p`, the match is the one the engine tries
   * first: every other chord at `p` comes after it in the engine's order.
   */
  lemma MatchIsFirstTried(s: string, p: nat, sh: Shape)
    requires p < |s| && IsChordAt(s, p, sh)
    ensures MatchAt(s, p).Some?
    ensures MatchAt(s, p).value == sh || TriedBefore(MatchAt(s, p).value, sh)
  {
    var cands := Candidates(s, p, 0);
    ChordCompletes(s, p, sh);
    var path := [sh.root, sh.modifier, sh.digits, sh.bass];
    assert path[0] in cands;
    CandidatesLongestFirst(s, p, 0);
    SearchPrefersLongest(s, 0, p, cands, path);
    var found := Search(s, 0, p, cands).value;
    FoundIsChord(s, p, found);
    assert MatchAt(s, p) == Some(Shape(found[0], found[1], found[2], found[3]));
    LexLessOfFour(path, found);
  }

  lemma LexLessOfFour(a: seq<nat>, b: seq<nat>)
    requires |a| == 4 && |b| == 4 && (a == b || LexLess(a, b))
    ensures Shape(b[0], b[1], b[2], b[3]) == Shape(a[0], a[1], a[2], a[3])
      || TriedBefore(Shape(b[0], b[1], b[2], b[3]), Shape(a[0], a[1], a[2], a[3]))
  {
    if a != b && a[0] == b[0] {
      var a1, b1 := a[1..], b[1..];
      assert LexLess(a1, b1);
      if a1[0] == b1[0] {
        var a2, b2 := a1[1..], b1[1..];
        assert LexLess(a2, b2);
        if a2[0] == b2[0] {
          assert LexLess(a2[1..], b2[1..]);
          assert a2[1..] == [a[3]] && b2[1..] == [b[3]];
        }
      }
    }
  }

  /** When the search finds nothing, no chord of the pattern starts at `p`. */
  lemma NotFoundNoChord(s: string, p: nat)
    requires p < |s|
    requires Search(s, 0, p, Candidates(s, p, 0)) == None
    ensures forall sh :: !IsChordAt(s, p, sh)
  {
    forall sh ensures !IsChordAt(s, p, sh) {
      if IsChordAt(s, p, sh) {
        ChordCompletes(s, p, sh);
        var path := [sh.root, sh.modifier, sh.digits, sh.bass];
        assert path[0] in Candidates(s, p, 0);
        SearchComplete(s, 0, p, Candidates(s, p, 0), path);
      }
    }
  }
}

module ChordScannerFacts {
  import opened Wrappers
  import Pitch
  import opened ChordScanner

  /** One differing (or missing) character rules an alternative out. */
  lemma MismatchAt(s: string, at: nat, w: string, i: nat)
    requires i < |w| && (at + i < |s| ==> s[at + i] != w[i])
    ensures !HasAt(s, at, w)
  {
    if at + |w| <= |s| {
      assert s[at..at + |w|][i] == s[at + i];
    }
  }

  /** With none of the alternatives present, the group is absent. */
  lemma {:induction false} NoAlternative(s: string, at: nat, alts: seq<string>)
    requires at <= |s|
    requires forall k :: 0 <= k < |alts| ==> !HasAt(s, at, alts[k])
    ensures AlternativesFrom(s, at, alts) == [0]
  {
    if alts != [] {
      assert forall k :: 0 <= k < |alts[1..]| ==> alts[1..][k] == alts[k + 1];
      NoAlternative(s, at, alts[1..]);
    }
  }

  /** With exactly one alternative present, it is tried, then the group's absence. */
  lemma {:induction false} OneAlternative(s: string, at: nat, alts: seq<string>, j: nat)
    requires at <= |s| && j < |alts|
    requires HasAt(s, at, alts[j])
    requires forall k :: 0 <= k < |alts| && k != j ==> !HasAt(s, at, alts[k])
    ensures AlternativesFrom(s, at, alts) == [|alts[j]|, 0]
  {
    assert forall k :: 0 <= k < |alts[1..]| ==> alts[1..][k] == alts[k + 1];
    if j == 0 {
      NoAlternative(s, at, alts[1..]);
    } else {
      OneAlternative(s, at, alts[1..], j - 1);
    }
  }

  /** A quality starts with one of `m`, `d`, `a`, `s`, `M`: any other character means no quality. */
  lemma NoModifier(s: string, at: nat)
    requires at <= |s|
    requires at < |s| ==> s[at] !in "mdasM"
    ensures ModifierCandidates(s, at) == [0]
  {
    forall k | 0 <= k < |Modifiers| ensures !HasAt(s, at, Modifiers[k]) {
      MismatchAt(s, at, Modifiers[k], 0);
    }
    NoAlternative(s, at, Modifiers);
  }

  /** `m` not followed by `a` or `i`: the minor alternative, after `maj` and `min` fail. */
  lemma MinorModifier(s: string, at: nat)
    requires at < |s| && s[at] == 'm'
    requires at + 1 < |s| ==> s[at + 1] !in "ai"
    ensures ModifierCandidates(s, at) == [1, 0]
  {
    assert HasAt(s, at, Modifiers[8]) by {
      assert s[at..at + 1] == [s[at]];
    }
    forall k | 0 <= k < |Modifiers| && k != 8 ensures !HasAt(s, at, Modifiers[k]) {
      MismatchAt(s, at, Modifiers[k], if k <= 1 then 1 else 0);
    }
    OneAlternative(s, at, Modifiers, 8);
  }

  /** A candidate followed by a completion of the later groups is a completion. */
  lemma TryStep(s: string, level: nat, at: nat, o: nat, rest: seq<nat>)
    requires level < 3 && GroupAt(s, level, at, o)
    requires Search(s, level + 1, at + o, Candidates(s, at + o, level + 1)) == Some(rest)
    ensures TryCandidate(s, level, at, o) == Some([o] + rest)
  {
  }

  /** The first candidate that completes is the one taken. */
  lemma SearchTakesFirst(s: string, level: nat, at: nat, opts: seq<nat>, r: seq<nat>)
    requires level < 4 && at <= |s| && opts != []
    requires forall o: nat :: o in opts ==> GroupAt(s, level, at, o)
    requires GroupAt(s, level, at, opts[0]) && TryCandidate(s, level, at, opts[0]) == Some(r)
    ensures Search(s, level, at, opts) == Some(r)
  {
  }

  /** A candidate whose later groups cannot be completed fails. */
  lemma TryStepFails(s: string, level: nat, at: nat, o: nat)
    requires level < 3 && GroupAt(s, level, at, o)
    requires Search(s, level + 1, at + o, Candidates(s, at + o, level + 1)) == None
    ensures TryCandidate(s, level, at, o) == None
  {
  }

  /** When the first candidate fails, the engine backtracks to the next one. */
  lemma SearchSkipsFirst(s: string, level: nat, at: nat, opts: seq<nat>)
    requires level < 4 && at <= |s| && opts != []
    requires forall o: nat :: o in opts ==> GroupAt(s, level, at, o)
    requires GroupAt(s, level, at, opts[0]) && TryCandidate(s, level, at, opts[0]) == None
    ensures Search(s, level, at, opts) == Search(s, level, at, opts[1..])
  {
  }

  /** At a word boundary the match is what the search finds. */
  lemma MatchFromSearch(s: string, p: nat, path: seq<nat>)
    requires p < |s| && AtWordBoundary(s, p)
    requires Search(s, 0, p, Candidates(s, p, 0)) == Some(path) && |path| == 4
    ensures MatchAt(s, p) == Some(Shape(path[0], path[1], path[2], path[3]))
  {
  }

  /** After the root: no quality, no digits, no bass, and the look-ahead holds. */
  lemma NothingAfterRoot(s: string, q: nat)
    requires q <= |s|
    requires q == |s| || (!IsAsciiLetter(s[q]) && !IsDigit(s[q]) && s[q] != '/')
    ensures Search(s, 1, q, Candidates(s, q, 1)) == Some([0] + ([0] + [0]))
  {
    NoModifier(s, q);
    assert Candidates(s, q, 2) == [0];
    assert Candidates(s, q, 3) == [0];
    assert Search(s, 3, q, [0]) == Some([0]);
    TryStep(s, 2, q, 0, [0]);
    SearchTakesFirst(s, 2, q, [0], [0] + [0]);
    TryStep(s, 1, q, 0, [0] + [0]);
    SearchTakesFirst(s, 1, q, [0], [0] + ([0] + [0]));
  }

  /**
   * A root (with its accidental, when one follows) that stands before neither a letter, a
   * digit nor a slash is a chord on its own.
   */
  lemma BareRootMatch(s: string, p: nat, r: nat)
    requires p < |s| && AtWordBoundary(s, p) && Pitch.IsNoteLetter(s[p])
    requires r == if p + 1 < |s| && Pitch.IsAccidental(s[p + 1]) then 2 else 1
    requires p + r == |s| || (!IsAsciiLetter(s[p + r]) && !IsDigit(s[p + r]) && s[p + r] != '/')
    ensures MatchAt(s, p) == Some(Shape(r, 0, 0, 0))
  {
    var roots := Candidates(s, p, 0);
    assert roots[0] == r;
    NothingAfterRoot(s, p + r);
    TryStep(s, 0, p, r, [0] + ([0] + [0]));
    SearchTakesFirst(s, 0, p, roots, [r] + ([0] + ([0] + [0])));
    MatchFromSearch(s, p, [r] + ([0] + ([0] + [0])));
  }

  /** Where no note letter stands, no chord begins. */
  lemma NoRootNoMatch(s: string, p: nat)
    requires p < |s| && !Pitch.IsNoteLetter(s[p])
    ensures MatchAt(s, p) == None
  {
    assert Candidates(s, p, 0) == [];
  }

  /** Inside a word (a word character on both sides) no chord begins. */
  lemma InsideWordNoMatch(s: string, p: nat)
    requires 0 < p < |s| && IsWordChar(s[p - 1]) == IsWordChar(s[p])
    ensures MatchAt(s, p) == None
  {
  }
}

/**
 * `App` of src/App.jsx: the session restored from the `user_data` cookie, the menu toggle and
 * the page and search string it hands down. `getCookie` is modelled on `String.prototype.split`
 * with a string separator.
 */
module AppModel {
  import opened Wrappers
  import SongList

  /** `sep` occurs in `s` at position `i`. */
  predicate OccursAt(s: string, i: nat, sep: string) {
    i + |sep| <= |s| && s[i..i + |sep|] == sep
  }

  /** The first position at or after `from` where `sep` occurs. */
  function FirstOccurrenceFrom(s: string, sep: string, from: nat): (r: Option<nat>)
    requires |sep| > 0 && from <= |s|
    ensures r.Some? ==> from <= r.value <= |s| && OccursAt(s, r.value, sep)
    decreases |s| - from
  {
    if from + |sep| > |s| then None
    else if s[from..from + |sep|] == sep then Some(from)
    else FirstOccurrenceFrom(s, sep, from + 1)
  }

  /** The occurrence found is the first one, and when none is found there is none. */
  lemma {:induction false} FirstOccurrenceIsFirst(s: string, sep: string, from: nat)
    requires |sep| > 0 && from <= |s|
    ensures var r := FirstOccurrenceFrom(s, sep, from);
      && (r.Some? ==> forall j: nat :: from <= j < r.value ==> !OccursAt(s, j, sep))
      && (r.None? ==> forall j: nat :: from <= j ==> !OccursAt(s, j, sep))
    decreases |s| - from
  {
    if from + |sep| <= |s| && s[from..from + |sep|] != sep {
      FirstOccurrenceIsFirst(s, sep, from + 1);
    }
  }

  /** `s.split(sep)`: the pieces between the occurrences of `sep`, found left to right. */
  function SplitOn(s: string, sep: string): (parts: seq<string>)
    requires |sep| > 0
    ensures |parts| >= 1
    decreases |s|
  {
    match FirstOccurrenceFrom(s, sep, 0)
    case None => [s]
    case Some(i) => [s[..i]] + SplitOn(s[i + |sep|..], sep)
  }

  /** `parts.join(sep)`. */
  function JoinOn(parts: seq<string>, sep: string): string
    requires |parts| >= 1
  {
    if |parts| == 1 then parts[0] else parts[0] + sep + JoinOn(parts[1..], sep)
  }

  /** Splitting loses nothing: joining the pieces with the separator gives the string back. */
  lemma {:induction false} JoinSplitOn(s: string, sep: string)
    requires |sep| > 0
    ensures JoinOn(SplitOn(s, sep), sep) == s
    decreases |s|
  {
    var first := FirstOccurrenceFrom(s, sep, 0);
    if first.Some? {
      var i := first.value;
      var rest := s[i + |sep|..];
      JoinSplitOn(rest, sep);
      SplitAtFirst(s, sep, i);
      var parts := SplitOn(s, sep);
      assert parts[0] == s[..i] && parts[1..] == SplitOn(rest, sep);
      assert JoinOn(parts, sep) == s[..i] + sep + rest;
      CutAround(s, i, i + |sep|);
    }
  }

  lemma CutAround(s: string, i: nat, j: nat)
    requires i <= j <= |s|
    ensures s == s[..i] + s[i..j] + s[j..]
  {
  }

  lemma OccursInPrefix(s: string, sep: string, i: nat, j: nat)
    requires i <= |s|
    ensures OccursAt(s[..i], j, sep) <==> j + |sep| <= i && OccursAt(s, j, sep)
  {
    if j + |sep| <= i {
      assert s[..i][j..j + |sep|] == s[j..j + |sep|];
    }
  }

  /** No piece holds the separator. */
  lemma {:induction false} SplitPiecesAvoidSeparator(s: string, sep: string)
    requires |sep| > 0
    ensures forall k, j: nat :: 0 <= k < |SplitOn(s, sep)| ==> !OccursAt(SplitOn(s, sep)[k], j, sep)
    decreases |s|
  {
    var first := FirstOccurrenceFrom(s, sep, 0);
    FirstOccurrenceIsFirst(s, sep, 0);
    if first.Some? {
      var i := first.value;
      var rest := s[i + |sep|..];
      SplitPiecesAvoidSeparator(rest, sep);
      SplitAtFirst(s, sep, i);
      var parts := SplitOn(s, sep);
      forall j: nat ensures !OccursAt(s[..i], j, sep) {
        OccursInPrefix(s, sep, i, j);
      }
      forall k, j: nat | 1 <= k < |parts| ensures !OccursAt(parts[k], j, sep) {
        assert parts[k] == SplitOn(rest, sep)[k - 1];
      }
    }
  }

  /** Conversely, the first occurrence at or after `from` is the one found. */
  lemma {:induction false} FirstOccurrenceAt(s: string, sep: string, from: nat, i: nat)
    requires |sep| > 0 && from <= i && OccursAt(s, i, sep)
    requires forall j: nat :: from <= j < i ==> !OccursAt(s, j, sep)
    ensures FirstOccurrenceFrom(s, sep, from) == Some(i)
    decreases i - from
  {
    if from < i {
      assert !OccursAt(s, from, sep);
      FirstOccurrenceAt(s, sep, from + 1, i);
    }
  }

  /** Conversely, with no occurrence at or after `from` none is found. */
  lemma {:induction false} NoOccurrenceFrom(s: string, sep: string, from: nat)
    requires |sep| > 0 && from <= |s|
    requires forall j: nat :: from <= j ==> !OccursAt(s, j, sep)
    ensures FirstOccurrenceFrom(s, sep, from) == None
    decreases |s| - from
  {
    if from + |sep| <= |s| {
      assert !OccursAt(s, from, sep);
      NoOccurrenceFrom(s, sep, from + 1);
    }
  }

  /** A character that differs from the separator's rules out an occurrence. */
  lemma Mismatch(s: string, sep: string, j: nat, d: nat)
    requires d < |sep| && (j + d < |s| ==> s[j + d] != sep[d])
    ensures !OccursAt(s, j, sep)
  {
    if j + |sep| <= |s| {
      assert s[j..j + |sep|][d] == s[j + d];
    }
  }

  /** `sep` cannot overlap itself: its first character appears nowhere else in it. */
  predicate Unoverlapping(sep: string) {
    |sep| > 0 && forall d :: 0 < d < |sep| ==> sep[d] != sep[0]
  }

  lemma OccurrencesApart(s: string, sep: string, i: nat, j: nat)
    requires Unoverlapping(sep) && OccursAt(s, i, sep) && OccursAt(s, j, sep) && i < j
    ensures j >= i + |sep|
  {
    assert s[j] == sep[0] by { assert s[j..j + |sep|][0] == s[j]; }
    forall k | i < k < i + |sep| ensures s[k] != sep[0] {
      assert s[i..i + |sep|][k - i] == s[k];
    }
  }

  lemma OccursInSuffix(s: string, sep: string, start: nat, k: nat)
    requires start <= |s|
    ensures OccursAt(s[start..], k, sep) <==> OccursAt(s, start + k, sep)
  {
    if start + k + |sep| <= |s| {
      assert s[start..][k..k + |sep|] == s[start + k..start + k + |sep|];
    }
  }

  /** `sep` occurs in `s` exactly once. */
  ghost predicate OccursOnce(s: string, sep: string) {
    exists i: nat :: OccursAt(s, i, sep) && forall j: nat :: OccursAt(s, j, sep) ==> j == i
  }

  /**
   * For a separator that cannot overlap itself, `split` gives exactly two pieces if and only if
   * the separator occurs exactly once.
   */
  lemma TwoPiecesIffOnce(s: string, sep: string)
    requires Unoverlapping(sep)
    ensures |SplitOn(s, sep)| == 2 <==> OccursOnce(s, sep)
  {
    var first := FirstOccurrenceFrom(s, sep, 0);
    if first.None? {
      NoOccurrence(s, sep);
    } else {
      var i := first.value;
      var second := FirstOccurrenceFrom(s[i + |sep|..], sep, 0);
      if second.None? {
        OneOccurrence(s, sep, i);
      } else {
        SeveralOccurrences(s, sep, i, second.value);
      }
    }
  }

  lemma NoOccurrence(s: string, sep: string)
    requires |sep| > 0 && FirstOccurrenceFrom(s, sep, 0).None?
    ensures |SplitOn(s, sep)| == 1 && !OccursOnce(s, sep)
  {
    FirstOccurrenceIsFirst(s, sep, 0);
  }

  lemma OneOccurrence(s: string, sep: string, i: nat)
    requires Unoverlapping(sep) && FirstOccurrenceFrom(s, sep, 0) == Some(i)
    requires FirstOccurrenceFrom(s[i + |sep|..], sep, 0).None?
    ensures |SplitOn(s, sep)| == 2 && OccursOnce(s, sep)
  {
    var rest := s[i + |sep|..];
    assert |SplitOn(rest, sep)| == 1;
    FirstOccurrenceIsFirst(s, sep, 0);
    FirstOccurrenceIsFirst(rest, sep, 0);
    OnlyOccurrence(s, sep, i, rest);
  }

  lemma SeveralOccurrences(s: string, sep: string, i: nat, k: nat)
    requires Unoverlapping(sep) && FirstOccurrenceFrom(s, sep, 0) == Some(i)
    requires FirstOccurrenceFrom(s[i + |sep|..], sep, 0) == Some(k)
    ensures |SplitOn(s, sep)| > 2 && !OccursOnce(s, sep)
  {
    var rest := s[i + |sep|..];
    SplitCountsPieces(s, sep, i);
    SplitCountsPieces(rest, sep, k);
    SplitAtFirst(s, sep, i);
    SplitAtFirst(rest, sep, k);
    SecondOccurrence(s, sep, i, k);
  }

  lemma SplitCountsPieces(s: string, sep: string, i: nat)
    requires |sep| > 0 && FirstOccurrenceFrom(s, sep, 0) == Some(i)
    ensures i + |sep| <= |s|
    ensures |SplitOn(s, sep)| == 1 + |SplitOn(s[i + |sep|..], sep)|
  {
    SplitAtFound(s, sep, i, s[..i], s[i + |sep|..]);
  }

  lemma SecondOccurrence(s: string, sep: string, i: nat, k: nat)
    requires |sep| > 0 && i + |sep| <= |s| && OccursAt(s, i, sep) && OccursAt(s[i + |sep|..], k, sep)
    ensures !OccursOnce(s, sep)
  {
    OccursInSuffix(s, sep, i + |sep|, k);
    TwoOccurrences(s, sep, i, i + |sep| + k);
  }

  lemma SplitAtFirst(s: string, sep: string, i: nat)
    requires |sep| > 0 && FirstOccurrenceFrom(s, sep, 0) == Some(i)
    ensures i + |sep| <= |s| && OccursAt(s, i, sep)
    ensures SplitOn(s, sep) == [s[..i]] + SplitOn(s[i + |sep|..], sep)
  {
    SplitAtFound(s, sep, i, s[..i], s[i + |sep|..]);
  }

  lemma SplitAtFound(s: string, sep: string, i: nat, before: string, after: string)
    requires |sep| > 0 && FirstOccurrenceFrom(s, sep, 0) == Some(i)
    requires i + |sep| <= |s| && before == s[..i] && after == s[i + |sep|..]
    ensures SplitOn(s, sep) == [before] + SplitOn(after, sep)
  {
  }

  lemma OnlyOccurrence(s: string, sep: string, i: nat, rest: string)
    requires Unoverlapping(sep) && OccursAt(s, i, sep) && rest == s[i + |sep|..]
    requires forall j: nat :: j < i ==> !OccursAt(s, j, sep)
    requires forall j: nat :: !OccursAt(rest, j, sep)
    ensures OccursOnce(s, sep)
  {
    forall j: nat | OccursAt(s, j, sep) ensures j == i {
      if j > i {
        OccurrencesApart(s, sep, i, j);
        OccursInSuffix(s, sep, i + |sep|, j - i - |sep|);
      }
    }
    assert OccursAt(s, i, sep) && forall j: nat :: OccursAt(s, j, sep) ==> j == i;
  }

  lemma TwoOccurrences(s: string, sep: string, i: nat, j: nat)
    requires OccursAt(s, i, sep) && OccursAt(s, j, sep) && i != j
    ensures !OccursOnce(s, sep)
  {
    forall m: nat ensures !(OccursAt(s, m, sep) && forall k: nat :: OccursAt(s, k, sep) ==> k == m) {
      assert OccursAt(s, i, sep) && OccursAt(s, j, sep);
    }
  }

  /** The separator `getCookie` splits on. */
  function CookieSeparator(name: string): string { "; " + name + "=" }

  /** `getCookie(name)`: the value of the cookie, when exactly two pieces come out of the split. */
  function GetCookie(cookie: string, name: string): Option<string> {
    var parts := SplitOn("; " + cookie, CookieSeparator(name));
    if |parts| == 2 then Some(SplitOn(parts[1], ";")[0]) else None
  }

  /**
   * For a cookie name without `;`, `getCookie` answers exactly when `; name=` occurs once in
   * `"; " + document.cookie`; with two cookies of that name it gives up.
   */
  lemma GetCookieFindsUniqueCookie(cookie: string, name: string)
    requires ';' !in name
    ensures GetCookie(cookie, name).Some? <==> OccursOnce("; " + cookie, CookieSeparator(name))
  {
    var sep := CookieSeparator(name);
    forall d | 0 < d < |sep| ensures sep[d] != sep[0] {
      if 2 <= d < 2 + |name| {
        assert sep[d] == name[d - 2];
      }
    }
    TwoPiecesIffOnce("; " + cookie, sep);
  }

  /**
   * The value found is the text after `name=` up to the next `;` (or the end): it holds no
   * `;`, and it starts right after the occurrence of the separator.
   */
  lemma GetCookieValue(cookie: string, name: string)
    requires GetCookie(cookie, name).Some?
    ensures var v := GetCookie(cookie, name).value;
      var s := "; " + cookie;
      var sep := CookieSeparator(name);
      && ';' !in v
      && (exists i: nat :: OccursAt(s, i, sep) && i + |sep| + |v| <= |s| && s[i + |sep|..i + |sep| + |v|] == v
            && (i + |sep| + |v| == |s| || s[i + |sep| + |v|] == ';'))
  {
    var s := "; " + cookie;
    var sep := CookieSeparator(name);
    var parts := SplitOn(s, sep);
    var i := FirstOccurrenceFrom(s, sep, 0).value;
    SplitAtFirst(s, sep, i);
    var v := SplitOn(parts[1], ";")[0];
    assert GetCookie(cookie, name).value == v;
    ValueAfterOccurrence(s, sep, i, parts[1], v);
  }

  lemma ValueAfterOccurrence(s: string, sep: string, i: nat, piece: string, v: string)
    requires |sep| > 0 && sep[0] == ';' && i + |sep| <= |s|
    requires piece == SplitOn(s[i + |sep|..], sep)[0] && v == SplitOn(piece, ";")[0]
    ensures ';' !in v && i + |sep| + |v| <= |s| && s[i + |sep|..i + |sep| + |v|] == v
    ensures i + |sep| + |v| == |s| || s[i + |sep| + |v|] == ';'
  {
    var rest := s[i + |sep|..];
    FieldBeforeSemicolon(rest, sep);
    var end := i + |sep| + |v|;
    assert s[i + |sep|..end] == rest[..|v|];
    assert end < |s| ==> s[end] == rest[|v|];
  }

  /**
   * The first `;`-field of the first piece of `rest` split on a separator that starts with `;`
   * is a prefix of `rest` without `;`, followed by `;` or the end.
   */
  lemma FieldBeforeSemicolon(rest: string, sep: string)
    requires |sep| > 0 && sep[0] == ';'
    ensures var v := SplitOn(SplitOn(rest, sep)[0], ";")[0];
      && ';' !in v && |v| <= |rest| && rest[..|v|] == v
      && (|v| == |rest| || rest[|v|] == ';')
  {
    var tail := SplitOn(rest, sep)[0];
    var v := SplitOn(tail, ";")[0];
    FirstPieceIsPrefix(rest, sep);
    FirstPieceIsPrefix(tail, ";");
    SplitPiecesAvoidSeparator(tail, ";");
    forall j | 0 <= j < |v| ensures v[j] != ';' {
      assert !OccursAt(v, j, ";");
      assert v[j..j + 1] == [v[j]];
    }
    assert rest[..|v|] == v by {
      assert rest[..|tail|] == tail;
      assert tail[..|v|] == v;
    }
    if |v| < |rest| {
      if |v| < |tail| {
        assert OccursAt(tail, |v|, ";");
        assert tail[|v|..|v| + 1] == [tail[|v|]];
        assert rest[|v|] == tail[|v|];
      } else {
        assert OccursAt(rest, |tail|, sep);
        assert rest[|tail|..|tail| + |sep|][0] == rest[|tail|];
      }
    }
  }

  /**
   * The first piece of a split is the text before the first occurrence; when something follows
   * it, that is the separator.
   */
  lemma FirstPieceIsPrefix(s: string, sep: string)
    requires |sep| > 0
    ensures var p := SplitOn(s, sep)[0];
      |p| <= |s| && s[..|p|] == p && (|p| < |s| ==> OccursAt(s, |p|, sep))
  {
  }

  /** The app's own state. */
  class App {
    var user: Option<SongList.User>
    var showMenu: bool
    var currentPage: string
    var searchString: string

    constructor ()
      ensures user == None && !showMenu && currentPage == "yourSongs" && searchString == ""
    {
      user := None;
      showMenu := false;
      currentPage := "yourSongs";
      searchString := "";
    }

    /** The menu button. */
    method ToggleMenu()
      modifies this
      ensures showMenu == !old(showMenu)
      ensures user == old(user) && currentPage == old(currentPage) && searchString == old(searchString)
    {
      showMenu := !showMenu;
    }

    /**
     * At render, with no user yet, a non-empty `user_data` cookie signs the user in with the
     * parsed cookie value. `parse` stands for `JSON.parse`.
     */
    method RestoreSession(cookie: string, parse: string -> SongList.User)
      modifies this
      ensures old(user).Some? ==> user == old(user)
      ensures old(user).None? ==>
        var v := GetCookie(cookie, "user_data");
        user == (if v.Some? && v.value != "" then Some(parse(v.value)) else None)
      ensures showMenu == old(showMenu) && currentPage == old(currentPage) && searchString == old(searchString)
    {
      if user.None? {
        var userData := GetCookie(cookie, "user_data");
        if userData.Some? && userData.value != "" {
          user := Some(parse(userData.value));
        }
      }
    }

    /** `setCurrentPage`, handed to the menu and the song lists. */
    method SetCurrentPage(page: string)
      modifies this
      ensures currentPage == page
      ensures user == old(user) && showMenu == old(showMenu) && searchString == old(searchString)
    {
      currentPage := page;
    }

    /** `setSearchString`, handed to the menu. */
    method SetSearchString(s: string)
      modifies this
      ensures searchString == s
      ensures user == old(user) && showMenu == old(showMenu) && currentPage == old(currentPage)
    {
      searchString := s;
    }
  }
}

/** `getCookie('user_data')` on particular cookie strings. */
module CookieExamples {
  import opened Wrappers
  import opened AppModel

  /** A value with no `;` in it is a single field. */
  lemma SingleField(v: string)
    requires ';' !in v
    ensures SplitOn(v, ";") == [v]
  {
    forall j: nat ensures !OccursAt(v, j, ";") {
      if j < |v| {
        Mismatch(v, ";", j, 0);
      }
    }
    NoOccurrenceFrom(v, ";", 0);
  }

  /** The user's cookie after another one. */
  lemma AfterAnotherCookie(cookie: string)
    requires cookie == "theme=dark; user_data=abc"
    ensures GetCookie(cookie, "user_data") == Some("abc")
  {
    var s := "; " + cookie;
    var sep := CookieSeparator("user_data");
    assert sep == "; user_data=";
    assert OccursAt(s, 12, sep) by {
      assert s[12..24] == sep;
    }
    forall j: nat | j < 12 ensures !OccursAt(s, j, sep) {
      if j == 0 {
        Mismatch(s, sep, 0, 2);
      } else {
        Mismatch(s, sep, j, 0);
      }
    }
    FirstOccurrenceAt(s, sep, 0, 12);
    var rest := s[24..];
    assert rest == "abc";
    assert SplitOn(rest, sep) == [rest];
    SplitAtFirst(s, sep, 12);
    SingleField(rest);
  }

  /** The user's cookie alone. */
  lemma OnlyCookie(cookie: string)
    requires cookie == "user_data=abc"
    ensures GetCookie(cookie, "user_data") == Some("abc")
  {
    var s := "; " + cookie;
    var sep := CookieSeparator("user_data");
    assert sep == "; user_data=";
    assert OccursAt(s, 0, sep) by {
      assert s[0..12] == sep;
    }
    FirstOccurrenceAt(s, sep, 0, 0);
    var rest := s[12..];
    assert rest == "abc";
    assert SplitOn(rest, sep) == [rest];
    SplitAtFirst(s, sep, 0);
    SingleField(rest);
  }

  /** A cookie whose name merely ends in `user_data` is not the user's. */
  lemma LongerNameIgnored(cookie: string)
    requires cookie == "xuser_data=1"
    ensures GetCookie(cookie, "user_data") == None
  {
    var s := "; " + cookie;
    var sep := CookieSeparator("user_data");
    assert sep == "; user_data=";
    forall j: nat ensures !OccursAt(s, j, sep) {
      if j == 0 {
        Mismatch(s, sep, 0, 2);
      } else {
        Mismatch(s, sep, j, 0);
      }
    }
    NoOccurrenceFrom(s, sep, 0);
  }
}

# react-songs in Dafny

A model of the core of the react-songs front end: a React app where a signed-in user browses
their guitar tabs, searches songs, and views a tab. The tab view can transpose chords up or down
a semitone, auto-scroll at an adjustable speed, and open a resizable panel of videos.

The model covers five source files:

- **Chord transposition** (`songDisplay.jsx`, `NOTES`, `NOTE_TO_INDEX`, `CHORD_REGEX`,
  `transposeNote`, `transposeTab`). These modules are pure functions and lemmas:
  - `Pitch`: the spelling table and `transposeNote`.
  - `ChordScanner`: the chord pattern. It is modelled as the backtracking search a regular
    expression engine performs over its four groups (root, modifier, digits, bass). The search
    is proved sound and complete against a declarative definition of "a chord of this shape
    starts here" (`IsChordAt`).
  - `Transpose`: the global-replace walk over a line, and the split/map/join over lines.
  - `SplitAgreement`: the line split and join of `Transpose` are the general `split` and `join`
    of `AppModel` at a line feed.
- **The song view** (`songDisplay.jsx`): class `SongDisplayPage.SongDisplay`. It holds the tab,
  the scroll speed (start 20, `+` adds 10, `-` never goes below 5), Start/Stop, the two-step
  opening of the video panel, and the panel width.
- **The two song lists** (`yourSongs.jsx`, `searchResults.jsx`). They share `SongList`: pages of
  10, Previous/Next, and the loading/error/table rendering. Classes `YourSongsPage.YourSongs` and
  `SearchResultsPage.SearchResults` hold each list's state. Their effect, the settling of the
  fetch, the paging clicks and the row clicks are separate methods.
- **The video panel** (`videoPanel.jsx`): class `VideoPanelModel.VideoPanel`. It covers the video
  list and the selected video, the reset on a new song, the `active` button, and the drag handle
  whose width is clamped to 200..600.
- **The app shell** (`App.jsx`): `getCookie`, modelled on `String.prototype.split` with a string
  separator, and class `AppModel.App` (menu toggle, initial page, user restored from the
  `user_data` cookie).

Notes on the model:

- The note table has 21 spellings: every `[A-G][#b]?`, including `Cb`, `B#`, `Fb` and `E#`. The
  model follows the table as the code declares it, and `Pitch.KeysAreSpellings` proves that its
  keys are exactly the spellings the chord pattern can capture.
- Transposing text is not invertible. In `C##`, the pattern takes `C#` as the chord and leaves
  the second `#` as text, so up gives `D` followed by the stray `#`: the text `D#`. Down then
  reads `D#` as one chord, whose `#` is no longer stray, and gives `D`
  (`TransposeExamples.UpThenDownDrifts`). At the level of single notes, up then down only
  normalises the spelling (`Pitch.UpThenDownNormalises`).
- A new search string fetches from the current offset; the offset is not reset
  (`SearchResultsPage.SearchResults.ChangeSearchString`).

## Model

| member | source | states |
|---|---|---|
| Pitch.KeysAreSpellings | src/components/songDisplay.jsx:10-22 | a string is a key of the note table if and only if it is a letter A-G optionally followed by `#` or `b` |
| Pitch.TableIsEnharmonic | src/components/songDisplay.jsx:10-22 | every entry is the letter's pitch class raised by `#` or lowered by `b`, modulo 12, and lies in 0..11 |
| Pitch.CanonicalRoundTrip | src/components/songDisplay.jsx:7-22 | each of the twelve `NOTES` maps back to its own index |
| Pitch.TransposeNote | src/components/songDisplay.jsx:28-33 | an unknown spelling comes back unchanged; a known one comes back as a `NOTES` spelling whose pitch class is the old one plus the shift, modulo 12 |
| Pitch.TransposeByReference | src/components/songDisplay.jsx:28-33 | for every capturable spelling, the result is `NOTES` at the reference pitch plus the shift, independent of the table |
| Pitch.TransposeNoteComposes | src/components/songDisplay.jsx:28-33 | shifting by a and then by b is shifting by a + b |
| Pitch.UpThenDownNormalises | src/components/songDisplay.jsx:103-109 | up then down returns the canonical spelling of the same pitch class |
| Pitch.FlatIsNormalised | src/components/songDisplay.jsx:28-33 | `Bb` up then down is `A#` |
| Pitch.OctaveFixesCanonical | src/components/songDisplay.jsx:28-33 | a canonical spelling is fixed by any shift that is a multiple of 12 |
| Pitch.JsRemainder12 | src/components/songDisplay.jsx:31 | JavaScript's `% 12` lies strictly between -12 and 12, takes the sign of its operand and differs from it by a multiple of 12 |
| Pitch.TransposeNoteAsWritten | src/components/songDisplay.jsx:28-33 | the code as written returns `undefined` only for a known note whose index plus shift plus 12 is negative |
| Pitch.AsWrittenAgreesFromMinus12 | src/components/songDisplay.jsx:31-32 | for shifts of at least -12 the code as written equals the corrected `TransposeNote` |
| Pitch.AsWrittenUndefinedBelowRange | src/components/songDisplay.jsx:31-32 | `A` shifted by -13 is `undefined` as written, and `G#` when corrected |
| ChordScanner.IsChordAt | src/components/songDisplay.jsx:26 | the declarative reading of the pattern: from a word boundary, the four groups capture consecutive slices and no letter follows; no ensures of its own, tied to the engine by `FoundIsChord`, `NotFoundNoChord`, `MatchAt` and `MatchIsFirstTried` |
| ChordScanner.Candidates | src/components/songDisplay.jsx:26 | the lengths tried for each group are exactly the lengths that group can match at that position |
| ChordScanner.ModifierCandidates | src/components/songDisplay.jsx:26 | a modifier length is tried if and only if one of `maj min dim aug add sus2 sus4 sus m M`, or nothing, matches there; their order is stated by `ModifierCandidatesLongestFirst` |
| ChordScanner.DigitRun | src/components/songDisplay.jsx:26 | the digit run is all digits and stops at the end or at a non-digit |
| ChordScanner.CandidatesLongestFirst | src/components/songDisplay.jsx:26 | every group's lengths are tried longest first, each once: `[#b]?` with the accidental before without, `\d*` greedily, the bass before its absence |
| ChordScanner.ModifierCandidatesLongestFirst | src/components/songDisplay.jsx:26 | the quality alternatives that fit are tried longest first: `maj` and `min` before `m`, `sus2` and `sus4` before `sus`, any alternative before its absence |
| ChordScanner.Search | src/components/songDisplay.jsx:26 | the engine's backtracking over one group's alternatives in order; no ensures of its own, characterised by `SearchSound`, `SearchComplete` and `SearchPrefersLongest` |
| ChordScanner.TryCandidate | src/components/songDisplay.jsx:26 | committing to one length of a group and searching the later groups; no ensures of its own, characterised by `TryCandidateSound`, `TryCandidateComplete` and `TryCandidatePrefersLongest` |
| ChordScanner.SearchSound | src/components/songDisplay.jsx:26 | a path the backtracking search returns starts with a tried candidate and completes the pattern |
| ChordScanner.TryCandidateSound | src/components/songDisplay.jsx:26 | committing to one candidate yields only paths that complete the pattern |
| ChordScanner.SearchComplete | src/components/songDisplay.jsx:26 | if any tried candidate leads to a completion, the search finds one |
| ChordScanner.TryCandidateComplete | src/components/songDisplay.jsx:26 | a completing path's first group is tried and leads to a result |
| ChordScanner.SearchPrefersLongest | src/components/songDisplay.jsx:26 | over alternatives tried longest first, the search returns the lexicographically greatest completion: every other completion is smaller |
| ChordScanner.TryCandidatePrefersLongest | src/components/songDisplay.jsx:26 | once a group's length is fixed, the search returns the greatest completion that starts with it |
| ChordScanner.CompletesIsChord | src/components/songDisplay.jsx:26 | a completed path has exactly four lengths, each matching its group of the pattern in turn, and the last one is not followed by a letter |
| ChordScanner.GroupsComplete | src/components/songDisplay.jsx:26 | conversely, four lengths matching the groups in turn and not followed by a letter complete the pattern |
| ChordScanner.ChordCompletes | src/components/songDisplay.jsx:26 | every chord shape at a position is a completed path |
| ChordScanner.MatchAt | src/components/songDisplay.jsx:26 | a match is a non-empty chord at that position, and no match means no chord of any shape starts there |
| ChordScanner.MatchIsFirstTried | src/components/songDisplay.jsx:26 | where several shapes fit at a position, the match is the one the engine tries first: every other chord there has a shorter root, or the same root and a shorter quality, then fewer digits, then a shorter bass |
| ChordScannerFacts.NoModifier | src/components/songDisplay.jsx:26 | with no `m d a s M` next, only the empty modifier is tried |
| ChordScannerFacts.MinorModifier | src/components/songDisplay.jsx:26 | `m` not followed by `a` or `i` is tried as the minor modifier first, then nothing |
| ChordScannerFacts.NothingAfterRoot | src/components/songDisplay.jsx:26 | before a character that is not a letter, digit or `/`, the later groups match empty |
| ChordScannerFacts.BareRootMatch | src/components/songDisplay.jsx:26 | a bare note (with its accidental) at a word boundary, followed by no letter, digit or `/`, is matched as a chord of just its root |
| ChordScannerFacts.NoRootNoMatch | src/components/songDisplay.jsx:26 | no match starts at a character outside A-G |
| ChordScannerFacts.InsideWordNoMatch | src/components/songDisplay.jsx:26 | no match starts inside a word |
| Transpose.Token.Rendered | src/components/songDisplay.jsx:40-46 | the replacement the callback returns for one token; no ensures of its own, characterised by `RenderedChord` |
| Transpose.ChordOf | src/components/songDisplay.jsx:39 | the four captured groups are well formed and spell out exactly the matched text |
| Transpose.NextToken | src/components/songDisplay.jsx:39 | one step of the global replace consumes at least one character, and its token is well formed and spells out exactly the characters consumed |
| Transpose.TokenizeFrom | src/components/songDisplay.jsx:39 | the walk of the global replace from a position; no ensures of its own, characterised by `TokenizeCovers` |
| Transpose.TransposeLine | src/components/songDisplay.jsx:39-47 | `line.replace(CHORD_REGEX, ...)`: the tokens of the walk, each rendered; no ensures of its own, characterised by `TokenizeCovers`, `RenderedChord`, `LineWithoutChordsUnchanged` and `OctaveFixesCanonicalLine` |
| Transpose.TokenizeCovers | src/components/songDisplay.jsx:39 | the walk of the global replace covers the line exactly, and every chord token holds what the groups capture |
| Transpose.RenderedChord | src/components/songDisplay.jsx:39-47 | a chord is replaced by its transposed root, its modifier and digits unchanged, and `/` plus its transposed bass when there is one; both notes come out canonical and shifted |
| Transpose.LineWithoutChordsUnchanged | src/components/songDisplay.jsx:39-47 | a line in which no chord starts anywhere is left as it is |
| Transpose.LineWithoutRootsUnchanged | src/components/songDisplay.jsx:39-47 | a line with no letter A-G at the start of a word is left as it is |
| Transpose.OctaveFixesCanonicalToken | src/components/songDisplay.jsx:39-47 | a chord spelt canonically is unchanged by a shift of whole octaves |
| Transpose.OctaveFixesCanonicalLine | src/components/songDisplay.jsx:39-47 | a line whose chords are spelt canonically is unchanged by a shift of whole octaves |
| Transpose.TransposeLineKeepsLineFeedFree | src/components/songDisplay.jsx:39-47 | transposing a line never introduces a line feed |
| Transpose.SplitLines | src/components/songDisplay.jsx:37 | splitting at line feeds gives at least one line |
| Transpose.SplitLinesHaveNoLineFeed | src/components/songDisplay.jsx:37 | no piece of the split holds a line feed |
| Transpose.JoinLines | src/components/songDisplay.jsx:48 | `join('\n')`; no ensures of its own, characterised by `JoinSplit` and `SplitJoin` |
| Transpose.JoinSplit | src/components/songDisplay.jsx:37-48 | joining the split lines gives the text back |
| Transpose.SplitJoin | src/components/songDisplay.jsx:37-48 | splitting joined lines without line feeds gives the lines back |
| Transpose.TransposeLines | src/components/songDisplay.jsx:37-47 | the map keeps the number of lines and transposes each line on its own |
| Transpose.TransposeTab | src/components/songDisplay.jsx:35-49 | `transposeTab`: split at line feeds, each line transposed, joined again; no ensures of its own, characterised by `TransposeTabLines` and `TabWithoutChordsUnchanged` |
| Transpose.TransposeTabLines | src/components/songDisplay.jsx:35-49 | the transposed tab has as many lines as the tab, and line i is line i transposed |
| Transpose.TabWithoutChordsUnchanged | src/components/songDisplay.jsx:35-49 | a tab without chords is left as it is |
| SplitAgreement.SplitLinesIsSplitOn | src/components/songDisplay.jsx:37 | `split('\n')` of the tab is the general string `split` of `getCookie` at the separator `"\n"` |
| SplitAgreement.JoinLinesIsJoinOn | src/components/songDisplay.jsx:48 | `join('\n')` of the tab is the general `join` at the separator `"\n"` |
| SplitAgreement.HasAtIsOccursAt | src/components/songDisplay.jsx:26 | the pattern's literal-alternative test and `split`'s occurrence test are the same predicate |
| TransposeExamples.MinorChordMatch | src/components/songDisplay.jsx:26 | in `Am G` the match at 0 is root `A` with modifier `m` |
| TransposeExamples.TransposeMinorAndMajor | src/components/songDisplay.jsx:35-49 | `Am G` up one semitone is `A#m G#` |
| TransposeExamples.TransposeSlashChord | src/components/songDisplay.jsx:35-49 | `D/F#` down two semitones is `C/E` |
| TransposeExamples.WordIsNotChord | src/components/songDisplay.jsx:26 | the word `Go` is not a chord and stays as it is |
| TransposeExamples.UpThenDownDrifts | src/components/songDisplay.jsx:103-109 | `C##` up is `D#` and then down is `D`: text transposition is not invertible |
| TransposeExamples.LyricsUnchanged | src/components/songDisplay.jsx:35-49 | a lyric line such as `Hello` is unchanged |
| TransposeExamples.TransposeTwoLines | src/components/songDisplay.jsx:35-49 | a chord line and a lyric line: the chords move, the lyrics and the line feed stay |
| TransposeExamples.DigitsGivenBack | src/components/songDisplay.jsx:26 | in `Em7b` the engine gives the digits back and matches only `Em` |
| TransposeExamples.AccidentalGivenBack | src/components/songDisplay.jsx:26 | in `C#x` the engine gives the `#` back and matches only `C` |
| SongList.PreviousOffset | src/components/yourSongs.jsx:59 | Previous never goes below 0 and goes strictly back from any positive offset |
| SongList.NextOffset | src/components/yourSongs.jsx:64 | Next always goes strictly forward |
| SongList.PreviousUndoesNext | src/components/yourSongs.jsx:57-66 | Next then Previous returns to the same offset |
| SongList.NextUndoesPrevious | src/components/yourSongs.jsx:57-66 | Previous then Next returns to the same offset exactly when the offset is at least a page |
| SongList.PagingKeepsBoundary | src/components/yourSongs.jsx:9-10 | from a page boundary (a non-negative multiple of 10), both buttons land on a page boundary |
| SongList.PreviousShownIffItMoves | src/components/yourSongs.jsx:57-60 | Previous is shown exactly when pressing it changes the offset |
| SongList.ClicksStayOnBoundary | src/components/yourSongs.jsx:57-66 | any sequence of Previous and Next clicks stays on page boundaries and moves at most a page per click |
| SongList.ViewOf | src/components/yourSongs.jsx:31-66 | `Loading...` exactly while loading, then the error when there is one, else the table with the songs, Previous iff offset > 0 and Next iff the page is full |
| YourSongsPage.YourSongs.View | src/components/yourSongs.jsx:31-66 | what the list renders, `SongList.ViewOf` of its state; no ensures of its own, stated by the methods below |
| YourSongsPage.YourSongs.constructor | src/components/yourSongs.jsx:6-10 | no songs, not loading, no error, offset 0 |
| YourSongsPage.YourSongs.RunEffect | src/components/yourSongs.jsx:12-29 | with a user, the current page of 10 is requested, loading starts and the error is cleared; without one nothing changes |
| YourSongsPage.YourSongs.CompleteFetch | src/components/yourSongs.jsx:13-24 | success replaces the songs, failure shows `Failed to fetch songs`; loading ends either way |
| YourSongsPage.YourSongs.ChangeUser | src/components/yourSongs.jsx:12-29 | a different signed-in user starts a fetch of the current page (loading, error cleared); the same user or no user starts nothing and leaves loading and error; songs and offset unchanged |
| YourSongsPage.YourSongs.ClickPrevious | src/components/yourSongs.jsx:57-60 | the shown Previous moves one page back on a page boundary; with a user it fetches that page (loading, error cleared), without one loading and error are unchanged; user and songs unchanged |
| YourSongsPage.YourSongs.ClickNext | src/components/yourSongs.jsx:62-65 | the shown Next moves one page on; with a user it fetches that page (loading, error cleared), without one loading and error are unchanged; user and songs unchanged |
| YourSongsPage.YourSongs.ClickRow | src/components/yourSongs.jsx:45-49 | a row opens the song display for that row's song |
| YourSongsPage.NextPageShown | src/components/yourSongs.jsx:13-65 | Next and then the page arriving: the request is for the new offset and the new rows show as a table with Previous offered, Next offered iff the page is full |
| SearchResultsPage.ShouldFetch | src/components/searchResults.jsx:26 | `user && searchString`; no ensures of its own: the methods below fetch exactly when it holds |
| SearchResultsPage.SearchResults.View | src/components/searchResults.jsx:31-66 | what the list renders, `SongList.ViewOf` of its state; no ensures of its own, stated by the methods below |
| SearchResultsPage.SearchResults.constructor | src/components/searchResults.jsx:5-10 | no songs, not loading, no error, limit 10, offset 0 |
| SearchResultsPage.SearchResults.RunEffect | src/components/searchResults.jsx:12-29 | a fetch starts exactly when there is a user and a non-empty search string |
| SearchResultsPage.SearchResults.CompleteFetch | src/components/searchResults.jsx:12-23 | success replaces the songs, failure shows `Failed to fetch songs`; loading ends either way |
| SearchResultsPage.SearchResults.ChangeSearchString | src/components/searchResults.jsx:25-29 | a new search string fetches from the unchanged offset (loading, error cleared) when there is a user and the string is non-empty; otherwise loading and error are unchanged; user, songs and offset unchanged |
| SearchResultsPage.SearchResults.ChangeUser | src/components/searchResults.jsx:25-29 | a different user fetches (loading, error cleared) when the guard allows; otherwise loading and error are unchanged; search string, songs and offset unchanged |
| SearchResultsPage.SearchResults.ClickPrevious | src/components/searchResults.jsx:57-60 | the shown Previous moves one page back and fetches (loading, error cleared) when the guard allows, otherwise loading and error are unchanged; user, search string and songs unchanged |
| SearchResultsPage.SearchResults.ClickNext | src/components/searchResults.jsx:62-65 | the shown Next moves one page on and fetches (loading, error cleared) when the guard allows, otherwise loading and error are unchanged; user, search string and songs unchanged |
| SearchResultsPage.SearchResults.ClickRow | src/components/searchResults.jsx:45-49 | a row opens the song display for that row's song |
| SearchResultsPage.NextPageShown | src/components/searchResults.jsx:12-65 | Next and then the results arriving: the request is for the new offset and the new rows show as a table with Previous offered, Next offered iff the page is full |
| VideoPanelModel.ClampWidth | src/components/videoPanel.jsx:42 | the width is within 200..600, unchanged inside that range, and the nearer bound outside it |
| VideoPanelModel.ClampIdempotent | src/components/videoPanel.jsx:42 | clamping twice is clamping once |
| VideoPanelModel.ClampMonotone | src/components/videoPanel.jsx:41-42 | a wider request never gives a narrower panel |
| VideoPanelModel.SelectionAfterLoad | src/components/videoPanel.jsx:19-23 | the first video's url when the list is non-empty, else the previous selection; no ensures of its own, stated by `VideoPanel.CompleteFetch` |
| VideoPanelModel.VideoPanel.IsActive | src/components/videoPanel.jsx:90 | a button is `active` when its url is the selected one; no ensures of its own, stated by `CompleteFetch` and `ClickVideo` |
| VideoPanelModel.VideoPanel.ShowsNoVideos | src/components/videoPanel.jsx:84-86 | `No videos available` shows when the list is empty; no ensures of its own, stated by `ChangeSong` and `CompleteFetch` |
| VideoPanelModel.VideoPanel.constructor | src/components/videoPanel.jsx:6-8 | no videos, no selection, not resizing |
| VideoPanelModel.VideoPanel.ChangeSong | src/components/videoPanel.jsx:10-13 | a new song clears the videos and the selection, so `No videos available` shows |
| VideoPanelModel.VideoPanel.CompleteFetch | src/components/videoPanel.jsx:15-31 | an answer (or nothing) replaces the list and selects its first video; a failure empties the list and keeps the selection; `No videos available` shows exactly when the list is empty, otherwise the first button is active |
| VideoPanelModel.VideoPanel.ClickVideo | src/components/videoPanel.jsx:87-95 | the clicked video is selected; a button is active iff its url is the clicked one, so with distinct urls only the clicked button is |
| VideoPanelModel.VideoPanel.MouseDown | src/components/videoPanel.jsx:33-36 | a press on the handle starts resizing |
| VideoPanelModel.VideoPanel.MouseMove | src/components/videoPanel.jsx:39-43 | while resizing, the clamped distance to the window's right edge is reported; otherwise nothing |
| VideoPanelModel.VideoPanel.MouseUp | src/components/videoPanel.jsx:45-47 | releasing ends resizing |
| SongDisplayPage.FasterSpeed | src/components/songDisplay.jsx:124 | `+` always makes the speed larger |
| SongDisplayPage.SlowerSpeed | src/components/songDisplay.jsx:125 | `-` never goes below 5 and goes strictly down from above 5 |
| SongDisplayPage.SlowerUndoesFaster | src/components/songDisplay.jsx:124-125 | `-` undoes `+` |
| SongDisplayPage.PressesKeepSpeedReachable | src/components/songDisplay.jsx:53-79 | from a speed of at least 5 that is a multiple of 5, any presses keep it so; the interval's 0.1 floor is never used |
| SongDisplayPage.SongDisplay.constructor | src/components/songDisplay.jsx:52-57 | empty tab, speed 20, not scrolling, panel closed and never opened, width 200 |
| SongDisplayPage.SongDisplay.TabFetched | src/components/songDisplay.jsx:90-101 | a fetched tab replaces the text; a failure leaves it; every other field is unchanged |
| SongDisplayPage.SongDisplay.TransposeUp | src/components/songDisplay.jsx:103-105 | the tab becomes the tab transposed one semitone up; every other field is unchanged |
| SongDisplayPage.SongDisplay.TransposeDown | src/components/songDisplay.jsx:107-109 | the tab becomes the tab transposed one semitone down; every other field is unchanged |
| SongDisplayPage.SongDisplay.IncreaseSpeed | src/components/songDisplay.jsx:124 | the speed goes up by 10 and stays reachable; every other field is unchanged |
| SongDisplayPage.SongDisplay.DecreaseSpeed | src/components/songDisplay.jsx:125 | the speed goes down by 10, never below 5; every other field is unchanged |
| SongDisplayPage.SongDisplay.ToggleScrolling | src/components/songDisplay.jsx:62-64 | Start/Stop flips scrolling; every other field is unchanged |
| SongDisplayPage.SongDisplay.ToggleVideoPanel | src/components/songDisplay.jsx:129-142 | Show mounts the panel and requests its opening; Hide closes it and keeps it mounted; tab, speed, scrolling and width are unchanged |
| SongDisplayPage.SongDisplay.AnimationFrame | src/components/songDisplay.jsx:135 | a pending request opens the panel and is consumed; without one the panel stays as it is; every other field is unchanged |
| SongDisplayPage.SongDisplay.PanelWidthChanged | src/components/songDisplay.jsx:152-160 | the reported width becomes the panel width; every other field is unchanged |
| SongDisplayPage.DragPanel | src/components/videoPanel.jsx:33-58 | a drag from press to release sets the display's panel width to the clamped distance and ends resizing; the display's other fields and the panel's videos and selection are unchanged |
| AppModel.FirstOccurrenceFrom | src/App.jsx:17 | a found position holds the separator |
| AppModel.FirstOccurrenceIsFirst | src/App.jsx:17 | no occurrence precedes the one found, and none exists when none is found |
| AppModel.FirstOccurrenceAt | src/App.jsx:17 | the first occurrence is the one found |
| AppModel.NoOccurrenceFrom | src/App.jsx:17 | with no occurrence, none is found |
| AppModel.SplitOn | src/App.jsx:17 | `split` gives at least one piece |
| AppModel.JoinSplitOn | src/App.jsx:17 | joining the pieces with the separator gives the string back |
| AppModel.SplitPiecesAvoidSeparator | src/App.jsx:17-18 | no piece contains the separator |
| AppModel.TwoPiecesIffOnce | src/App.jsx:17-18 | for a separator that cannot overlap itself, there are exactly two pieces iff it occurs exactly once |
| AppModel.JoinOn | src/App.jsx:17 | `join`, the inverse of `split` used to state that splitting loses nothing; no ensures of its own, characterised by `JoinSplitOn` |
| AppModel.GetCookie | src/App.jsx:15-19 | `getCookie`; no ensures of its own, characterised by `GetCookieFindsUniqueCookie`, `GetCookieValue` and the cookie examples |
| AppModel.GetCookieFindsUniqueCookie | src/App.jsx:15-19 | for a name without `;`, a value is returned iff `; name=` occurs exactly once in `"; " + document.cookie` |
| AppModel.GetCookieValue | src/App.jsx:15-19 | the value holds no `;` and is the text right after an occurrence of `; name=`, up to the next `;` or the end |
| CookieExamples.AfterAnotherCookie | src/App.jsx:15-19 | `theme=dark; user_data=abc` gives `abc` |
| CookieExamples.OnlyCookie | src/App.jsx:15-19 | `user_data=abc` gives `abc` |
| CookieExamples.LongerNameIgnored | src/App.jsx:15-19 | `xuser_data=1` gives nothing |
| AppModel.App.constructor | src/App.jsx:10-13 | no user, menu hidden, page `yourSongs`, empty search string |
| AppModel.App.ToggleMenu | src/App.jsx:21-23 | the menu flips and nothing else changes |
| AppModel.App.RestoreSession | src/App.jsx:25-30 | without a user, a non-empty `user_data` cookie signs the parsed user in; with a user nothing changes |
| AppModel.App.SetCurrentPage | src/App.jsx:12 | the page becomes the one given |
| AppModel.App.SetSearchString | src/App.jsx:13 | the search string becomes the one given |

## Left out

- `src/services/api.js` is not part of this model. The fetches are the request values the
  effects return, and what the server answers is the input of each `CompleteFetch`.
- Asynchrony. A fetch's start and its settling are separate steps. Interleaved or stale
  responses, React's batching and the order in which effects run are not modelled; the caller
  invokes each effect explicitly (`RunEffect`, `ChangeUser`, `ChangeSearchString`).
- The scroll interval (`setInterval`, `scrollBy`, the float delay `3000 / Math.max(0.1, speed)`)
  is left out. Only the speed arithmetic that feeds it is modelled.
- `requestAnimationFrame` is modelled as an explicit `AnimationFrame` step; no timing is modelled.
- `JSON.parse` is the `parse` parameter of `RestoreSession`. Malformed JSON and its exception are
  not modelled.
- AppModel.App.RestoreSession: a cookie whose JSON parses to a falsy value (such as `null`) still
  counts as a signed-in user in the model, because `parse` returns a `User`.
- Rendering-only components are left out, and so is sign-in: `header.jsx`, `login.jsx`,
  `menu.jsx`, `appAuthenticated.jsx` and `googleAuth.jsx` (which writes the cookie).
- Styles are left out: the panel's CSS width when closed, `pointerEvents` and the iframe source.
- Only `NOTE_TO_INDEX`'s own keys are modelled. Inherited object keys such as `constructor` are
  never reached, because only `[A-G][#b]?` strings are passed in.
- The regular expression engine is modelled only for this pattern. `MatchAt` is proved to find a
  chord exactly when one exists, and `MatchIsFirstTried` proves it is the shape the engine tries
  first (the candidate orders are `CandidatesLongestFirst` and `ModifierCandidatesLongestFirst`).
- Pitch.TransposeNoteComposes, Pitch.OctaveFixesCanonical and the `Transpose` members are stated
  of the corrected `Pitch.TransposeNote`, not of the code as written (see Findings). The two agree
  for every shift of at least -12 (`Pitch.AsWrittenAgreesFromMinus12`), which covers the +1 and -1
  the buttons pass.
- VideoPanelModel.VideoPanel.CompleteFetch models a successful answer, but
  `src/components/videoPanel.jsx:3` imports `fetchVideosForSong`, which `src/services/api.js` does
  not export. In the bundle as written, the call fails (only the failure path runs) or the import
  does not link. The success path is modelled as the code evidently intends.
- `setTab(fetchedTab.text)` with a missing `text` field (which would set `undefined`) is not
  modelled: `TabFetched` receives either a string or a failure.

## Findings

| source | as written | input that shows it | evidently intended | confidence | as-written member | corrected member |
|---|---|---|---|---|---|---|
| src/components/songDisplay.jsx:31-32 | `(index + semitones + 12) % 12` uses JavaScript's truncating `%`, so the index is negative whenever `index + semitones + 12 < 0` and `NOTES[newIndex]` is `undefined` | `transposeNote('A', -13)`: the index is -1 and the result is `undefined` | the pitch class `(index + semitones)` modulo 12 for every shift (`G#` here) | high for the formula; unreachable from the buttons, which pass only +1 and -1; not executed | Pitch.TransposeNoteAsWritten, Pitch.AsWrittenUndefinedBelowRange | Pitch.TransposeNote, Pitch.AsWrittenAgreesFromMinus12 |

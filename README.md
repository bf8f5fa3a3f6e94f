# Creative Studio extension matcher, in Dafny

A model of the logic inside `CreativeExtensionApp` (react.js). The app keeps
a registry of four tools: a drawing canvas, a text editor, a colour-palette
generator and a mood board. Each tool has a list of keywords. When the user
types a task, the app suggests a tool. The user can install the suggested
tool, and can remove installed tools by id.

- `Extensions` (extensions.dfy): the registry. It keeps each record's id and
  keywords, in `Object.values` order: `drawing`, `textEditor`,
  `colorPalette`, `moodBoard`.
- `Text` (text.dfy): the JavaScript string operations the matcher uses.
  `trim` is modelled through the ECMAScript whitespace and line-terminator
  code points. `toLowerCase` is modelled for ASCII letters. `includes` is
  "occurs at some position".
- `Matcher` (matcher.dfy): the matching part of `analyzeTask`.
  - `Suggestion` is the specification function.
  - `Suggest` is the imperative version: it walks the registry, updating
    `bestMatch` and `maxScore`, then runs the fallback chain. It is proved
    equal to `Suggestion`.
  - The lemmas prove the scoring rule, the tie-break, what happens to
    installed entries, the fallback precedence, and exactly when there is no
    suggestion.
- `Scenarios` (scenarios.dfy): whole inputs run through `Suggestion`. Each
  one shows a piece of behaviour, for example the tie-break, or a fallback
  returning an extension that is already installed.
- `App` (workspace.dfy): the component state as a `Workspace` class with
  fields `taskInput`, `suggestion` and `installed`. Its handlers are
  `SetTaskInput`, `Analyze`, `Install` and `Remove`. The pure list
  operations have their own lemmas.

### Behaviour to note

- The "visual"/"organize" and "color"/"design" fallbacks (react.js:208-211)
  do not check the installed list. "visual", "color" and "design" are also
  keywords of the extensions those fallbacks return. So when one of these
  three words triggers a fallback, the extension returned is always one
  that is already installed (`FallbackTargetsInstalled`).
- Only the keyword pass (react.js:200) and the final `find`
  (react.js:213-215) skip installed extensions. For "sketch" with `drawing`
  installed, the pass scores nothing uninstalled and no fallback word
  occurs, so the `find` returns `textEditor`
  (`SketchWithDrawingInstalledSuggestsTextEditor`).
- `installExtension` (react.js:224) appends without a duplicate check.
  Installing an extension twice puts it in the list twice
  (`InstallAddsOccurrence`).

## Model

| member | source | states |
|---|---|---|
| `Extensions.Registry` | react.js:5-38 | the four records of `Object.values(EXTENSION_REGISTRY)` with their ids and keywords, in declaration order |
| `Extensions.RegistryKeywordsLowerCase` | react.js:5-38 | every registry keyword is non-empty and has no upper-case ASCII letter, so lowering the input alone makes matching case-insensitive |
| `Extensions.RegistryIdsDistinct` | react.js:5-38 | no two of the four registry records share an id |
| `Text.Trim` | react.js:186 | `taskInput.trim()`: the result is no longer than the input and neither starts nor ends with whitespace |
| `Text.TrimStart` | react.js:186 | the result is a suffix of the input; everything dropped is ECMAScript whitespace; the result does not start with whitespace |
| `Text.TrimEnd` | react.js:186 | the result is a prefix of the input; everything dropped is whitespace; the result does not end with whitespace |
| `Text.TrimEmptyIffBlank` | react.js:186 | `taskInput.trim()` is empty (falsy) exactly when every character is whitespace |
| `Text.Lower` | react.js:194 | `toLowerCase` on ASCII: same length, each character mapped by `LowerChar` (upper-case letters shifted by 32, others kept), so no upper-case ASCII letter remains |
| `Text.LowerIdempotent` | react.js:194 | lowering twice equals lowering once; a string with no upper-case ASCII letter is unchanged by lowering |
| `Text.LowerAppend` | react.js:194 | lowering a concatenation equals concatenating the lowered parts |
| `Text.Contains` | react.js:199 | `includes`: the keyword occurs at some position; the empty keyword occurs in every input; a string occurs in itself; an occurring keyword is no longer than the input |
| `Text.AbsentChar` | react.js:199 | `includes` is false when some character of the keyword does not occur in the input |
| `Matcher.Matched` | react.js:199 | the filtered keyword list is no longer than the keyword list; a keyword is in it exactly when it is listed and occurs in the input |
| `Matcher.Score` | react.js:199 | `filter(...).length` is at most the number of keywords; `ScorePositive` and `ScoreZero` give when it is positive |
| `Matcher.ScoreCountsPositions` | react.js:199 | the score equals the number of keyword positions whose keyword occurs in the input, so it is at most the number of keywords; repeated occurrences in the input add nothing |
| `Matcher.ScorePositive` | react.js:199 | one occurring keyword makes the score positive |
| `Matcher.ScoreZero` | react.js:199 | a list with no occurring keyword scores 0 |
| `Matcher.ScoreSnoc` | react.js:199 | appending a keyword adds 1 to the score exactly when that keyword occurs |
| `Matcher.ScoreAppend` | react.js:199 | the score of a concatenated keyword list is the sum of the two scores |
| `Matcher.IsInstalled` | react.js:200 | `installedExtensions.find(e => e.id === id)` succeeds; nothing is installed in an empty list |
| `Matcher.IsInstalledIndex` | react.js:200 | the `find` by id succeeds exactly when some index of the installed list holds an entry with that id |
| `Matcher.IsInstalledSnoc` | react.js:224 | after appending an extension, an id is installed exactly when it was before or is that extension's id |
| `Matcher.KeywordPass` | react.js:195-204 | after the pass, `bestMatch` is set exactly when `maxScore > 0`; the kept entry is in the list, is not installed, and scores `maxScore`, so installed entries never raise `maxScore` |
| `Matcher.KeywordPassBound` | react.js:196-204 | `maxScore` is at least the score of every uninstalled entry |
| `Matcher.KeywordPassWinner` | react.js:200-203 | the kept entry sits at a first-best position: uninstalled, positive score, not beaten by any uninstalled entry, and strictly above every earlier uninstalled entry |
| `Matcher.KeywordPassIsFirstBest` | react.js:196-204 | the pass keeps an entry exactly when a first-best position exists, and then it keeps the entry at that position; an equal later score never displaces an earlier one |
| `Matcher.KeywordPassNone` | react.js:196-204 | the pass keeps nothing exactly when every uninstalled entry scores 0, so an installed high scorer never blocks an uninstalled one |
| `Matcher.FirstUninstalled` | react.js:213-215 | `find` returns nothing exactly when every entry is installed; otherwise it returns an uninstalled entry before which every entry is installed |
| `Matcher.Suggestion` | react.js:194-217 | the suggestion, when there is one, is a registry record |
| `Matcher.Suggest` | react.js:194-219 | the `forEach` loop over the registry plus the fallback chain computes exactly `Suggestion` of the input and the installed list |
| `Matcher.SuggestionByKeywords` | react.js:196-204 | when an uninstalled entry scores above 0, the suggestion is the first-best registry entry |
| `Matcher.SuggestionFallback` | react.js:207-216 | when no uninstalled entry scores, the rules apply in this order: "visual"/"organize" gives `moodBoard`; else "color"/"design" gives `colorPalette`; else the first uninstalled registry entry |
| `Matcher.FallbackTargetsInstalled` | react.js:207-211 | when these fallbacks fire, "visual" implies `moodBoard` is installed, and "color" or "design" implies `colorPalette` is installed |
| `Matcher.InstalledOnlyByFallback` | react.js:200-215 | an installed extension is suggested only as `moodBoard` by "visual"/"organize" or as `colorPalette` by "color"/"design" |
| `Matcher.SuggestionNoneIff` | react.js:207-219 | there is no suggestion exactly when all four entries are installed and none of "visual", "organize", "color", "design" occurs |
| `Scenarios.VisualSuggestsInstalledMoodBoard` | react.js:207-209 | with `moodBoard` installed, "visual" suggests the installed `moodBoard` |
| `Scenarios.OrganizeSuggestsMoodBoard` | react.js:207-209 | "organize" matches no keyword, and on an empty workspace it suggests `moodBoard` |
| `Scenarios.MoodArtTieGoesToDrawing` | react.js:194-204 | "Mood Art" scores 1 for `drawing` and 1 for `moodBoard`; the earlier `drawing` wins, and upper case is ignored |
| `Scenarios.MoodArtInstalledDrawingDoesNotBlock` | react.js:200 | with `drawing` installed, "Mood Art" suggests `moodBoard` |
| `Scenarios.SketchWithDrawingInstalledSuggestsTextEditor` | react.js:212-215 | with `drawing` installed, "sketch" suggests `textEditor`, the first uninstalled registry entry |
| `Scenarios.AllInstalledNoSuggestion` | react.js:213-219 | with all four installed, "paint" gets no suggestion |
| `App.Occurrences` | react.js:200 | the count of entries with an id is 0 exactly when the `find` by id fails |
| `App.RemoveById` | react.js:230 | an entry is kept exactly when it was there and has a different id; the length drops by the number of entries with that id |
| `App.RemoveByIdAppend` | react.js:230 | filtering distributes over concatenation, so kept entries stay in their original order |
| `App.RemoveAbsentIsIdentity` | react.js:229-231 | removing an id that is not installed leaves the list unchanged |
| `App.RemoveByIdCounts` | react.js:229-231 | after removal no entry has the id, and the count of every other id is unchanged |
| `App.InstallAddsOccurrence` | react.js:224 | appending raises the count of the extension's id by one, whether or not it was already installed |
| `App.Workspace.constructor` | react.js:180-183 | starts with empty input, no suggestion and no installed extensions |
| `App.Workspace.SetTaskInput` | react.js:251 | the input becomes the typed text; suggestion and list are unchanged |
| `App.Workspace.Analyze` | react.js:185-221 | input that trims to "" changes nothing; otherwise the suggestion becomes `Suggestion(taskInput, installed)`; input and list are unchanged |
| `App.Workspace.Install` | react.js:223-227 | the list becomes the old list plus the extension at the end, with no duplicate check; suggestion cleared; input set to "" |
| `App.Workspace.Remove` | react.js:229-231 | the list becomes `RemoveById` of the old list; suggestion and input are unchanged |
| `App.BlankInputIsIgnored` | react.js:186 | analysing whitespace-only input leaves the suggestion empty |

## Left out

- The one-second `setTimeout` wait and the `isAnalyzing` flag (react.js:188, 192, 220). `Analyze` is one atomic step, so overlapping analyses and stale closures are not modelled.
- The early `setSuggestion(null)` (react.js:189). Within the atomic step it is immediately overwritten by the result.
- Names, descriptions, icons and view components of the registry records. They play no part in matching.
- All rendering (react.js:233-335), including the button's `disabled` gating (react.js:258).
- The widget internals: the drawing canvas, the text area, random colours and mood-board cards (react.js:41-176). They involve I/O, randomness, clocks and floating point.
- Text.Lower: folds only ASCII `A`-`Z`. JavaScript's full Unicode `toLowerCase` is not modelled. Some non-ASCII characters lower to ASCII (KELVIN SIGN to `k`), and some change length (`İ`); the model handles neither.
- Strings: a Dafny `string` is a sequence of Unicode scalar values, while a JavaScript string is a sequence of UTF-16 code units. Matching is the same here because every keyword is ASCII and every code point `trim` strips lies in the Basic Multilingual Plane. An input holding a lone surrogate cannot be represented.
- `Text.LowerIdempotent`, `Extensions.RegistryIdsDistinct` and `Extensions.RegistryKeywordsLowerCase` are stand-alone facts about the model; no other proof uses them.

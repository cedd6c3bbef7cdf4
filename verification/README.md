# Live character counter — a Dafny model of its logic

The live character counter is a single browser script (`style.js`) behind a
page with two text boxes: a free "character counter" and a "message counter"
capped at 100 characters. As the user types, each box shows its length in a
badge, a heading that depends on the length, and statistics of the text
(words, letters, digits, special characters). Both texts and a light/dark
theme survive reloads through `localStorage`, and each box has a clear button.

This project models the logic under that wiring:

- `chars.dfy` (`Chars`): the character classes of the script's regular
  expressions, `[a-zA-Z]`, `[0-9]`, `[^a-zA-Z0-9\s]`, and ECMAScript
  whitespace (`\s`, which `trim` also uses), by code point.
- `strings.dfy` (`Strings`): `String.prototype.trim` and `split(/\s+/)`.
- `text_stats.dfy` (`TextStats`): `analyzeText`, with an independent
  scanning definition of "number of words" and the lemmas connecting them.
- `decimal.dfy` (`Decimal`): how a length is printed into a badge or heading.
- `storage.dfy` (`Storage`): `saveToLocalStorage` / `loadFromLocalStorage`
  over a `map<string, string>`, with the two `try`/`catch` failure paths;
  whether a write goes through is decided call by call.
- `counters.dfy` (`Counters`): the length-driven branches of
  `updateCharInput` and `updateMsgInput` (state, heading, badge, style).
- `page.dfy` (`Page`): start-up restore, the `input` handlers, the clear
  buttons and the theme toggle as functions on an immutable page state, and
  the invariant that the store holds what a reload needs as long as the
  store can be read and every write goes through.

The script itself never checks the message length (the 100-character cap
comes from the page's markup), so the message field carries no length
invariant here: `Page.Edit` accepts any text and `Counters.MsgCounter`
handles every length, including lengths past 100 restored from the store.

## Model

| member | source | states |
|---|---|---|
| Chars.Classify | style.js:21-23 | the three counted classes and whitespace are pairwise disjoint and cover every character |
| Strings.Trim | style.js:20 | `trim()` yields "" exactly for all-whitespace text, and otherwise a text that neither starts nor ends with whitespace |
| Strings.TrimPadded | style.js:20 | `trim()` removes exactly the surrounding whitespace: padding a text that neither starts nor ends with whitespace and trimming it gives the text back |
| Strings.Split | style.js:20 | `split(/\s+/)` gives at least one piece; SplitPieces, SplitFirstPiece and SplitKeepsNonWhitespace fix the pieces on every text |
| Strings.SplitPieces | style.js:20 | `split(/\s+/)` gives at least one piece, one piece exactly when there is no whitespace, whitespace-free pieces, inner pieces non-empty, an empty first (last) piece exactly when the text starts (ends) with whitespace |
| Strings.SplitFirstPiece | style.js:20 | the first piece is the longest whitespace-free prefix; either it is the whole text and the only piece, or a whitespace run follows and the other pieces are the split of what comes after that run (this fixes the result on every text) |
| Strings.SplitKeepsNonWhitespace | style.js:20 | the pieces written one after the other are exactly the text's non-whitespace characters, in order |
| TextStats.CountMatching | style.js:21-23 | `(text.match(re) \|\| []).length` is at most the length, zero exactly when no character matches, the length exactly when all do |
| TextStats.CountAppend | style.js:21-23 | the count of a concatenation is the sum of the counts; with the single-character case of `CountMatching` this fixes every count |
| TextStats.SplitCountsRuns | style.js:20 | a text ending in non-whitespace splits into one piece more than the runs a scan counts after its first character, which gives the piece count of every trimmed text |
| TextStats.WordCount | style.js:20 | the word count is zero exactly when the text is all whitespace (including "") |
| TextStats.Analyze | style.js:19-26 | words are 0 exactly when the text is all whitespace (including ""), and such a text gives (0,0,0,0) |
| TextStats.ClassesPartition | style.js:21-23 | letter, digit, special and whitespace counts add up to the length |
| TextStats.ClassesCoverNonWhitespace | style.js:21-23 | letters + numbers + special equals the length minus the whitespace count, so it is at most the length, with equality exactly when the text has no whitespace |
| TextStats.WordsAreRuns | style.js:20 | the word count equals the number of maximal non-whitespace runs, defined by a left-to-right scan |
| TextStats.WordsIgnorePadding | style.js:20 | adding leading or trailing whitespace does not change the word count |
| TextStats.WordsCollapseSpaces | style.js:20 | replacing one non-empty whitespace separator by another does not change the word count |
| TextStats.WordsBound | style.js:20 | words do not exceed the non-whitespace characters, and are positive exactly when some character is not whitespace |
| TextStats.AnalyzeEmpty | style.js:19-26 | "" gives (0,0,0,0) |
| TextStats.AnalyzeMixed | style.js:19-26 | "abc123!@#" gives (1,3,3,3) |
| TextStats.WordsOfPaddedText | style.js:20 | "  hello   world  " has 2 words |
| TextStats.ClassesOfSpacedLetters | style.js:21-23 | in "a b c" the three classes add up to 3 |
| Decimal.NatToString | style.js:95-96 | a length prints as a non-empty digit string without leading zero that denotes the length |
| Decimal.NatToStringInjective | style.js:95-96 | different lengths never show the same badge number |
| Decimal.NatToStringOfValue | style.js:96 | every canonical digit string is the printing of the number it denotes |
| Storage.Load | style.js:55-62 | the stored string, or "" when the key is absent or reading throws |
| Storage.Save | style.js:47-53 | when `setItem` goes through, one key is set to the value and every other key is kept; when it throws, the store is unchanged |
| Storage.LoadAfterSave | style.js:47-62 | on a readable store, loading a key after a save that went through gives the saved value |
| Storage.LoadOtherAfterSave | style.js:47-62 | saving one key, whether or not the write goes through, does not change what another key loads |
| Storage.SaveOverwrites | style.js:47-53 | the last save to a key that goes through wins |
| Counters.CharCounter | style.js:86-99 | the badge always prints the length ("0" when empty); success style and statistics exactly when non-empty; "Character" is plural exactly when the length exceeds one |
| Counters.MsgCounter | style.js:158-193 | Empty at 0, KeepWriting for 1..80, AlmostThere for 81..99, LimitReached from 100; warning style exactly past 80; the heading is "Express Your Thoughts", "Keep Writing...", "Almost There!" or "Limit Reached!" by state; the badge prints the length capped at 100, over 100 |
| Counters.MsgUrgencyMonotone | style.js:166-193 | a longer message is never in a less urgent state |
| Counters.MsgBadgeCount | style.js:168-189 | the number before " / 100" denotes min(length, 100) |
| Page.Startup | style.js:236-241 | dark mode is on exactly when the stored theme is "dark"; each input shows what its key loads (lines 76 and 148) |
| Page.Edit | style.js:81-84 | an `input` event shows the new value and saves it under the input's key (also lines 153-156) |
| Page.Clear | style.js:122-131 | a value that trims to "" leaves page and store untouched; otherwise the value becomes "" and "" is saved; the other input and the theme never change (also lines 218-227) |
| Page.ToggleTheme | style.js:243-255 | dark mode flips, the texts stay, and "dark" or "light" is saved to match the new mode |
| Page.ClearIdempotent | style.js:122-131 | clearing twice equals clearing once |
| Page.ClearPersistsEmpty | style.js:218-227 | after a clear that acts and whose write goes through, on a readable store, the key loads "" and the input is "" |
| Page.ToggleInvolution | style.js:243-255 | two toggles restore the theme flag and leave the texts alone |
| Page.ToggleStoresTheme | style.js:243-255 | after a toggle whose write goes through, on a readable store, the stored theme is "dark" exactly when dark mode is on |
| Page.FailedWriteLosesEdit | style.js:47-53 | an edit whose `setItem` throws leaves the store behind the page: a reload would show the previous value |
| Page.StepConsistent | style.js:122-131 | on a readable store, every handler whose write goes through (input at lines 81-84 and 153-156, clear, toggle at lines 243-255) keeps the store holding exactly what start-up would restore |
| Page.RunConsistent | style.js:47-62 | any sequence of handler calls whose writes all go through, on a readable store, keeps the store in step with the page |
| Page.ReloadRestoresSession | style.js:236-241 | after start-up on a readable store and any session whose writes all go through, reloading restores both inputs and the theme exactly |

## Left out

- DOM lookups, `innerHTML` icon markup, CSS class names and `style.transform` changes, and the keydown/keyup scale feedback: presentation only. Headings are modelled as their text without the icon markup.
- `showToast` and every `setTimeout`: timers and notifications. The clear handler's "Already empty!" path is modelled as the no-op it is on the state.
- `copyToClipboard` and the copy buttons' handlers: an asynchronous browser call.
- The progress bar width `(length / maxLength) * 100`: floating point rendered into CSS. In real arithmetic it is the length, but in binary64 it can be off by one rounding step (7 gives 7.000000000000001).
- `updateStats`: it only writes the four counts into the page; `statsActive` in the counter views says when the counts are refreshed.
- `console.error` in the storage helpers: logging. The thrown errors themselves are modelled: a failing `setItem` per call (the `written` flag of each save and event), a failing `getItem` by the store's `canRead`, which is fixed for the session because the script reads only at start-up.
- Lengths and characters are Unicode scalar values, not UTF-16 code units: a character outside the Basic Multilingual Plane counts once here, while the script's `length` and its `[^a-zA-Z0-9\s]` count its two surrogate halves.
- The 100-character cap on the message box comes from the page's markup, which is not part of this model.
- Start-up only refreshes a counter's view when its restored value is non-empty; the model keeps the restored page state and leaves the view to the `Counters` functions.
- Strings.Split: its own ensures says only that there is at least one piece; the shape and contents of the pieces are proved in the lemmas SplitPieces, SplitFirstPiece and SplitKeepsNonWhitespace, because stating them on the recursive function made every unfolding re-prove them.
- Page.ReloadRestoresSession, Page.RunConsistent: the store changes only through this page's handlers; other same-origin tabs sharing `localStorage` (the script has no `storage` listener) and the browser clearing it are not modelled, so a reload can show another tab's value where these lemmas promise this page's.

# Tarteel client-side rules, modelled in Dafny

Tarteel is a Quran reader written in React. Apart from fetching and
rendering, its logic is a handful of small rules that run in the browser.
This project models those rules and proves their properties:

- **Surah search** (`src/components/app-sidebar.tsx`,
  `src/components/quran-sidebar.tsx`). `normalizeArabic` is a chain of
  eight global single-character `replace` calls followed by `toLowerCase`.
  The surah filter keeps a surah when its lower-cased English name or the
  lower-cased translation of its name contains the lower-cased raw query,
  or when its normalised Arabic name contains the normalised query. The
  model defines the chain step by step, in source order (module
  `AppSidebar`). It proves that the chain equals one per-character rewrite
  table. From that it proves the character-set guarantees, the length
  bound, distributivity over `+` and idempotence. The second sidebar's
  copy (module `QuranSidebar`) has its own character classes and is
  written as a folded rule list. It is proved equal to the first on every
  input, for both the normaliser and the filter.
- **Duas page** (`src/components/pages/duas.tsx`): the ten-entry table,
  the category buttons, and `filteredDuas`. A dua is kept when its
  category matches and its title, transliteration or translation contains
  the query, ignoring ASCII case.
- **Hijri calendar page** (`src/components/pages/calendar.tsx`): the month
  table, the page state as a class (`currentMonth`, `currentYear`,
  `selectedDate`), `navigateMonth`, the day-grid loop `renderCalendarDays`,
  `hasEvent` and `selectedDateEvents`.
- **Reader header** (`src/components/app-header.tsx`): the font-size
  updaters, their disabled guards, and the dark-mode toggle.
- **Quran data hook** (`src/use-quran-data.ts`): the merge of Arabic ayahs
  with translation ayahs, and the local-storage cache key. The merge
  appears twice in the hook, once in the background refresh (lines 89-95)
  and once on a cache miss (lines 118-124). Each copy has its own member,
  and the two are proved equal.

Modules `JsString` and `JsArray` model the JavaScript built-ins the code
uses: the `\s` class, `toLowerCase`, `replace(/[class]/g, …)`, `includes`,
the decimal rendering of a safe non-negative integer in a template literal, and
`Array.prototype.filter`.

Strings are sequences of code points (`seq<char>`). `toLowerCase` is
modelled for ASCII `A`–`Z` only. Whitespace is the ECMAScript `\s` set.

Nothing in the modelled files locates or highlights match positions. The
surah filter uses three criteria: the English name and the name translation,
each matched raw and lower-cased, and the Arabic name, matched normalised.

## Model

| member | source | states |
|---|---|---|
| `AppSidebar.NormalizeArabic` | src/components/app-sidebar.tsx:41-52 | No contract of its own: the eight replacements and `toLowerCase` in source order. Its properties are carried by `NormalizeArabicIsOnePass`, `NormalizedIsCanonical`, `NormalizeArabicConcat` and `NormalizeArabicIdempotent` |
| `AppSidebar.NormalizeCharSpec` | src/components/app-sidebar.tsx:43-51 | The per-character rule table deletes exactly the diacritics U+064B–U+065F, U+0670, `-` and `\s` characters. It emits at most one character, only canonical ones, and leaves canonical characters unchanged |
| `AppSidebar.NormalizeArabicChar` | src/components/app-sidebar.tsx:42-51 | On a one-character string the nine-step chain does what the rule table says for that character |
| `AppSidebar.NormalizeArabicConcat` | src/components/app-sidebar.tsx:42-51 | Every rewrite matches a single character, so `normalize(a + b) == normalize(a) + normalize(b)` |
| `AppSidebar.NormalizeArabicIsOnePass` | src/components/app-sidebar.tsx:42-51 | The literal nine-step chain equals one left-to-right per-character pass |
| `AppSidebar.NormalizedIsCanonical` | src/components/app-sidebar.tsx:43-51 | The output has no diacritic, none of إأآىةؤئ, no `-`, no whitespace and no A–Z, and is no longer than the input |
| `AppSidebar.NormalizeArabicIdempotent` | src/components/app-sidebar.tsx:42-51 | `normalize(normalize(s)) == normalize(s)` |
| `AppSidebar.NormalizeRemovable` | src/components/app-sidebar.tsx:43-50 | Text made only of diacritics, dashes and whitespace, the empty text included, normalises to "" |
| `AppSidebar.NormalizeIgnoresInsertedRemovable` | src/components/app-sidebar.tsx:43-50 | Inserting diacritics, dashes or whitespace anywhere does not change the normal form |
| `AppSidebar.NormalizeAddsNoLatin` | src/components/app-sidebar.tsx:42-51 | The normaliser never produces a Latin letter absent from the input in both cases |
| `AppSidebar.AhmadExample` | src/components/app-sidebar.tsx:43-44 | "أَحْمَد" and "احمد" normalise to the same string |
| `AppSidebar.AhmadVowelled` | src/components/app-sidebar.tsx:43-44 | "أَحْمَد" normalises to "احمد": the marks are deleted and the hamza alef becomes bare alef |
| `AppSidebar.EnglishNameMatches` | src/components/app-sidebar.tsx:58 | No contract of its own: the lower-cased English name includes the lower-cased raw query. `EnglishCriterionSeesDashes` shows it uses the raw query |
| `AppSidebar.ArabicNameMatches` | src/components/app-sidebar.tsx:59 | No contract of its own: the normalised name includes the normalised query. `ArabicCriterionIgnoresRemovableInQuery` and `ArabicCriterionIgnoresRemovableInName` carry its properties |
| `AppSidebar.TranslationMatches` | src/components/app-sidebar.tsx:60-62 | No contract of its own: the lower-cased name translation includes the lower-cased raw query |
| `AppSidebar.SurahMatches` | src/components/app-sidebar.tsx:57-62 | No contract of its own: the disjunction of the three criteria. `FilteredSurahs` states that a surah is kept iff it holds |
| `AppSidebar.FilteredSurahs` | src/components/app-sidebar.tsx:55-63 | The result is an order-preserving subsequence of the surahs. A surah is in it iff it is in the list and meets one of the three criteria, and each kept surah keeps its multiplicity |
| `AppSidebar.RemovableQueryKeepsAll` | src/components/app-sidebar.tsx:55-63 | A query that is empty or made only of whitespace, dashes or diacritics keeps every surah, unchanged and in order |
| `AppSidebar.ArabicCriterionIgnoresRemovableInQuery` | src/components/app-sidebar.tsx:55-59 | Queries that differ by inserted whitespace, dashes or diacritics get the same Arabic-name verdict |
| `AppSidebar.ArabicCriterionIgnoresRemovableInName` | src/components/app-sidebar.tsx:59 | Names that differ by inserted diacritics, dashes or whitespace match exactly the same queries under the Arabic-name criterion |
| `AppSidebar.EnglishCriterionSeesDashes` | src/components/app-sidebar.tsx:58-62 | The English criteria use the raw query. "l-f" and "lf" normalise alike, yet only "l-f" keeps Al-Faatiha |
| `QuranSidebar.RewritesAgreeWithChain` | src/components/quran-sidebar.tsx:33-41 | Folding this copy's rule list, with its own classes, gives the same text as the other sidebar's eight replacements in the same order: each class holds the same characters and each replacement letter is the same |
| `QuranSidebar.Rewrites` | src/components/quran-sidebar.tsx:34-41 | A constant: the eight `.replace` steps, each a class and its replacement, in source order. `RewritesAgreeWithChain` carries its property |
| `QuranSidebar.ApplyRewrites` | src/components/quran-sidebar.tsx:33-41 | No contract of its own: applies a list of global replacements in order. `RewritesAgreeWithChain` states what it does with this copy's list |
| `QuranSidebar.NormalizeArabic` | src/components/quran-sidebar.tsx:32-43 | This sidebar's normaliser agrees with the application sidebar's on every input |
| `QuranSidebar.FilteredSurahs` | src/components/quran-sidebar.tsx:45-53 | The result is an order-preserving subsequence, and it is the same list the application sidebar gives for the same surahs and query |
| `QuranSidebar.SurahMatches` | src/components/quran-sidebar.tsx:47-52 | No contract of its own: the three criteria with this copy's normaliser. `QuranSidebar.FilteredSurahs` carries its property |
| `QuranSidebar.EmptyQueryKeepsAll` | src/components/quran-sidebar.tsx:45-53 | The empty query keeps every surah |
| `QuranSidebar.ArabicVerdictIgnoresRemovable` | src/components/quran-sidebar.tsx:45-49 | With this copy's normaliser, inserting whitespace, dashes or diacritics into the query or the name leaves the Arabic-name verdict unchanged |
| `JsString.AsciiLower` | src/components/app-sidebar.tsx:51 | Lower-casing one character maps each of A–Z to the letter 32 code points higher in a–z, leaves no A–Z, and changes nothing else |
| `JsString.ToLowerCase` | src/components/app-sidebar.tsx:51 | `toLowerCase` keeps the length and lower-cases each character in place |
| `JsString.ToLowerCaseConcat` | src/components/app-sidebar.tsx:51 | Lower-casing distributes over `+` |
| `JsString.SameUpToAsciiCaseLowerEqual` | src/components/pages/duas.tsx:160-162 | Two strings lower-case alike iff they differ only in ASCII case |
| `JsString.ReplaceAll` | src/components/app-sidebar.tsx:43-50 | No contract of its own: `replace(/[class]/g, repl)` left to right. `ReplaceAllConcat`, `ReplaceAllCongruent` and `ReplaceAllShort` carry its properties |
| `JsString.ReplaceAllShort` | src/components/app-sidebar.tsx:43-50 | On the empty text a replacement gives "", and on one character it gives the replacement or the character |
| `JsString.ReplaceAllConcat` | src/components/app-sidebar.tsx:43-50 | A global single-character replacement distributes over `+` |
| `JsString.ReplaceAllCongruent` | src/components/quran-sidebar.tsx:34-41 | Two classes that agree on every character of the text replace it the same way; this ties each class of the second sidebar to the first's |
| `JsString.IsWhitespace` | src/components/app-sidebar.tsx:50 | No contract of its own: the ECMAScript `\s` class, the WhiteSpace and LineTerminator code points (also quran-sidebar.tsx:41). `NormalizeCharSpec` and `NormalizedIsCanonical` carry the guarantee that none is left |
| `JsString.Includes` | src/components/app-sidebar.tsx:58-62 | No contract of its own: `includes`, as a prefix test at each position. `IncludesIffOccurs` ties it to the slice definition |
| `JsString.IncludesIffOccurs` | src/components/app-sidebar.tsx:58-62 | `includes` holds iff the needle equals some slice of the haystack |
| `JsString.IncludesOnlyPresentChars` | src/components/app-sidebar.tsx:58-62 | A needle with a character the haystack lacks is not included |
| `JsString.IncludesTransitive` | src/components/pages/duas.tsx:159-162 | A piece of a piece of a string is a piece of the string |
| `JsString.ToLowerCaseKeepsIncludes` | src/components/pages/duas.tsx:159-162 | An occurrence survives lower-casing both sides |
| `JsString.Decimal` | src/use-quran-data.ts:71 | The exact decimal digits of a number: non-empty, all digits, with no leading zero. For safe integers (at most 2^53 − 1) this is the template-literal rendering |
| `JsString.ParseDecimalInverts` | src/use-quran-data.ts:71 | Reading the decimal text back gives the number |
| `JsString.DecimalInjective` | src/use-quran-data.ts:71 | Distinct numbers have distinct decimal texts |
| `JsArray.Filter` | src/components/app-sidebar.tsx:56-63 | `filter` returns an order-preserving subsequence. An element is in it iff it is in the input and passes, and every passing element keeps its multiplicity |
| `JsArray.FilterKeepsAll` | src/components/app-sidebar.tsx:56-63 | When every element passes, `filter` returns the input unchanged |
| `JsArray.FilterCongruent` | src/components/quran-sidebar.tsx:46-53 | Predicates that agree on every element filter alike |
| `JsArray.FilterMonotone` | src/components/pages/duas.tsx:156-164 | A weaker predicate yields a list that contains the stronger one's result as a subsequence |
| `Duas.CategoryIds` | src/components/pages/duas.tsx:33-42 | A constant: the ids of the eight category buttons, "all" first. `TableShape` relates it to the table |
| `Duas.Table` | src/components/pages/duas.tsx:44-154 | A constant: the ten duas, field by field. `TableShape` and `InitialPageShowsTable` carry its properties |
| `Duas.MatchesCategory` | src/components/pages/duas.tsx:157-158 | No contract of its own: "all" or an exact category match. `CategoryCondition` carries its property |
| `Duas.Keeps` | src/components/pages/duas.tsx:156-163 | No contract of its own: the callback's `matchesCategory && matchesSearch`. `FilteredDuas` states that a dua is kept iff it holds, each as often as it occurs |
| `Duas.MatchesSearch` | src/components/pages/duas.tsx:159-162 | No contract of its own: the lower-cased query is included in one of the three lower-cased text fields. `SearchIsCaseInsensitive`, `SearchNarrows` and `ArabicAndReferenceIgnored` carry its properties |
| `Duas.FilteredDuas` | src/components/pages/duas.tsx:156-164 | The result is an order-preserving subsequence of the duas. A dua is in it iff it matches both the category and the search, and each kept dua keeps its multiplicity |
| `Duas.TableShape` | src/components/pages/duas.tsx:33-154 | The table holds ten duas with ids 1..10, each filed under a category button other than "all" |
| `Duas.CategoryCondition` | src/components/pages/duas.tsx:157-158 | Category "all" filters by the search alone. Any other category keeps only duas whose category equals it exactly |
| `Duas.InitialStateKeepsAll` | src/components/pages/duas.tsx:156-164 | Category "all" with the empty query returns the list unchanged |
| `Duas.InitialPageShowsTable` | src/components/pages/duas.tsx:30-164 | In the initial state (query "", category "all") the page shows all ten duas of the table, in table order |
| `Duas.ArabicAndReferenceIgnored` | src/components/pages/duas.tsx:156-164 | The `arabic` and `reference` fields never affect whether a dua is kept |
| `Duas.SearchIsCaseInsensitive` | src/components/pages/duas.tsx:160-162 | Queries that differ only in ASCII case give the same list |
| `Duas.SearchNarrows` | src/components/pages/duas.tsx:159-162 | If q′ is a substring of q, a dua matched by q is matched by q′ |
| `Duas.FilterNarrows` | src/components/pages/duas.tsx:156-164 | If q′ is a substring of q, the list for q is a subsequence of the list for q′ |
| `Calendar.Today` | src/components/pages/calendar.tsx:176 | A constant: the mock current day, 15. `IslamicCalendar.RenderCalendarDays` flags exactly the cell of that day as today |
| `Calendar.IslamicMonths` | src/components/pages/calendar.tsx:33-173 | A constant: the twelve months with names, day counts and events. `MonthTableDays`, `MonthTableEventDates` and `MonthTableTotal` carry its properties |
| `Calendar.MonthTableDays` | src/components/pages/calendar.tsx:33-173 | The month table has 12 months whose lengths alternate 30, 29, starting with Muharram at 30 |
| `Calendar.MonthTableEventDates` | src/components/pages/calendar.tsx:33-173 | Every event's date lies in 1..days of its month |
| `Calendar.AlternatingTotal` | src/components/pages/calendar.tsx:33-173 | An even number of months alternating 30 and 29 days has 59 days per pair |
| `Calendar.MonthTableTotal` | src/components/pages/calendar.tsx:33-173 | The table's year has 354 days |
| `Calendar.Navigate` | src/components/pages/calendar.tsx:178-193 | Navigation moves the count year*12+month by exactly +1 for "next" and −1 for "prev", and keeps the month in 0..11 |
| `Calendar.NavigateRoundTrip` | src/components/pages/calendar.tsx:178-193 | "next" then "prev", and "prev" then "next", restore (month, year) |
| `Calendar.MonthIndexInjective` | src/components/pages/calendar.tsx:178-193 | With months in 0..11, year*12+month determines (month, year) |
| `Calendar.NavigateAllIndex` | src/components/pages/calendar.tsx:178-195 | Any run of presses keeps the month in 0..11 and moves year*12+month by the number of "next" presses minus the number of "prev" presses |
| `Calendar.HasEvent` | src/components/pages/calendar.tsx:202-204 | `some` holds iff some event of the month falls on the day |
| `Calendar.SelectedDateEvents` | src/components/pages/calendar.tsx:235-237 | With a (truthy) day selected, the result is an order-preserving subsequence of the month's events holding exactly the events on that day, each as often as in the table. With nothing selected it is empty |
| `Calendar.IslamicCalendar.constructor` | src/components/pages/calendar.tsx:29-31 | The page starts on month 4 of 1446 with no day selected |
| `Calendar.IslamicCalendar.CurrentMonthData` | src/components/pages/calendar.tsx:175 | No contract of its own: the table entry of the current month, defined whenever the state is valid |
| `Calendar.IslamicCalendar.NavigateMonth` | src/components/pages/calendar.tsx:178-195 | Month 11 "next" goes to month 0 of the next year, and month 0 "prev" goes to month 11 of the previous year. Otherwise only the month moves by one. The count year*12+month moves by exactly one, the month stays valid and the selection is cleared |
| `Calendar.IslamicCalendar.SelectDate` | src/components/pages/calendar.tsx:211 | Clicking a day selects it, keeps the state valid, and leaves month and year unchanged |
| `Calendar.IslamicCalendar.RenderCalendarDays` | src/components/pages/calendar.tsx:197-233 | The grid has exactly `days` cells numbered 1..days in order. A cell has an event iff some event of the month has its date, is today iff its day is 15, and is selected iff its day is the selected one. At most one cell is selected |
| `AppHeader.DecreasedSize` | src/components/app-header.tsx:92 | Decrease yields the larger of 12 and f−2, and propagates NaN |
| `AppHeader.IncreasedSize` | src/components/app-header.tsx:101 | Increase yields the smaller of 32 and f+2, and propagates NaN |
| `AppHeader.First` | src/components/app-header.tsx:92-93 | No contract of its own: `prev[0]` / `fontSize[0]`, where reading an empty array gives `undefined`, which arithmetic turns into NaN. The bounds 12 and 32 are the constants `MinFontSize` and `MaxFontSize`. `UpdatersReadOnlyFirst` and `DisabledIffNoOp` carry its properties |
| `AppHeader.DecreaseFontSize` | src/components/app-header.tsx:92 | No contract of its own: the one-element array of `DecreasedSize` of element 0. `UpdatersReadOnlyFirst`, `PressesStayInRange` and `StepsUndo` carry its properties |
| `AppHeader.IncreaseFontSize` | src/components/app-header.tsx:101 | No contract of its own: the one-element array of `IncreasedSize` of element 0, with the same lemmas |
| `AppHeader.DecreaseDisabled` | src/components/app-header.tsx:93 | No contract of its own: `fontSize[0] <= 12`, false for NaN. `DisabledIffNoOp` carries its property |
| `AppHeader.IncreaseDisabled` | src/components/app-header.tsx:102 | No contract of its own: `fontSize[0] >= 32`, false for NaN. `DisabledIffNoOp` carries its property |
| `AppHeader.UpdatersReadOnlyFirst` | src/components/app-header.tsx:92-101 | Both updaters build a one-element array from element 0 alone. Later elements make no difference |
| `AppHeader.PressesStayInRange` | src/components/app-header.tsx:92-101 | From a size in [12, 32], any sequence of presses ends on one size in [12, 32], and an even size stays even |
| `AppHeader.DisabledIffNoOp` | src/components/app-header.tsx:92-102 | Within [12, 32], each button is disabled (f ≤ 12, f ≥ 32) exactly when pressing it would change nothing |
| `AppHeader.StepsUndo` | src/components/app-header.tsx:92-101 | Increase then decrease restores f for 12 ≤ f ≤ 30. Decrease then increase restores f for 14 ≤ f ≤ 32 |
| `AppHeader.ToggleDarkMode` | src/components/app-header.tsx:110 | The dark-mode button negates the mode |
| `AppHeader.ToggleTwiceRestores` | src/components/app-header.tsx:110 | Two presses restore the mode |
| `QuranData.TranslationAt` | src/use-quran-data.ts:93 | The i-th translation's text when it exists, otherwise "". An empty text falls back to "", which is the same value |
| `QuranData.MergeAyahs` | src/use-quran-data.ts:89-95 | The merged list has one entry per Arabic ayah. Entry i has the ayah's `numberInSurah` as id, its text, and the i-th translation's text or "" |
| `QuranData.MergeAyahsFetched` | src/use-quran-data.ts:118-124 | The cache-miss copy of the merge computes the same list as the background-refresh copy |
| `QuranData.MergeIgnoresExtraTranslations` | src/use-quran-data.ts:89-95 | Translation entries past the last Arabic ayah are never read |
| `QuranData.MergeWithoutTranslation` | src/use-quran-data.ts:89-95 | With no translation, each entry keeps id and text and has an empty translation |
| `QuranData.MergeSplits` | src/use-quran-data.ts:89-95 | The merge aligns by position: merging two halves against the matching halves gives the halves of the whole merge |
| `QuranData.AyahCacheKey` | src/use-quran-data.ts:71 | The key is "ayahs-" followed by the decimal surah number |
| `QuranData.AyahCacheKeyInjective` | src/use-quran-data.ts:71 | Distinct surah numbers give distinct keys |
| `QuranData.AyahCacheKeyParses` | src/use-quran-data.ts:71 | The digits after "ayahs-" read back as the surah number |

## Left out

- Fetching surahs and ayahs, `localStorage`, JSON parsing, and the loading, error and offline flags of `src/use-quran-data.ts`. These are browser I/O, and the background refresh chains are asynchronous and can race with a change of selection.
- `src/components/pages/qibla.tsx`: floating-point trigonometry, plus geolocation and device-orientation events.
- `src/components/pages/prayer-times.tsx` and `src/components/pages/dashboard.tsx`: hard-coded data, timers and locale date formatting.
- `src/App.tsx`: route wiring, with no logic to model.
- JSX, class names, icons, styling, and `toLocaleDateString` output. The day grid is modelled as one record of flags per button.
- The ayah search box of the header (`src/components/app-header.tsx`:59-64) only stores the string. None of the modelled files searches or highlights with it.
- JsString.ToLowerCase: does not model full Unicode case mapping (non-ASCII capitals and multi-character or context-sensitive mappings), only ASCII `A`–`Z`. Some proved properties hold only under this mapping: `AppSidebar.NormalizedIsCanonical`'s length bound fails for "İ" (U+0130), which JavaScript lower-cases to two code points, and `AppSidebar.NormalizeArabicConcat` and `JsString.ToLowerCaseConcat` fail for "ΑΣ", which lower-cases to "ας" with a final sigma while "Α" and "Σ" lower-cased apart give "ασ".
- JsString.AsciiLower: implements the ASCII-only mapping above; non-ASCII capitals are returned unchanged.
- AppHeader.DecreasedSize: models the font size as an integer or NaN (type `AppHeader.JsNumber`), not as a floating-point number, so fractional sizes are not covered.
- AppHeader.IncreasedSize: the same integer-or-NaN abstraction; fractional sizes are not covered.
- QuranData.AyahCacheKey: takes only non-negative integer surah numbers. Surah numbers in the data are 1..114. Negative or fractional numbers, with their `-` and `.` renderings, are not modelled. Integers above 2^53 − 1 (`Number.MAX_SAFE_INTEGER`) are not modelled either: JavaScript renders them with rounded digits padded with zeros, or from 10^21 in exponent form. For them the model's exact digits differ from the real key.
- JsString.Decimal: is JavaScript's number-to-text rendering only for safe integers (at most 2^53 − 1); above that it gives the exact digits, which JavaScript does not.
- The view-mode buttons of the header only store a choice and are not modelled.

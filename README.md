# gitcher — a Dafny model of the search page, bookmarks, charts and export

gitcher is a Next.js front end for exploring GitHub profiles. This project
models its client-side core in Dafny and proves properties of the model:

- **Search page** (`app/search/page.tsx`) — `Search.SearchPage`:
  - the page's React state as a class whose methods update it;
  - `searchUser`:
    - the blank-input guard;
    - the ten-minute profile cache in local storage;
    - the user request, then the repositories request;
    - rate-limit headers, the 403 cooldown, error messages and the write-through;
  - the cooldown countdown text (`getCooldownDisplay`);
  - the one-second cooldown ticker;
  - the submit button's enabling condition;
  - the low-remaining rate-limit alert.

  The pure function `Search.Search` is the specification: it gives one search's outcome (new state, new storage, endpoints requested). `SearchUser` is proved to produce exactly that outcome.
- **Bookmarks** (`components/user-bookmarks.tsx`) — `Bookmarks.UserBookmarks`:
  - at most ten bookmarked users, newest first;
  - mirrored under `github-bookmarks` in local storage;
  - the mount effect, the `isBookmarked` effect, `saveBookmarks`, `toggleBookmark` and `removeBookmark`.

  The list operations are the functions `WithBookmark`, `WithoutLogin` and `Toggled`.
- **Charts** (`components/github-charts.tsx`) — module `Charts`:
  - the language group-by and its top eight;
  - the ten most starred repositories with shortened labels;
  - the in-place sort by update time, its last twelve, and the monthly group-by;
  - size categories and their group-by;
  - the summary figures.

  `GitHubCharts` is the component body as a method over an array: the reduces run as loops, and the sort reorders the caller's array. `ChartsOf` states what one render computes.
- **Export** (`components/data-export.tsx`) — module `Export`:
  - the JSON document (`ExportDataOf`);
  - the CSV cells, rows and content;
  - both file names.
- **Shared pieces**:
  - `GitHub`: the user and repository records, totals, rounding to KB;
  - `Storage`: local storage as a class over a map from keys to decoded values;
  - `Seqs`: generic sequence operations — filter, sum, distinct, a group-by that looks up an entry by key and bumps it or appends one, a stable insertion sort with its top-n and last-n, split/join, decimal text.

The clock, local storage and the network are inputs:
- each `Date.now()` reading is a parameter;
- local storage is a `LocalStorage` object;
- each endpoint's answer is a `Response` value (status, the two rate-limit headers, the parsed body or its `error` field);
- locale-dependent date formatting is a function parameter (`monthOf`, `dateOf`, `exportedAt`).

A search during a cooldown is blocked only because the input and the button are disabled (lines 227 and 229):
- `searchUser` itself has no cooldown check.
- A call that reaches it anyway, e.g. through the deep-link effect, consults the cache and the network as usual.
- The model follows the code. `SearchUser` runs whatever the cooldown, and `SubmitEnabled` carries the button's condition.

## Model

| member | source | states |
|---|---|---|
| Search.CachedProfile | app/search/page.tsx:104-108 | a hit exactly when the page's cache test passes and the value under the cache key is a profile; a hit returns that stored profile, and its expiry is later than `now` |
| Search.WriteThrough | app/search/page.tsx:151-153 | the profile under the cache key and `later` plus ten minutes under the expiry key; every other key is unchanged |
| Search.ExpiryKeyCollision | app/search/page.tsx:104-117 | the cache key of "a-expiry" is the expiry key of "a"; after searching "a-expiry" and then "a", the page's cache test on "a-expiry" passes on a's expiry timestamp, while the corrected test reports a miss |
| Search.Search | app/search/page.tsx:94-170 | a blank name changes nothing and requests nothing; otherwise loading ends off and charts hidden; a cache hit requests nothing and shows the cached pair; a miss requests the user path, then the repos path only after the user request succeeds; rate-limit info is replaced only when both headers are present; any failure leaves storage alone, shows no user and sets the matching error; a 403 sets the cooldown to the reset time ×1000 (0 without a header); success shows both bodies and writes them through with an expiry ten minutes after `later` |
| Search.Fetched | app/search/page.tsx:120-169 | the miss branch of `Search`: its contract (requests, rate-limit info, errors, cooldown, write-through) is stated by `Search`'s ensures for the cache-miss case |
| Search.BlankIgnoresStorageAndNetwork | app/search/page.tsx:95 | a blank search's outcome does not depend on storage or on the responses, and it requests nothing |
| Search.IsBlank | app/search/page.tsx:95 | `!username.trim()`: every character is one that `trim` removes; `BlankIgnoresStorageAndNetwork` states that such a search does nothing |
| Search.SearchAgainHitsCache | app/search/page.tsx:108-117 | within ten minutes of a successful search, searching the same name again requests nothing and shows the same user and repositories |
| Search.ExpiredEntryIsRefetched | app/search/page.tsx:108-120 | an entry whose expiry is not after `now` is ignored: the first request is the user endpoint |
| Search.RateLimitWarningAfterSearch | app/search/page.tsx:123-130 | after a search that went to the network with both headers, the alert shows exactly when the remaining count is below 10; otherwise the alert is unchanged |
| Search.ShowsRateLimitWarning | app/search/page.tsx:239 | the alert condition; `RateLimitWarningAfterSearch` states when a search turns it on or off |
| Search.RateLimitRefusalDisablesSubmit | app/search/page.tsx:132-137 | after a 403, the button is enabled exactly when the typed name is not blank and there was no reset header or it was 0; the input is enabled exactly when there was no reset header or it was 0 |
| Search.SubmitEnabled | app/search/page.tsx:229 | the button's condition: not loading, a non-blank name and no non-zero cooldown; `RateLimitRefusalDisablesSubmit` and `TickReenablesSubmit` state how a 403 and a tick change it |
| Search.InputEnabled | app/search/page.tsx:227 | the input's condition: not loading and no non-zero cooldown; `RateLimitRefusalDisablesSubmit`, `TickReenablesSubmit` and `PastCooldownIsNeverCleared` state how a 403 and a tick change it |
| Search.RemainingSeconds | app/search/page.tsx:179 | the whole seconds left, rounded up: the least non-negative r with r·1000 ≥ cooldown − now |
| Search.CooldownDisplay | app/search/page.tsx:177-183 | a text exactly when the cooldown is set and non-zero |
| Search.CooldownDisplayReadsBack | app/search/page.tsx:180-182 | the text is two digit fields around one colon; the minutes field is non-empty with no leading zero (only 0 itself starts with one); the seconds field has two digits and is below 60; minutes·60 + seconds equals the seconds left |
| Search.PastCooldownIsNeverCleared | app/search/page.tsx:72-82 | as written, any non-zero cooldown at or before the clock reading of the effect is returned unchanged by every tick and keeps the button and the input disabled, while the corrected rule clears it at the first tick at or after it |
| Search.CooldownAfterTick | app/search/page.tsx:74-78 | a tick keeps a cooldown only while it lies in the future and keeps a future cooldown unchanged |
| Search.TickReenablesSubmit | app/search/page.tsx:229 | once the clock reaches the cooldown, a tick re-enables the input, and the button for a non-blank name, when not loading |
| Search.SearchPage.constructor | app/search/page.tsx:60-68 | every state variable starts at its initial value |
| Search.SearchPage.SetUsername | app/search/page.tsx:225 | the input's change handler stores the typed text |
| Search.SearchPage.SearchUser | app/search/page.tsx:94-170 | the new state, the new storage and the requests made are those of `Search` applied to the old state and storage |
| Search.SearchPage.FetchProfile | app/search/page.tsx:120-169 | the network part after a cache miss: header handling, the two requests, the error paths and the write-through |
| Search.SearchPage.CooldownTick | app/search/page.tsx:75-79 | one interval tick sets the cooldown to `CooldownAfterTick` of the old one |
| Storage.LocalStorage.GetItem | app/search/page.tsx:105-106 | the stored value under the key, or none when the key is absent |
| Storage.LocalStorage.SetItem | app/search/page.tsx:152-153 | overwrites the key and leaves every other key as it was |
| Bookmarks.WithBookmark | components/user-bookmarks.tsx:70-74 | the new bookmark first, then the old list in order, cut to ten entries |
| Bookmarks.WithoutLogin | components/user-bookmarks.tsx:63 | the login is no longer bookmarked; every other entry stays; nothing new appears |
| Bookmarks.IsBookmarked | components/user-bookmarks.tsx:49 | `bookmarks.some(...)` on the login; `SyncBookmarked`, `ToggleFlips` and `WithoutLogin` state how it follows the list |
| Bookmarks.FullListDropsOldest | components/user-bookmarks.tsx:74 | bookmarking into a full list drops exactly the last (oldest) entry |
| Bookmarks.RemovalKeepsOrder | components/user-bookmarks.tsx:84 | removal distributes over concatenation, so the relative order of what stays is kept |
| Bookmarks.RemovingAbsentLoginIsIdentity | components/user-bookmarks.tsx:84 | removing a login that is not bookmarked leaves the list unchanged |
| Bookmarks.BookmarkThenRemove | components/user-bookmarks.tsx:59-81 | bookmarking a new user and removing them again gives back the list cut to nine entries |
| Bookmarks.Toggled | components/user-bookmarks.tsx:59-81 | no change without a current user; when marked as bookmarked, the result is the list without the user's login (so not bookmarked, not longer); otherwise it is the new bookmark put before the old list and cut to ten (so bookmarked, first, at most ten) |
| Bookmarks.ToggleFlips | components/user-bookmarks.tsx:47-81 | with `isBookmarked` in step with the list, a toggle flips whether the current user is bookmarked |
| Bookmarks.ChangesKeepBound | components/user-bookmarks.tsx:74 | a toggle never takes a list of at most ten past ten |
| Bookmarks.UserBookmarks.constructor | components/user-bookmarks.tsx:36-37 | an empty list, not bookmarked |
| Bookmarks.UserBookmarks.LoadSaved | components/user-bookmarks.tsx:40-45 | a saved list, when present, becomes the state; otherwise the state is kept |
| Bookmarks.UserBookmarks.SyncBookmarked | components/user-bookmarks.tsx:47-52 | with a current user, `isBookmarked` is whether some entry has their login; without one it is kept |
| Bookmarks.UserBookmarks.SaveBookmarks | components/user-bookmarks.tsx:54-57 | the state and the storage key hold the same list; no other key changes |
| Bookmarks.UserBookmarks.ToggleBookmark | components/user-bookmarks.tsx:59-81 | the state and storage become `Toggled` of the old list, or stay unchanged without a current user |
| Bookmarks.UserBookmarks.RemoveBookmark | components/user-bookmarks.tsx:83-90 | the state and storage become the old list without the login |
| GitHub.PresentLanguages | components/github-charts.tsx:348 | no longer than the list, and no empty language |
| GitHub.PresentLanguagesMembership | components/github-charts.tsx:348 | a language is listed exactly when some repository has it as a non-empty language |
| GitHub.TotalsPermutation | components/github-charts.tsx:328-359 | star, fork and size totals do not depend on the order of the list |
| GitHub.RoundKb | components/github-charts.tsx:358-360 | `Math.round(n / 1024)`: the nearest whole number of KB, halves rounded up |
| GitHub.TextOrEmpty | components/data-export.tsx:73-74 | the text when present, otherwise empty |
| Charts.LanguageStatsCorrect | components/github-charts.tsx:60-70 | one entry per language, in order of first appearance; each counts the repositories in that language and sums their stars; the counts add up to the repositories with a language |
| Charts.LanguageStats | components/github-charts.tsx:60-70 | the language reduce; `LanguageStatsCorrect` states its keys, counts and star totals |
| Charts.LanguageCountsPositive | components/github-charts.tsx:62-69 | no language entry has a count of zero |
| Charts.LanguageChartData | components/github-charts.tsx:72-74 | at most eight entries from the stats, by count non-increasing; all of them when there are at most eight; no entry left out has a higher count than one shown |
| Charts.TopCounts | components/github-charts.tsx:73-74 | the top eight by count are ordered by count and dominate those left out |
| Charts.MostStarred | components/github-charts.tsx:79-80 | at most ten, by stars non-increasing; all when there are at most ten; none left out has more stars than one shown |
| Charts.TopStars | components/github-charts.tsx:79-80 | the top ten by stars are ordered by stars and dominate those left out |
| Charts.TopStarredRepos | components/github-charts.tsx:77-80 | only repositories of the list with at least one star are ranked |
| Charts.ShortName | components/github-charts.tsx:83 | names up to fifteen characters are kept; longer ones become their first fifteen characters followed by "..." |
| Charts.ShortNameIdempotent | components/github-charts.tsx:83 | shortening a label twice is shortening it once |
| Charts.StarsData | components/github-charts.tsx:77-86 | one point per top starred repository, in the same order: its shortened name, its stars and its forks; hence at most ten points, each with stars and a label of at most eighteen characters, by stars non-increasing |
| Charts.SortByUpdated | components/github-charts.tsx:89-93 | the array becomes the stable sort of its old contents by update time |
| Charts.InsertLast | components/github-charts.tsx:89-93 | one insertion step: the prefix grows by the next element inserted in place after elements with an equal time; the rest of the array is unchanged |
| Charts.ShiftLater | components/github-charts.tsx:89-93 | the shift loop: elements updated later than the new one move up by one; the gap is just after the last element not updated later |
| Charts.Recent | components/github-charts.tsx:89-94 | `.slice(-12)` of the sorted list: at most twelve, oldest first, taken from the list; none left out was updated later than one kept |
| Charts.LatestUpdates | components/github-charts.tsx:94 | every repository left out by the slice was updated no later than every one kept |
| Charts.ActivityData | components/github-charts.tsx:95-102 | one point per recent repository, in order: its month label, one update and its own stars; the points' stars add up to the repositories' stars |
| Charts.MonthlyActivityCorrect | components/github-charts.tsx:105-118 | one entry per distinct month, in order of first appearance; updates count the month's points; the star totals sum their stars; the updates add up to at most twelve |
| Charts.MonthlyActivity | components/github-charts.tsx:105-118 | the monthly reduce; `MonthlyActivityCorrect` states its months, update counts and star totals |
| Charts.SizeCategory | components/github-charts.tsx:124-126 | "Large" above 10000, "Medium" above 1000 up to 10000, "Small" otherwise, each an if-and-only-if |
| Charts.SizeData | components/github-charts.tsx:121-128 | one entry per repository of non-zero size, in order: that repository's name and size, with the category of the size |
| Charts.SizeDistributionCorrect | components/github-charts.tsx:130-138 | one bucket per category present, in order of first appearance; each counts the entries of its category; the counts add up to the number of entries |
| Charts.SizeDistribution | components/github-charts.tsx:130-138 | the size reduce; `SizeDistributionCorrect` and `SizeBuckets` state its categories and counts |
| Charts.SizeBuckets | components/github-charts.tsx:121-138 | at most three buckets, whose counts add up to the repositories of non-zero size |
| Charts.CategoriesBound | components/github-charts.tsx:124-126 | the entries have at most three distinct categories |
| Charts.LanguagesUsed | components/github-charts.tsx:346-350 | the size of the language set: the number of distinct non-empty languages |
| Charts.LanguagesUsedCountsEntries | components/github-charts.tsx:346-350 | "languages used" equals the number of language entries; the pie chart shows all of them when there are at most eight |
| Charts.SummaryOf | components/github-charts.tsx:328-360 | the four summary figures; `SummaryPermutation` states they do not depend on order and `ExportAgreesWithCharts` that they match the export |
| Charts.SummaryPermutation | components/github-charts.tsx:328-360 | the summary does not depend on the order of the list, so the in-place sort cannot change it |
| Charts.GitHubCharts | components/github-charts.tsx:59-138 | the caller's array ends sorted by update time, and the chart data equals `ChartsOf` of the list as passed in |
| Charts.ChartsOf | components/github-charts.tsx:59-138 | what one render computes, the later charts from the sorted list; `GitHubCharts` is proved to compute it and `RerenderIsStable` relates two renders |
| Charts.RerenderIsStable | components/github-charts.tsx:89-93 | sorting twice is sorting once; a second render over the sorted list shows the same activity, size and summary data |
| Export.Languages | components/data-export.tsx:49 | each non-empty language of the list exactly once and nothing else |
| Export.LanguagesInFirstAppearanceOrder | components/data-export.tsx:49 | languages appear in the order the list first mentions them |
| Export.ExportDataOf | components/data-export.tsx:42-50 | the user, the list and the time as given; the list's length; its star and fork totals; the languages are `Languages` of the list: each non-empty language of a repository exactly once, nothing else |
| Export.ExportAgreesWithCharts | components/data-export.tsx:46-49 | the exported languages are the keys of the charts' language reduce; there are as many as "languages used"; the totals equal the summary's, even after the charts' sort |
| Export.CsvCells | components/data-export.tsx:71-80 | one cell per header |
| Export.CsvCellsCorrect | components/data-export.tsx:71-80 | name, date and URL as given; description and language as given when present, and empty exactly when absent or empty; stars, forks and KB size as digit strings that parse back to those numbers |
| Export.Quote | components/data-export.tsx:82 | the cell between two double quotes, with its inside unchanged |
| Export.CsvRow | components/data-export.tsx:82 | the quoted cells joined by commas; `CsvRowCells` states they split back into the cells |
| Export.CsvRows | components/data-export.tsx:71-82 | one row per repository, in list order: row k is the joined quoted cells of the k-th repository |
| Export.CsvLines | components/data-export.tsx:82 | the header line then the rows; `CsvContentLines` states it is what the content splits back into |
| Export.CsvContent | components/data-export.tsx:82 | the lines joined by newlines; `CsvContentLines` states the split gives back `repos.length + 1` lines, the header first |
| Export.CsvRowCells | components/data-export.tsx:82 | splitting a row at commas gives back its eight quoted cells when the text has no comma |
| Export.CsvContentLines | components/data-export.tsx:82 | splitting the content at newlines gives the header line and one line per repository when the text has no newline |
| Export.LinesAvoidNewline | components/data-export.tsx:82 | no line contains a newline when no repository's text has one |
| Export.JsonFileName | components/data-export.tsx:56 | `github-<login>-data.json`, from which the login reads back |
| Export.CsvFileName | components/data-export.tsx:88 | `github-<login>-repositories.csv`, from which the login reads back |
| Seqs.TallyInto | components/github-charts.tsx:105-118 | the reduce loop (search the accumulator by key, bump the entry found or push a new one) computes `Tally` |
| Seqs.BumpAt | components/github-charts.tsx:106-116 | bumping the first entry with the key in place, or appending when there is none, is one step of `Tally` |
| Seqs.TallyCorrect | components/github-charts.tsx:62-70 | the keys are the distinct item keys in first-appearance order; per key, count and total equal occurrences and summed weight; the grand totals match |
| Seqs.GroupBy | components/github-charts.tsx:130-138 | the group-by over a list: keys in first-appearance order; each count and total is that of the elements filtered by key |
| Seqs.FilterMapMembership | components/data-export.tsx:49 | a value is in `filter(keep).map(f)` exactly when some kept element maps to it |
| Seqs.Distinct | components/data-export.tsx:49 | no duplicates, the same elements, no longer than the input |
| Seqs.DistinctInFirstAppearanceOrder | components/data-export.tsx:49 | the distinct values keep the order of their first occurrence |
| Seqs.DistinctCardinality | components/github-charts.tsx:347-349 | the number of distinct values is the size of the set |
| Seqs.SortByPermutes | components/github-charts.tsx:90-93 | the sort is a permutation |
| Seqs.SortBySorted | components/github-charts.tsx:90-93 | the sort's result is ordered by the key |
| Seqs.SortByOfSorted | components/github-charts.tsx:90-93 | sorting an ordered list changes nothing |
| Seqs.SortByStable | components/github-charts.tsx:90-93 | the sort is stable, as `Array.prototype.sort` is: for every key, the elements with that key keep their input order |
| Seqs.TopBy | components/github-charts.tsx:73-74 | the first n of the stable sort: ordered, drawn from the input, all when there are at most n, and none left out ranks before one kept |
| Seqs.LastBy | components/github-charts.tsx:90-94 | the last n of the stable sort: ordered, drawn from the input, all when there are at most n, and none left out ranks after one kept |
| Seqs.Take | components/user-bookmarks.tsx:74 | `slice(0, n)`: the prefix of length min(n, length) |
| Seqs.TakeLast | components/github-charts.tsx:94 | `slice(-n)`: the suffix of length min(n, length) |
| Seqs.SumPermutation | components/github-charts.tsx:328 | a sum over a list does not depend on its order |
| Seqs.SplitJoin | components/data-export.tsx:82 | splitting a join at its separator gives back the parts when none contains the separator |
| Seqs.DecimalText | components/data-export.tsx:75-77 | a non-empty digit string without leading zeros, one digit exactly below ten |
| Seqs.DecimalRoundTrip | components/data-export.tsx:75-77 | the decimal text of a number parses back to it |
| Seqs.PadTwo | app/search/page.tsx:182 | `padStart(2, "0")`: a shorter text is left-padded with '0' to two characters, a longer one is unchanged |

## Left out

- JSON parsing failures and the `catch` path for exceptions other than the three the code throws: a body that is not JSON, a network error and the generic "An error occurred" message are not modelled. Responses are assumed to parse.
- `Search.Search`: a header present with a non-numeric value (`Number.parseInt` gives NaN) is not modelled. Headers are integers or absent.
- The deep-link effect (app/search/page.tsx:84-92), `handleSubmit`, toasts, `showBookmarks`, `showAllRepos` and all of the JSX apart from the input's and the button's `disabled` conditions (`InputEnabled`, `SubmitEnabled`) and the alert condition.
- The intermediate renders of `searchUser`: React batches the state updates. The model gives the state at the end of the call, not the loading state in between.
- Concurrency: two overlapping `searchUser` calls and interleaved intervals are not modelled. Each call runs to completion.
- Time-zone and locale formatting (`toLocaleDateString`, `toISOString`, `toLocaleTimeString`) are parameters.
- Dates that do not parse (`new Date(...)` giving NaN) are not modelled. An update time is an integer number of milliseconds.
- The Blob, object-URL and anchor download in the export; the CSV and JSON text are modelled up to the string handed to the Blob for CSV. For JSON, only the object given to `JSON.stringify` is modelled.
- Charts.LanguageStats: `Object.values` lists integer-like keys before the others. Language names that look like array indices, and names such as `__proto__` or `constructor` that clash with `Object.prototype`, are not modelled. Keys are taken in insertion order.
- Charts.RerenderIsStable: covers only the activity, size and summary data. A re-render after the in-place sort also sees ties in a new order: the language reduce's insertion order and the stable stars sort. So which tied languages or repositories make the top eight or top ten can differ between the first render and the next. The model does not relate the language and stars charts of two renders.
- Charts.ShortName: JavaScript measures length and `substring` in UTF-16 code units, the model in characters. Names outside the Basic Multilingual Plane may be cut differently.
- Export.CsvRowCells and Export.CsvContentLines: the code does not escape quotes, commas or newlines inside cells. The round trips are proved only for text free of the separator.
- Number formatting: stars, forks and sizes are non-negative integers printed in plain decimal. Exponent notation for very large numbers and floating-point sums beyond 2^53 are not modelled.
- GitHub.RoundKb: holds for the non-negative integer sizes the API returns. Fractional or negative sizes are not modelled.
- Aliasing between the `repos` array the charts sort and other holders of the same array (the page's state) is not modelled beyond the sort's effect on the caller's array.
- Search.SearchPage.SearchUser: storage is only written with values of the shapes the page writes. A value under a cache key written by something else is modelled by `Stored`'s three shapes, not as arbitrary text.

## Findings

| source | as written | input that shows it | evidently intended | confidence | as-written member | corrected member |
|---|---|---|---|---|---|---|
| app/search/page.tsx:104-108 | the expiry key is the cache key plus "-expiry", so the cache key of a username ending in "-expiry" is another username's expiry key; the cache test accepts whatever value sits under the cache key | search "a-expiry", then "a", then "a-expiry" again within ten minutes: the third search passes the cache test on a's expiry timestamp and shows an undefined user and undefined repositories | a cache hit only on a stored profile (or keys that cannot collide) | not executed | Search.LookupAsWritten (shown by Search.ExpiryKeyCollision) | Search.CachedProfile |
| app/search/page.tsx:72-82 | the interval that clears the cooldown starts only when the cooldown lies in the future when the effect runs | a 403 whose reset header is at or before the client clock (clock skew), e.g. cooldown 5000 with the effect at 10000: no interval starts, the cooldown is never cleared and the button stays disabled | a cooldown at or before the clock is cleared | not executed | Search.CooldownAfterTickAsWritten (shown by Search.PastCooldownIsNeverCleared) | Search.CooldownAfterTick |

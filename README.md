# Repository gallery of anxety-solo.github.io, in Dafny

This is a model of the page that lists a GitHub account's public
repositories. It covers the following parts.

- The **repository-list controller** `RepoSystem` of `js/script.js`
  (module `RepoController`, file `repo_system.dfy`). It holds:
  - the loaded list and the active language filters;
  - the page size, the current page and the sort key;
  - what the page shows: the cards of the current page or the "no match"
    message, the language tags with their `active` marks, and the
    pagination bar with its disabled buttons.

  Its handlers are methods on a class whose fields they update:
  - `init` (`Init`);
  - the search box (`Search`);
  - a tag click (`ClickTag`);
  - `applyFilters` (`ApplyFilters`), with the in-place sort of `allRepos`
    when no language is active;
  - `sort` (`Sort`);
  - the Previous and Next buttons (`ClickPrevious`, `ClickNext`).
- The **GitHub service** of `js/script.js` (`github_service.dfy`, `cache.dfy`):
  - the TTL cache over `localStorage`;
  - `fetchWithCache`;
  - the page-by-page `fetchRepos` loop;
  - the starred-count arithmetic.
- The **error text** of `ErrorHandler.getErrorMessage` and the choice of
  account from the query string (`error_handler.dfy`).
- The **comparators** of `Utils.sorting` and of `sortRepositories`
  (`repos.dfy`). They go on top of a stable sort, which is what
  `Array.prototype.sort` is (`sorting.dfy`).
- The older **gallery** of `js/githubAPI.js` (`gallery.dfy`):
  - the fork filter;
  - the languages of each repository;
  - the copy sorted by stars;
  - the cards with at most five language icons;
  - the icon table;
  - the error page.
- The two **sort dropdowns**:
  - `js/sort.js` (`sort_menu.dfy`) redraws the gallery in the chosen
    order;
  - `js/sortingGitRepo.js` (`sort_overlay.dfy`) opens and closes an
    overlay together with its dropdown, and computes the sorted list only
    to discard it.

The network is replaced by the replies it would give. A `Reply` is one of
two things:
- an answer with `ok`, `status`, the parsed body (or the parser's
  rejection) and the `Link` header text;
- a `fetch` that rejects.

The clock is an explicit parameter (`now` when a cache entry is checked,
`written` when a fetched body is stored), and the viewport width an explicit
parameter of `Init`. Strings are sequences of characters. Lower-casing
covers ASCII letters only. `localeCompare` is the plain lexicographic order
on characters.

The code behaves as follows:
- The search and the language filter are independent. Each rebuilds the
  filtered list from `allRepos`, ignoring the other (`js/script.js:380`,
  `js/script.js:448-450`).
- With no language active, `applyFilters` sorts `allRepos` itself, so later
  searches list their hits in that order (`js/script.js:450-452`,
  `SearchAfterSortIsOrdered`).
- A key with no comparator leaves the order as it was. In `js/sort.js` the
  `default` case returns 0 (`js/sort.js:68-69`). In `js/script.js` the
  comparator is `undefined` for such a key and the default sort then
  compares the repositories' identical string forms (`js/script.js:452`);
  the names of `Object.prototype` members are an exception, listed under
  "Left out".
- Changing the sort order resets the page to 1 (`js/script.js:390-392`,
  `js/script.js:454`).
- Only the Previous and Next buttons move between pages; they are disabled
  on the first and the last page (`js/script.js:465-479`). The search, the
  sort and the language tags go back to page 1 (`js/script.js:385`,
  `js/script.js:454`).
- The page count is 0 for an empty filtered list (`js/script.js:459`).
- The starred request sends no `per_page` (`js/script.js:118-120`), while
  the count assumes pages of 50 (`js/script.js:129`).
- `init` leaves the active filters as they are; they are empty before it
  (`js/script.js:276`, `js/script.js:282-294`).

## Model

| member | source | states |
|---|---|---|
| Text.ToLower | js/script.js:379 | same length as the input; each ASCII upper-case letter is replaced by its lower-case letter and every other character is kept; the result has no upper-case ASCII letter |
| Text.LexLessTransitive | js/script.js:87 | the name order used for `localeCompare` is transitive |
| Text.LexLessTotal | js/script.js:87 | of two different names, one comes before the other |
| Text.DecimalIs404 | js/script.js:108 | a three-digit status is written "404" exactly when it is 404 |
| Sorting.StableSort | js/script.js:452 | the sorted list is a permutation of its input (same multiset, same length) |
| Sorting.StableSortKeepsTies | js/script.js:452 | the sort is stable: for a strict weak order, the elements tied with any given element come out in the order they went in |
| Sorting.StableSortSorted | js/script.js:452 | for a strict order, no element of the sorted list is preceded by one that should come after it |
| Sorting.StableSortIdempotent | js/sort.js:58 | sorting a sorted list again leaves it as it is |
| Sorting.NoPrecedenceKeepsOrder | js/sort.js:68-69 | a comparator that never puts one element before another leaves the list unchanged |
| Sorting.Filter | js/script.js:380-384 | keeps each element the predicate accepts as many times as it occurs and drops the rest; the result is a subsequence of the input, no longer than it |
| Sorting.FilterAll | js/script.js:380-384 | a predicate that accepts every element keeps the whole list |
| Sorting.SubsequenceKeepsRelation | js/script.js:380 | a relation that holds between every earlier and later element of a list also holds in any subsequence of it |
| Sorting.Distinct | js/script.js:396 | `new Set(list)`: exactly the members of the list, each once |
| Sorting.DistinctSorted | js/script.js:396-400 | dropping repeats from a sorted list keeps it sorted |
| Repos.ParseSortKey | js/script.js:84-89 | "stars", "forks", "updated" and "name" select their own ordering, and every other key selects none |
| Repos.Compare | js/script.js:84-89 | for stars, forks and update time the comparator is negative exactly when the first value is larger and zero exactly when they are equal; for names negative exactly when the first name comes first and zero exactly for equal names; zero for a key without a comparator |
| Repos.CompareNames | js/script.js:87 | negative exactly when the first name comes first, zero exactly for equal names |
| Repos.BeforeIsStrictOrder | js/script.js:84-89 | each comparator's "comes before" is irreflexive and transitive |
| Repos.BeforeIsStrictWeakOrder | js/script.js:84-89 | each comparator's "comes before" is a strict weak order: repositories it cannot tell apart form classes |
| Repos.SortRepos | js/script.js:289 | a permutation of the input; stars, forks and update time non-increasing, names non-decreasing; a key without a comparator returns the input unchanged |
| Repos.SortReposIdempotent | js/script.js:452 | re-sorting an already sorted list by the same key does not change it |
| Repos.SortReposKeepsTies | js/script.js:289 | repositories with equal stars, forks, update times or names keep their relative order |
| Cache.Lookup | js/script.js:62-65 | an entry exactly when the key is stored, and it is the stored one |
| Cache.IsValid | js/script.js:72 | only a present entry is valid, and it is valid exactly before its timestamp plus the TTL |
| Cache.EntryLifetime | js/script.js:6 | an entry written at time t is valid exactly before t + 900000 ms |
| Cache.WriteThenRead | js/script.js:66-72 | an entry just written is read back valid, with the data written, until the TTL has passed |
| Cache.Store.constructor | js/script.js:62-65 | the storage holds what an earlier visit left in it |
| Cache.Store.Get | js/script.js:62-65 | reads the stored entry of the key |
| Cache.Store.Set | js/script.js:66-71 | the key now maps to the data stamped with the time of writing; other keys are untouched |
| Paging.PageCount | js/script.js:459 | zero pages exactly for an empty list; at most one page exactly when the list fits on one |
| Paging.PageCountIsCeiling | js/script.js:459 | the page count is the ceiling: count <= p*n, and (p-1)*n < count for a non-empty list |
| Paging.PageOf | js/script.js:302-304 | the page's length is the page size, clamped at the end of the list, and its k-th element is element (p-1)*n + k of the list |
| Paging.PageNonEmpty | js/script.js:304-308 | a page has items exactly when its number is at most the page count |
| Paging.FirstPageSize | js/script.js:302-304 | the first page holds min(n, len) items, and the whole list when it fits |
| Paging.PagesReconstruct | js/script.js:302-304 | reading the pages one after the other gives back the whole list |
| GitHubService.FailureOf | js/script.js:108 | a reply that is not ok gives an `HTTP error!` carrying its status; a rejected request throws the request's error and an unreadable body throws the parser's error |
| GitHubService.NextRelWhereWritten | js/script.js:111 | `HasNextRel`: no header announces no next page; a header announces one exactly when `rel="next"` occurs in it at some position |
| GitHubService.CacheKey | js/script.js:137 | the key is the URL behind the `gh-cache-` prefix |
| GitHubService.CacheKeyInjective | js/script.js:137 | different URLs are cached under different keys |
| GitHubService.PageUrls | js/script.js:106 | the request URLs of pages 1 to n, in order |
| GitHubService.FetchWithCache | js/script.js:136-149 | a valid cached entry is returned without a request and nothing is written; otherwise a delivered body is stored under `gh-cache-<url>` with the time of writing and returned, and an undelivered reply gives its failure and writes nothing |
| GitHubService.FetchUserData | js/script.js:96-98 | `fetchWithCache` on the account URL: a valid cached entry for that URL is returned without a request; otherwise a delivered body is stored under its key and returned, and an undelivered reply gives its failure and writes nothing |
| GitHubService.BodiesInOrder | js/script.js:110 | the concatenation keeps every page in its place: the bodies of the first i pages form its prefix, and page i+1 follows right after |
| GitHubService.FetchRepos | js/script.js:100-116 | pages 1, 2, ... are requested in order; every page before the last was delivered with `rel="next"`; the last one was not; the result is the in-order concatenation of the bodies when the last page was delivered, and otherwise the failure of that page |
| GitHubService.GetTotalStarredCount | js/script.js:122-134 | body length without a (truthy) Link header or without a `rel="last"` match; (P-1)*50 + body length with a match on page P; 'N/A' exactly when reading the body fails; `undefined` or NaN for a body without a length |
| GitHubService.StarredCountOnOnePage | js/script.js:126 | for an account whose starred list fits on one page, the count is exact |
| GitHubService.StarredCountAsWrittenOvercounts | js/script.js:119-129 | 60 starred repositories are counted as 100 when pages hold 50 and as 80 when pages hold 30 |
| GitHubService.IntendedStarredCountExact | js/script.js:129 | full pages at the requested size before the last, plus the last page's items, give the exact total |
| ErrorHandler.GetErrorMessage | js/script.js:572-576 | the offline message exactly when offline; the "user not found" message exactly when online and the message contains "404"; the generic text otherwise |
| ErrorHandler.HttpErrorMentions404 | js/script.js:108 | an `HTTP error!` message for a three-digit status contains "404" exactly when the status is 404 |
| ErrorHandler.HttpStatusMessage | js/script.js:145 | an HTTP failure reads "user not found" when online exactly for status 404 |
| ErrorHandler.ChooseUser | js/script.js:596 | a non-empty `user` parameter wins, then a non-empty `u`, then the default account |
| RepoController.SearchResults | js/script.js:380-384 | keeps exactly the repositories whose lower-cased name, description or some topic contains the term, each as often as in the list, in their order |
| RepoController.EmptySearchKeepsAll | js/script.js:379-384 | an empty search keeps every repository, in order |
| RepoController.SearchAfterSortIsOrdered | js/script.js:448-452 | after `applyFilters` sorted `allRepos` in place, a search lists its hits in that sort order |
| RepoController.SearchResultsMembers | js/script.js:380-384 | a repository is among the results exactly when it is in the list and its name, description or some topic contains the term |
| RepoController.LanguageFilter | js/script.js:449 | keeps exactly the repositories whose language is present and active, each as often as in the list, in their order |
| RepoController.TruthyLanguages | js/script.js:398-399 | a language is listed exactly when some repository has it as a non-empty language |
| RepoController.LexLessIsStrictOrder | js/script.js:400 | the order `sort()` uses on language names is a strict order |
| RepoController.LanguageFacets | js/script.js:395-401 | a language is a facet exactly when some repository has it as a non-empty language; the facets are strictly increasing, so each appears once |
| RepoController.FacetsOfPermutation | js/script.js:395-401 | re-ordering the repositories does not change the facets |
| RepoController.Toggle | js/script.js:423-436 | "All" clears the active set; a language tag flips that language's membership and leaves every other language as it was |
| RepoController.ToggleTwice | js/script.js:429-432 | clicking a language tag twice restores the active set |
| RepoController.PagerFor | js/script.js:458-481 | no bar exactly when the list fits on one page; otherwise the bar shows the page count, with Previous disabled exactly on page 1 and Next exactly on the last page |
| RepoController.ListingFor | js/script.js:301-308 | the "no match" message exactly when the page number is past the last page; otherwise the cards of that page's slice |
| RepoController.RepoSystem.constructor | js/script.js:275-280 | nothing loaded, no active language, 24 per page, page 1, sort key "stars" |
| RepoController.RepoSystem.Init | js/script.js:282-299 | an absent or empty list only shows the empty message, leaving the lists, the page size, the tags, the cards and the pager as they were; otherwise 12 per page up to 768 px wide and 24 above, `allRepos` is the input sorted by stars (a permutation, non-increasing), the filtered list is `allRepos`, the tags are the language facets and the first page is drawn |
| RepoController.RepoSystem.Render | js/script.js:301-311 | the cards and the pagination bar are those of the current page of the filtered list |
| RepoController.RepoSystem.Search | js/script.js:377-388 | the filtered list is the search result over `allRepos` for the lower-cased text, whatever the language filter; page 1 is drawn |
| RepoController.RepoSystem.SortAllInPlace | js/script.js:452 | `allRepos` is replaced by its sorted form: a permutation of it, in the key's order |
| RepoController.RepoSystem.ApplyFilters | js/script.js:447-456 | with no language active, `allRepos` itself is sorted by the current key and shown; otherwise `allRepos` is kept and its repositories in an active language are shown sorted; `allRepos` stays a permutation of itself; page 1 is drawn |
| RepoController.RepoSystem.Sort | js/script.js:390-393 | the sort key is stored and the filters are applied with it |
| RepoController.RepoSystem.MarkTag | js/script.js:423-439 | the active set is toggled as by `Toggle`; the tags marked `active` are the active languages, and "All" is marked exactly when none is active |
| RepoController.RepoSystem.ClickTag | js/script.js:423-442 | the active set is toggled, "All" is marked exactly when no language is active, and the filters are applied |
| RepoController.RepoSystem.ClickNext | js/script.js:475-479 | an enabled Next button moves one page forward and redraws; a disabled or absent one does nothing; the page stays within the page count |
| RepoController.RepoSystem.ClickPrevious | js/script.js:465-469 | an enabled Previous button moves one page back and redraws; a disabled or absent one does nothing; the page stays at least 1 |
| RepoGallery.NonForks | js/githubAPI.js:13-14 | keeps exactly the repositories that are not forks, in their order |
| RepoGallery.GetReposWithLanguages | js/githubAPI.js:29-35 | the same repositories in the same order, each with the keys of its own languages response; no result when some languages request fails |
| RepoGallery.SortLangRepos | js/sort.js:57-72 | a permutation ordered by the key's comparator; a key without a comparator returns the input unchanged |
| RepoGallery.SortReposByStars | js/githubAPI.js:37-39 | a permutation of the input with star counts non-increasing |
| RepoGallery.GetLanguageIcon | js/githubAPI.js:122-136 | the mapped brand icon for the nine listed languages and `fas fa-code` for every other language |
| RepoGallery.AddLanguageIcons | js/githubAPI.js:79-86 | min(5, n) icons, the i-th for the i-th language, with that language as its title |
| RepoGallery.CreateRepoCard | js/githubAPI.js:56-77 | the card shows the name, the description or "No description provided", the icons, stars and forks, and is delayed index*50 ms |
| RepoGallery.ErrorPageFor | js/githubAPI.js:97-102 | heading "404" with "Repositories not found" exactly for 404; "Error" with "Failed to load data" otherwise |
| RepoGallery.CaughtStatus | js/githubAPI.js:23 | the error's status when it has a non-zero one, 500 otherwise |
| RepoGallery.Gallery.constructor | js/githubAPI.js:1-4 | nothing shown, `currentRepos` unset, loader visible |
| RepoGallery.Gallery.DisplayRepos | js/githubAPI.js:41-54 | the given list becomes `currentRepos` and the page shows one card per repository, in order, card i delayed i*50 ms |
| RepoGallery.Gallery.ShowErrorPage | js/githubAPI.js:97-113 | the error page for the status is shown and the loader hidden |
| RepoGallery.Gallery.FetchRepos | js/githubAPI.js:1-27 | a reply that is not ok shows the error page of its status; a rejected request, unreadable body or failed languages request shows the 500 page; nothing is displayed in those cases; otherwise `currentRepos` is the non-fork repositories with their languages sorted by stars, shown one card each; the loader is always hidden |
| SortMenu.SortRepositories | js/sort.js:57-72 | a permutation of the input; "stars", "forks" and "updated" non-increasing on their field, "name" non-decreasing; any other key returns the input unchanged |
| SortMenu.SortRepositoriesIdempotent | js/sort.js:57-72 | sorting again by the same key changes nothing |
| SortMenu.OnSortChanged | js/sort.js:51-54 | with repositories loaded, they are redrawn in the chosen order and that order becomes `currentRepos`; with none, nothing changes |
| SortMenu.SortSystem.constructor | js/sort.js:7 | the sort starts as "stars" with the dropdown closed |
| SortMenu.SortSystem.ClickButton | js/sort.js:13-16 | the dropdown's `show` flips |
| SortMenu.SortSystem.ClickOutside | js/sort.js:29-33 | the dropdown closes |
| SortMenu.SortSystem.ClickOption | js/sort.js:19-26 | the sort becomes the option's `data-sort` and the dropdown closes; with repositories loaded they become `currentRepos` in that order and the page shows one card for each, in that order; with none, `currentRepos` and the page are unchanged |
| SortOverlay.OnSortChanged | js/sortingGitRepo.js:75-77 | the sorted copy is dropped, so the gallery is unchanged |
| SortOverlay.SortSystem.constructor | js/sortingGitRepo.js:7-13 | the sort starts as "stars"; dropdown and overlay are both off |
| SortOverlay.SortSystem.ToggleDropdown | js/sortingGitRepo.js:44-53 | dropdown and overlay flip together, so the dropdown is open exactly when the overlay is active |
| SortOverlay.SortSystem.CloseDropdown | js/sortingGitRepo.js:55-58 | both dropdown and overlay are off |
| SortOverlay.SortSystem.ClickOption | js/sortingGitRepo.js:27-34 | the sort becomes the option's `data-sort`, the dropdown and overlay close, and the gallery is unchanged |

## Left out

- HTML templating and the DOM are not modelled. A page state is kept in its
  place: the listing, the pager, the tag marks, the card fields, the error
  page, and the dropdown and overlay flags.
- The network and `Promise.all` are replaced by replies given as inputs.
  When several language requests fail, the one that rejects first in time
  is not modelled; every failure leads to the same 500 page.
- The concurrent requests of the start-up handler
  (`js/script.js:598-604`) and the profile and stats rendering around them
  are left out. They are scheduling and templating.
- `JSON` (de)serialisation and `localStorage` are left out. The storage is a
  map from key to entry, which an earlier visit may have filled.
- Lodash's `_.debounce` is left out. The search runs once on the final text.
- `Date` parsing and `toLocaleDateString` are left out. Update times are
  integer timestamps.
- `localeCompare`'s locale rules are left out. Names compare by the plain
  order of characters.
- `Text.LexLess`: the plain `.sort()` of the language facets
  (`js/script.js:400`) compares UTF-16 code units, while the model compares
  whole characters (code points). Names with characters outside the Basic
  Multilingual Plane can therefore come out in a different order.
- Unicode case mapping is left out. `toLowerCase` is modelled for ASCII
  letters only.
- `GitHubService.FetchRepos`: the loop in `js/script.js:104-113` has no
  page cap and ends only when a reply is not delivered or has no
  `rel="next"`. The model requires the replies to contain such a reply; an
  account whose replies announce a next page forever, which makes the
  source loop without end, is not modelled.
- `GitHubService.FetchWithCache`: the time the body is stored is a
  parameter of its own, and nothing relates it to the time the entry was
  checked; the clock's monotonicity is not modelled.
- `Repos.ParseSortKey`: a key naming an `Object.prototype` member is not
  modelled as the source treats it. `__proto__` (not a function) makes the
  sort call throw, and `valueOf` or `hasOwnProperty` throw when called as
  the comparator on two or more repositories. The model treats such keys
  as keys without a comparator. The sort selector only offers the four
  listed keys.
- The `Link` header regex is not modelled. The page number it captures is
  an input of `GetTotalStarredCount`. The `rel="next"` test is modelled as
  a substring test on the header text.
- `RepoController.RepoSystem.Init`: the model requires the controller not
  to have been initialised yet. Repeated `init` calls, which would attach
  another search listener, are not modelled.
- The random error titles, the favicon drawing and the colour-palette
  extraction are left out. These are randomness, canvas and floating point.
  `js/themeHandler.js` and `CustomSelect` are left out too; they are DOM
  plumbing.
- The `language || parent.language || 'Unknown'` label of a card in
  `js/script.js` is templating and is left out.
- `RepoGallery.GetLanguageIcon`: keys that a plain object inherits (such as
  `constructor`) are treated as unmapped.
- `RepoGallery.CaughtStatus`: errors thrown by `fetch` and `json()` carry no
  `status`, so the gallery's failures other than a non-ok list reply
  always give the 500 page.
- The second `fetchRepos` in `js/sort.js:74-101` is left out. It differs
  from the one in `js/githubAPI.js`, as it draws the cards twice
  (`js/sort.js:93`, `js/sort.js:95`). It is never registered, though:
  `js/githubAPI.js:138` hands its own `fetchRepos` to the `DOMContentLoaded`
  listener, whichever of the two scripts loads first, and no other script
  of the site calls the function by name.
- `scrollIntoView`, `history.replaceState`, the button label update and
  the delayed removal of the loader element are left out. None of them
  changes the modelled state.

## Findings

| source | as written | input that shows it | evidently intended | confidence | as-written member | corrected member |
|---|---|---|---|---|---|---|
| js/script.js:119-129 | the starred count is `(P-1)*50 + data.length`, where `data` is the body of the first page, and the request sends no `per_page` | an account with 60 starred repositories: pages of 50 give 100, and the API's default pages of 30 give 80 | full pages at the page size actually requested, before the last page, plus the number of items on the last page | not executed | GitHubService.StarredCountAsWrittenOvercounts | GitHubService.IntendedStarredCountExact |

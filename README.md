# gitact core in Dafny

gitact is a terminal dashboard for a GitHub user's public activity. It fetches the
user's recent events and public repositories, counts the events by kind, grades the
activity, ranks repositories, and shows everything in a four-tab Bubble Tea
interface with a search filter over the repositories.

This project models the deterministic core of that program and proves what it
promises:

- **Event statistics** (`api_stats.dfy`, module `ApiStats`). `calculateStats` is a
  loop over the events that bumps the total and exactly one of ten kind counters.
  `getTopRepos` counts events and tracks the latest timestamp per repository name
  in two maps. It turns the maps into entries in Go's unspecified map order (a
  nondeterministic choice here) and bubble-sorts them by count.
- **Repository listing** (`api_repos.dfy`, module `ApiRepos`). The paging loop of
  `fetchPublicRepos` runs over pages that are already decoded: a failed request,
  an empty page or a short page ends it, and only non-private repositories are
  kept. This module also holds the in-place star sort of `printPublicRepos` and
  the totals, language counts and first maxima of `calculatePublicReposStats`.
- **The shared bubble sort** (`sort.dfy`, module `BubbleSort`). It is generic over
  a key, and both sorts of api.go are this one loop.
- **Formatting and grading** (`utils.dfy`, module `Utils`). This covers the branch
  `formatNumber` takes, `getGrade` over an integer score doubled so that the
  weights 1, 3, 1, 1.5 and 0.5 stay exact, and `formatEventShort`.
- **The dashboard** (`ui_spec.dfy`, module `DashboardSpec`, and `ui_model.dfy`,
  module `Dashboard`).
  - `DashboardSpec` describes `Update` as a pure reducer `Step(state, msg)` and
    proves the handlers' properties about it: the load-flag join, the view ring,
    search mode, the filter and notifications.
  - `Dashboard.Model` is a class with the Go `Model`'s fields. Its methods assign
    those fields and rebuild the list with loops, as the Go methods do. Each
    method is proved to change the state exactly as the matching `DashboardSpec`
    function says.
- **Records and string primitives** (`types.dfy`, `strings.dfy`). These are the
  records of types.go, and ASCII `strings.ToLower`, `strings.Contains`,
  `strings.TrimSuffix` and `%d`.

Where the documented behaviour and the code differ, the model follows the code:

- The Left/Right ("h"/"l") bindings are declared and shown in the help, but `Update`
  never handles them. Only Tab changes the view (ui.go:298-348).
- Refresh sets `loading` and clears both loaded flags, but leaves `ready` as it
  was (ui.go:317-323).
- Esc is part of the Quit binding, so outside search mode Esc quits. In search
  mode no key quits: Esc and ctrl+c only leave the search (ui.go:74-76, 294-296).
- "/" enters search mode only in the List view. In any other view it falls
  through to the widget (ui.go:310-315).
- The search field's query survives Enter: only Esc/ctrl+c clear it
  (ui.go:378-389). The field holds at most 50 characters (ui.go:822).
- Both load handlers fill the same list widget, so the list shows whichever load
  arrived last (ui.go:259, 273).
- A filter with the empty query shows the unfiltered list (ui.go:445-448).

## Model

| member | source | states |
|---|---|---|
| Strings.ToLower | ui.go:452-453 | the result has the input's length and each character is that character lower-cased (ASCII) |
| Strings.ToLowerIdempotent | ui.go:452-453 | lower-casing an already lower-cased string changes nothing |
| Strings.Contains | ui.go:452-453 | true exactly when the needle occurs at some index of the text; the empty needle occurs everywhere |
| Strings.TrimSuffix | utils.go:69-70 | with the suffix present, the result followed by the suffix is the input; otherwise the input is unchanged |
| Strings.IntToString | utils.go:18 | `%d`: a non-negative number renders as decimal digits without a leading zero that read back as the number; a negative one as a minus sign followed by such digits reading back as its magnitude |
| Strings.NatToString | ui.go:432 | at least one character, all of them decimal digits, no leading zero |
| Strings.NatToStringRoundTrip | utils.go:18 | the decimal text reads back as the number it renders |
| Strings.NatToStringInjective | ui.go:432 | two counts with the same decimal text are equal |
| BubbleSort.SwapNext | api.go:116 | two neighbours change places, nothing else moves, the contents stay the same multiset |
| BubbleSort.BubblePass | api.go:114-118 | one inner pass keeps the multiset, extends the sorted suffix by one, and leaves no earlier key below the suffix's first key |
| BubbleSort.BubbleSortDesc | api.go:113-119 | afterwards the array is non-increasing by the key and is a permutation of what it held |
| BubbleSort.PermutationKeepsDistinct | api.go:101-119 | reordering a sequence without repetitions leaves it without repetitions |
| ApiStats.Classify | api.go:58-80 | the switch on the type string; its contract is stated by ApiStats.ClassifyTypeName, ApiStats.ClassifyNamesKind and ApiStats.ClassifyOther |
| ApiStats.ClassifyNamesKind | api.go:58-77 | a string classified as one of the nine kinds is exactly that kind's type string |
| ApiStats.ClassifyTypeName | api.go:59-77 | each of the nine type strings is classified as its own kind |
| ApiStats.ClassifyOther | api.go:78-79 | a type string falls into Other exactly when it names none of the nine kinds |
| ApiStats.Bump | api.go:57-80 | one event raises the total by one and exactly one kind counter by one, so the counter sum rises by one |
| ApiStats.StatsOf | api.go:53-83 | the statistics after the events in order; ApiStats.StatsOfTotal, ApiStats.StatsOfCountsKinds and ApiStats.StatsOfCountsAllKinds state what they hold |
| ApiStats.StatsOfCountsKinds | api.go:56-80 | every counter holds the number of events of its kind |
| ApiStats.StatsOfCountsAllKinds | api.go:56-80 | all ten counters at once hold the number of events of their kind |
| ApiStats.StatsOfTotal | api.go:54-80 | TotalEvents is the number of events and the ten counters add up to it |
| ApiStats.UnknownTypeCountsAsOther | api.go:78-79 | an event of an unknown type raises OtherEvents by one and leaves the nine named counters unchanged |
| ApiStats.CountEvent | api.go:57-80 | the switch in the loop body raises the total and the counter of the event's kind |
| ApiStats.CalculateStats | api.go:53-83 | the result is the statistics of the events; its total is their number and each counter counts its kind |
| ApiStats.NamesOfCounted | api.go:90-97 | a name is a key of the count map exactly when it is non-empty and some event names it |
| ApiStats.LatestForIsMaximum | api.go:93-95 | LastActivity is the largest timestamp among the repository's events, or the zero time, and no event of that repository is later |
| ApiStats.CountActivity | api.go:86-97 | the count map has exactly the non-empty names as keys; for each name the maps hold its event count and its latest timestamp |
| ApiStats.CollectEntries | api.go:100-110 | one entry per key, in any order, with no name twice; each entry has the github.com URL, the ".git" clone URL, the count and the latest timestamp of its name |
| ApiStats.SortedEntriesDescribeEvents | api.go:112-121 | reordering the entries keeps every one of those facts |
| ApiStats.GetTopRepos | api.go:85-122 | sorted by count, largest first; the entries are exactly the non-empty repository names, each once, with its count, latest activity and URLs |
| ApiRepos.PageAt | api.go:142-180 | the decoded answer to the request for one page; past the given pages the server answers an empty page, which ends the loop |
| ApiRepos.Collect | api.go:137-203 | the paging rule from a given page; ApiRepos.CollectIsPublic, ApiRepos.CollectKeepsPublicInOrder, ApiRepos.CollectStopsAtLastPage and ApiRepos.CollectFailsOnError state its results |
| ApiRepos.PublicOnly | api.go:188-192 | a repository is kept exactly when it is in the page and not private |
| ApiRepos.PublicOnlyAppend | api.go:188-192 | filtering two pages one after the other equals filtering them joined, so the order is kept |
| ApiRepos.CollectIsPublic | api.go:187-192 | a successful listing never holds a private repository |
| ApiRepos.AppendPublic | api.go:188-192 | the collected list grows by exactly the page's public repositories, in order |
| ApiRepos.FetchPublicRepos | api.go:137-202 | the loop returns what the paging rule gives from page 1 (an error ends it, an empty or short page stops it), and never a private repository |
| ApiRepos.CollectKeepsPublicInOrder | api.go:182-199 | over full pages followed by one short page, the result is the public repositories of all pages in page order |
| ApiRepos.CollectStopsAtLastPage | api.go:194-197 | pages after an empty, short or failed page never influence the result |
| ApiRepos.CollectFailsOnError | api.go:160-180 | a failed request after full pages makes the whole fetch fail with that error, discarding what was collected |
| ApiRepos.SortByStars | api.go:266-278 | the repositories end up ordered by stars, largest first, as a permutation of the input |
| ApiRepos.CountLanguageStep | api.go:320-322 | a repository with a non-empty language adds one to that language's count; the map stays the per-language use count |
| ApiRepos.LeadsStep | api.go:324-330 | replacing the leader only on a strictly larger value keeps the first largest repository seen so far |
| ApiRepos.LeaderIsFirstMaximum | api.go:313-331 | the leader after the whole list is its first repository with the largest value |
| ApiRepos.CalculatePublicReposStats | api.go:303-331 | nothing for an empty list; otherwise the count, the star and fork totals, the use count of every non-empty language, and the first most starred and first most forked repository |
| Utils.FormatNumber | utils.go:12-19 | plain below 1000, the "k" branch from 1000 below a million, the "M" branch from a million on; plain text is `%d` and reads back as the number |
| Utils.Grade.Next | utils.go:32-51 | each band is followed by the band one rank higher |
| Utils.DoubledScore | utils.go:26-30 | twice the weighted score, so the weights stay integers; Utils.GradeExample and Utils.GradeIgnoresOtherCounters state which counters weigh what |
| Utils.Band | utils.go:32-51 | the band's threshold is reached and the next band's threshold is not (doubled thresholds 200, 140, 80, 50, 30, 16, 6, 2) |
| Utils.GetGrade | utils.go:22-52 | F when there are no events, whatever the counters say; otherwise the band of the doubled score |
| Utils.BandMonotone | utils.go:32-51 | a higher score never gives a lower band |
| Utils.GradeMonotone | utils.go:22-52 | with events present, a score at least as high never gives a lower grade |
| Utils.GradeIgnoresOtherCounters | utils.go:26-30 | the fork, delete, release, public and other counters never change the grade |
| Utils.GradeExample | utils.go:26-46 | three pushes, two issue events and one star score 6.5 (13 doubled) and grade "C" |
| Utils.FormatEventShort | utils.go:54-72 | phrase plus repository name for the six phrased types; otherwise the type without one trailing "Event", " in ", the name; always ends with the name |
| Utils.FormatDeleteEvent | utils.go:68-70 | a DeleteEvent reads "Delete in o/r" |
| Utils.FormatEventEvent | utils.go:68-70 | only one trailing "Event" is removed: "EventEvent" reads "Event in o/r" |
| DashboardSpec.Successor | ui.go:396-406 | the next view's index is the current one's plus one, modulo four |
| DashboardSpec.ViewCycle | ui.go:396-406 | four Tabs return to the start after visiting four different views |
| DashboardSpec.RepoItemsMembership | ui.go:426-431 | the list holds an entry for a repository exactly when the repository is listed, and only repository entries |
| DashboardSpec.FilterRepos | ui.go:450-456 | a repository is kept exactly when it is listed and its lower-cased name or description contains the lower-cased query; never more than the input |
| DashboardSpec.FilterReposAppend | ui.go:451-456 | the filter works piece by piece, so the kept repositories stay in their original order |
| DashboardSpec.FilterEmptyQuery | ui.go:452-453 | the empty query keeps every repository |
| DashboardSpec.MatchIgnoresCase | ui.go:452-453 | "dAF" matches a repository named "Dafny" |
| DashboardSpec.MatchSearchesDescription | ui.go:453 | "cli" matches through the description "a CLI" |
| DashboardSpec.MatchLowersQuery | ui.go:452-453 | a query and its lower-cased form select the same repositories |
| DashboardSpec.NoMatchWithoutOccurrence | ui.go:452-453 | "z" does not match a repository named "go" with no description |
| DashboardSpec.ShowRepoList | ui.go:426-433 | only the list entries and title change |
| DashboardSpec.ShowActivityList | ui.go:435-442 | only the list entries and title change |
| DashboardSpec.ShowFiltered | ui.go:444-459 | the empty query gives the unfiltered list; any other query lists exactly the matching repositories, titled with the query and their count; nothing but the entries and title changes |
| DashboardSpec.AfterNextView | ui.go:396-417 | the view advances along the ring; arriving at the List tab lists the repositories under the repository title, arriving at Activity lists the events under the activity title, any other arrival keeps the list; nothing else changes |
| DashboardSpec.CheckLoaded | ui.go:419-424 | loading ends and ready is set exactly when both loads have arrived; nothing else changes |
| DashboardSpec.OnReposLoaded | ui.go:252-263 | reposLoaded is always set; an error keeps the repositories and list and shows a failure; success replaces the repositories and lists them; loading ends if the events are in; the events, view, search and query are untouched |
| DashboardSpec.OnEventsLoaded | ui.go:265-276 | the same for the events: eventsLoaded always set, events and statistics replaced only on success |
| DashboardSpec.EditQuery | ui.go:392 | the field never grows past 50 characters or its current length; a printable key is appended below the limit and ignored at it; Backspace drops the last character and does nothing on an empty field; other keys change nothing |
| DashboardSpec.SearchInput | ui.go:374-394 | only search mode, query and list change; search mode stays on exactly for keys other than Esc, ctrl+c and Enter; those three return no command; every other key only edits the query and returns the search field's command |
| DashboardSpec.Initial | ui.go:798-837 | the state initialModel builds; DashboardSpec.InitialLoadInvariant and DashboardSpec.InitialDataInvariant state what holds of it |
| DashboardSpec.Step | ui.go:229-372 | Update as a function of state and message; DashboardSpec.StepKeepsLoadInvariant, DashboardSpec.StepKeepsDataInvariant, DashboardSpec.StepKeepsQueryBounded, DashboardSpec.LoadOrderCommutes, DashboardSpec.RefreshWaitsForBoth and DashboardSpec.NotifyThenClear state its behaviour |
| DashboardSpec.OnKey | ui.go:293-362 | the key case of Update; DashboardSpec.KeyKeepsData, DashboardSpec.SearchEntry, DashboardSpec.SearchCapturesKeys, DashboardSpec.UnboundKeysReachWidget and DashboardSpec.KeyKeepsQueryBounded state its behaviour |
| DashboardSpec.UnboundKeysReachWidget | ui.go:298-362 | outside search mode, a key other than quit, help, Tab, refresh and "/" in the List view is passed to the widget: the widget's command is returned and the model's state is kept |
| DashboardSpec.InitialLoadInvariant | ui.go:798-837 | the new model is loading and not ready, consistently with its load flags |
| DashboardSpec.StepKeepsLoadInvariant | ui.go:229-372 | every message keeps "loading exactly while a load is outstanding, ready once not loading" |
| DashboardSpec.LoadOrderCommutes | ui.go:252-276 | the two loads in either order give the same flags, repositories, events and statistics, and end loading |
| DashboardSpec.LoadOrderChangesList | ui.go:252-276 | the list entries do depend on the order: the later load fills the list |
| DashboardSpec.RefreshWaitsForBoth | ui.go:317-323 | refresh returns the load command, keeps ready, shows the success notice, and loading ends only after both loads |
| DashboardSpec.LoadReposMsg | ui.go:211-218 | the message loadReposCmd sends: the collected repositories, or no repositories and the error; DashboardSpec.LoadersAreWellFormed states what it delivers |
| DashboardSpec.LoadEventsMsg | ui.go:220-227 | the message loadEventsCmd sends: the events with their statistics, or the error alone; DashboardSpec.LoadersAreWellFormed states what it delivers |
| DashboardSpec.LoadersAreWellFormed | ui.go:211-227 | the repositories the loader delivers are public, and the events come with their own statistics |
| DashboardSpec.InitialDataInvariant | ui.go:824-836 | the new model's statistics are those of its (empty) events and it holds no private repository |
| DashboardSpec.StepKeepsDataInvariant | ui.go:229-372 | messages as the loaders send them keep the statistics matching the events and the repositories public |
| DashboardSpec.KeyKeepsData | ui.go:293-362 | no key changes the repositories, events or statistics |
| DashboardSpec.NotifyThenClear | ui.go:278-287 | a notification returns the clear timer; the clear empties the text and keeps the success flag |
| DashboardSpec.ClearRacesNewerNotification | ui.go:278-287 | a clear also empties a newer notification shown before it fires |
| DashboardSpec.SearchEntry | ui.go:310-315 | outside search, search mode starts exactly on "/" in the List view |
| DashboardSpec.SearchCapturesKeys | ui.go:294-296 | in search mode no key quits, refreshes, switches view or touches data, flags or notification; Esc, ctrl+c and Enter return no command; every other key only edits the query and returns the search field's command |
| DashboardSpec.SearchEscRestores | ui.go:378-383 | Esc and ctrl+c both leave search, clear the query and list every repository |
| DashboardSpec.SearchEnterFilters | ui.go:385-389 | Enter leaves search, keeps the repositories and query, and lists exactly the matches, in order |
| DashboardSpec.StepKeepsQueryBounded | ui.go:822 | no message makes the query longer than the 50-character limit |
| DashboardSpec.KeyKeepsQueryBounded | ui.go:822 | no key makes the query longer than the limit |
| DashboardSpec.TypeThenBackspace | ui.go:392 | in search mode, a typed character followed by Backspace restores the state |
| Dashboard.Model.constructor | ui.go:798-837 | the fields are the initial state: List view, loading, nothing loaded, an empty list titled "Loading..." |
| Dashboard.Model.UpdateRepoList | ui.go:426-433 | the fields change as ShowRepoList says |
| Dashboard.Model.UpdateActivityList | ui.go:435-442 | the fields change as ShowActivityList says |
| Dashboard.Model.FilterRepoList | ui.go:444-459 | the fields change as ShowFiltered says |
| Dashboard.Model.NextView | ui.go:396-417 | the fields change as DashboardSpec.AfterNextView says |
| Dashboard.Model.CheckLoadingComplete | ui.go:419-424 | the fields change as CheckLoaded says |
| Dashboard.Model.HandleSearchInput | ui.go:374-394 | the fields and the returned command are those of SearchInput |
| Dashboard.Model.CancelSearch | ui.go:378-383 | search mode off, query empty, every repository listed |
| Dashboard.Model.SubmitSearch | ui.go:385-389 | search mode off, then the list filtered by the query as it was |
| Dashboard.Model.HandleReposLoaded | ui.go:252-263 | the fields change as OnReposLoaded says |
| Dashboard.Model.StoreRepos | ui.go:258-259 | the repositories are replaced and listed |
| Dashboard.Model.HandleEventsLoaded | ui.go:265-276 | the fields change as OnEventsLoaded says |
| Dashboard.Model.StoreEvents | ui.go:271-273 | the events and statistics are replaced and the events listed |
| Dashboard.Model.NotifyError | ui.go:254-256 | a failure notification with the given text; nothing else changes |
| Dashboard.Model.Update | ui.go:229-372 | the fields and the returned command are those of Step for every message |
| Dashboard.Model.HandleKey | ui.go:293-362 | the fields and command are those of the key case of Step |
| Dashboard.Model.StartRefresh | ui.go:317-322 | loading on, both loaded flags off, the refreshing success notice; ready and the rest unchanged |
| Dashboard.BuildRepoItems | ui.go:427-430 | one repository entry per repository, in order |
| Dashboard.BuildActivityItems | ui.go:436-439 | one activity entry per event, in order |
| Dashboard.FilterItems | ui.go:450-456 | the entries of exactly the matching repositories, in their order |

## Left out

- HTTP, headers, `GITHUB_TOKEN`, status codes, JSON decoding and the rate-limit
  check are network I/O. Decoded pages and events are inputs instead, and a failed
  request is an `Err` page whose text is the error.
- Printing (`printTopRepo`, the print statements of `printPublicRepos` and
  `calculatePublicReposStats`) is output only. The figures it prints are modelled.
- Utils.FormatNumber: the `%.1f` rendering of the "k" and "M" branches is floating-point
  output. Only the branch and the value it renders are modelled.
- The floating-point averages of `calculatePublicReposStats` and of the stats view
  are not modelled.
- The clipboard, `git clone` and browser commands run external processes. Their
  outcome reaches the model as a `Notification` message. The Clone, Copy and Open
  keys are modelled as keys passed to the widget (`WidgetCmd`), which is what the
  code does unless a repository entry is selected in the List view; the external
  command they start then is not modelled, because the widget's selection is not.
- The help key ("?") returns no command, as in the code; the help panel it toggles
  is presentation and is not modelled.
- The command a widget returns for a key passed to it (ui.go:350-362, 392-393) is
  the single value `WidgetCmd`: what the list, table, viewport or text input does
  with the key is library code.
- Window size, spinner, table, viewport, help and every `View`/`render*` function
  are presentation. This includes `updateRepoTable`, `updateTableSize` and
  `updateStatsView`, which nextView calls for the Stats view.
- Cursor movement and filtering inside the Bubble Tea list widget are library
  code. The widget is modelled as its entries and title only.
- The Bubble Tea runtime's `tea.Batch` and `tea.Tick` timing are concurrency and
  timers. Commands are returned as `Cmd` values, and their completions arrive as
  messages in any order.
- DashboardSpec.EditQuery models the text input as a value edited at its end. Cursor movement,
  and typing or deleting elsewhere in the field, are library code that is not modelled.
- Strings.ToLower lower-cases ASCII letters only, while Go's `strings.ToLower` folds all of
  Unicode. Case-insensitive matching therefore holds only for ASCII letters.
- The text of a Go `error` is taken as given. `%v` formatting of the wrapped
  errors is not modelled.
- `Update` has a value receiver in Go and returns the changed copy. The class here
  is changed in place, which is the same state as far as any caller can see.
- The `repos []RepoInfo` field of `Model` is never assigned in the source, so it is
  not a field of the model.
- The payload and actor of events, the event description text and the repository
  descriptions of `getTopRepos` (always empty there) carry no logic.
- ApiRepos.Collect: the Go loop has no page bound and would ask for pages forever
  if every page were full. The model's pages are a finite sequence, and past its end
  the server answers an empty page (ApiRepos.PageAt), which is what makes the
  paging terminate.
- Go's `int` is 64 bits wide. Counters, totals, scores and timestamps here are
  unbounded integers, so overflow after 2^63 - 1 events or stars is not modelled.
- Timestamps are integers with the zero time as 0. The "strictly later" comparison
  of `time.After` is kept.
- main.go (argument parsing, help, version and program start) and style.go are not
  part of this model.

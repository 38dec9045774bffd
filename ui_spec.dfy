/** The dashboard of ui.go as a value-level reducer: the part of `Model` the
    message handlers change, the messages they receive, and `Step`, which is
    what `Update` does to that state. The class in ui_model.dfy is proved to
    follow `Step`; the lemmas here state what the handlers promise. */
module DashboardSpec {
  import opened Types
  import opened Strings
  import opened ApiStats
  import opened ApiRepos

  // ---------------------------------------------------------------------------
  // Views

  /** The four tabs, in the order of their declaration. */
  datatype View = RepoListView | RepoTableView | StatsView | ActivityView

  /** The `iota` value of each view. */
  function ViewIndex(v: View): nat {
    match v
    case RepoListView => 0
    case RepoTableView => 1
    case StatsView => 2
    case ActivityView => 3
  }

  /** nextView's switch: each view moves to the one declared after it, the last back to the first. */
  function Successor(v: View): (w: View)
    ensures ViewIndex(w) == (ViewIndex(v) + 1) % 4
  {
    match v
    case RepoListView => RepoTableView
    case RepoTableView => StatsView
    case StatsView => ActivityView
    case ActivityView => RepoListView
  }

  /** Four Tab presses come back to the starting view after visiting each other view once. */
  lemma {:induction false} ViewCycle(v: View)
    ensures Successor(Successor(Successor(Successor(v)))) == v
    ensures |{v, Successor(v), Successor(Successor(v)), Successor(Successor(Successor(v)))}| == 4
  {
    var v1 := Successor(v);
    var v2 := Successor(v1);
    var v3 := Successor(v2);
    var v4 := Successor(v3);
    // the indices of v .. v4 are i, i+1, i+2, i+3, i+4 modulo 4
    assert ViewIndex(v4) == ViewIndex(v);
    assert ViewIndex(v1) != ViewIndex(v) && ViewIndex(v2) != ViewIndex(v) && ViewIndex(v3) != ViewIndex(v);
    assert ViewIndex(v2) != ViewIndex(v1) && ViewIndex(v3) != ViewIndex(v1) && ViewIndex(v3) != ViewIndex(v2);
  }

  // ---------------------------------------------------------------------------
  // Messages and commands

  /** An entry of the list widget: a repository or an activity event. */
  datatype ListItem = RepoItem(repo: PublicRepo) | ActivityItem(event: GitHubEvent)

  /** The keys the handlers tell apart. Printable keys arrive as `Rune`. */
  datatype Key = Tab | Esc | CtrlC | Enter | Backspace | Rune(c: char)

  const SearchRune: char := '/'
  const RefreshRune: char := 'r'
  const QuitRune: char := 'q'
  const HelpRune: char := '?'

  /** The search field's character limit set by NewModel. */
  const SearchCharLimit: nat := 50

  /** The "quit" binding: q, esc and ctrl+c. */
  predicate IsQuitKey(k: Key) {
    k == Esc || k == CtrlC || k == Rune(QuitRune)
  }

  /** The messages Update handles; an error is the text of the Go `error`. */
  datatype Msg =
    | ReposLoaded(repos: seq<PublicRepo>, reposErr: Option<string>)
    | EventsLoaded(events: seq<GitHubEvent>, stats: GitHubStats, eventsErr: Option<string>)
    | Notification(message: string, isSuccess: bool)
    | ClearNotification
    | KeyPress(key: Key)

  /** The commands Update hands back to the runtime. */
  datatype Cmd =
    | NoCmd
    | QuitCmd
    /** Both loaders, batched (loadData). */
    | LoadDataCmd
    /** The three-second timer that delivers ClearNotification. */
    | ClearAfterDelayCmd
    /** The cursor blink of the focused search field. */
    | BlinkCmd
    /** Whatever command the focused widget (list, table, viewport or search
        field) hands back for a key passed on to it; it may be none. */
    | WidgetCmd

  // ---------------------------------------------------------------------------
  // State

  /** The fields of `Model` the handlers touch; `query` is the search field's
      text and `items`/`title` the content of the list widget. */
  datatype DashState = DashState(
    username: string,
    events: seq<GitHubEvent>,
    publicRepos: seq<PublicRepo>,
    stats: GitHubStats,
    currentView: View,
    loading: bool,
    ready: bool,
    searchMode: bool,
    notification: string,
    notifSuccess: bool,
    reposLoaded: bool,
    eventsLoaded: bool,
    query: string,
    items: seq<ListItem>,
    title: string)

  const LoadingTitle: string := "Loading..."

  /** NewModel: List view, loading, nothing loaded, an empty list titled "Loading...". */
  function Initial(username: string): DashState {
    DashState(username, [], [], ZeroStats, RepoListView, true, false, false, "", false,
              false, false, "", [], LoadingTitle)
  }

  function RepoItems(rs: seq<PublicRepo>): seq<ListItem> {
    seq(|rs|, i requires 0 <= i < |rs| => RepoItem(rs[i]))
  }

  function ActivityItems(es: seq<GitHubEvent>): seq<ListItem> {
    seq(|es|, i requires 0 <= i < |es| => ActivityItem(es[i]))
  }

  lemma RepoItemsMembership(rs: seq<PublicRepo>)
    ensures forall x :: RepoItem(x) in RepoItems(rs) <==> x in rs
    ensures forall it :: it in RepoItems(rs) ==> it.RepoItem?
  {
    forall x | x in rs ensures RepoItem(x) in RepoItems(rs) {
      var i :| 0 <= i < |rs| && rs[i] == x;
      assert RepoItems(rs)[i] == RepoItem(x);
    }
  }

  function RepoListTitle(n: nat): string {
    "\U{1F4C1} Public Repositories (" + NatToString(n) + ")"
  }

  function ActivityTitle(n: nat): string {
    "\U{26A1} Recent Activity (" + NatToString(n) + " events)"
  }

  function MatchTitle(query: string, n: nat): string {
    "\U{1F4C1} Repositories matching '" + query + "' (" + NatToString(n) + ")"
  }

  const ReposErrorPrefix: string := "\U{274C} Error loading repositories: "
  const EventsErrorPrefix: string := "\U{274C} Error loading activity: "
  const RefreshingNotice: string := "\U{1F504} Refreshing data..."

  // ---------------------------------------------------------------------------
  // The search filter

  /** The repository's lower-cased name or description contains the lower-cased query. */
  predicate Matches(r: PublicRepo, query: string) {
    Contains(ToLower(r.name), ToLower(query)) || Contains(ToLower(r.description), ToLower(query))
  }

  /** The repositories filterRepoList keeps, in their order. */
  function FilterRepos(rs: seq<PublicRepo>, query: string): (r: seq<PublicRepo>)
    ensures |r| <= |rs|
    ensures forall x :: x in r <==> x in rs && Matches(x, query)
    decreases |rs|
  {
    if rs == [] then []
    else
      var init := FilterRepos(rs[..|rs| - 1], query);
      var last := rs[|rs| - 1];
      assert rs == rs[..|rs| - 1] + [last];
      if Matches(last, query) then init + [last] else init
  }

  /** Filtering works piece by piece, so the kept repositories stay in their order. */
  lemma {:induction false} FilterReposAppend(a: seq<PublicRepo>, b: seq<PublicRepo>, query: string)
    ensures FilterRepos(a + b, query) == FilterRepos(a, query) + FilterRepos(b, query)
    decreases |b|
  {
    if b == [] {
      assert a + b == a;
    } else {
      var init := b[..|b| - 1];
      assert (a + b)[..|a + b| - 1] == a + init;
      assert (a + b)[|a + b| - 1] == b[|b| - 1];
      FilterReposAppend(a, init, query);
    }
  }

  /** The empty query matches every repository. */
  lemma {:induction false} FilterEmptyQuery(rs: seq<PublicRepo>)
    ensures FilterRepos(rs, "") == rs
    decreases |rs|
  {
    if rs != [] {
      var last := rs[|rs| - 1];
      assert OccursAt(ToLower(last.name), ToLower(""), 0);
      FilterEmptyQuery(rs[..|rs| - 1]);
      assert rs == rs[..|rs| - 1] + [last];
    }
  }

  /** A repository with only a name and a description. */
  function Named(name: string, description: string): PublicRepo {
    PublicRepo(name, "", description, "", "", 0, 0, "", 0, 0, false)
  }

  /** Case does not matter on either side. */
  lemma MatchIgnoresCase()
    ensures Matches(Named("Dafny", ""), "dAF")
  {
    assert ToLower("Dafny") == "dafny";
    assert ToLower("dAF") == "daf";
    assert OccursAt("dafny", "daf", 0);
  }

  /** A query and its lower-cased form select the same repositories. */
  lemma MatchLowersQuery(r: PublicRepo, q: string)
    ensures Matches(r, q) == Matches(r, ToLower(q))
  {
    ToLowerIdempotent(q);
  }

  /** The description is searched as well as the name. */
  lemma MatchSearchesDescription()
    ensures Matches(Named("x", "a CLI"), "cli")
  {
    assert ToLower("a CLI") == "a cli";
    assert ToLower("cli") == "cli";
    assert OccursAt("a cli", "cli", 2);
  }

  /** A repository whose fields do not contain the query is not a match. */
  lemma NoMatchWithoutOccurrence()
    ensures !Matches(Named("go", ""), "z")
  {
    assert ToLower("go") == "go";
    assert ToLower("z") == "z";
    assert ToLower("") == "";
    assert forall i :: !OccursAt("go", "z", i) by {
      forall i | 0 <= i < 2 ensures "go"[i] != 'z' {
      }
    }
  }

  // ---------------------------------------------------------------------------
  // The handlers

  /** updateRepoList: every public repository, titled with their number. */
  function ShowRepoList(s: DashState): (r: DashState)
    ensures r == s.(items := r.items, title := r.title)
  {
    s.(items := RepoItems(s.publicRepos), title := RepoListTitle(|s.publicRepos|))
  }

  /** updateActivityList: every event, titled with their number. */
  function ShowActivityList(s: DashState): (r: DashState)
    ensures r == s.(items := r.items, title := r.title)
  {
    s.(items := ActivityItems(s.events), title := ActivityTitle(|s.events|))
  }

  /** filterRepoList: the unfiltered list for the empty query, otherwise the matches. */
  function ShowFiltered(s: DashState, query: string): (r: DashState)
    ensures r == s.(items := r.items, title := r.title)
    ensures query == "" ==> r == ShowRepoList(s)
    ensures query != "" ==> r.items == RepoItems(FilterRepos(s.publicRepos, query))
    ensures query != "" ==> r.title == MatchTitle(query, |FilterRepos(s.publicRepos, query)|)
  {
    if query == "" then ShowRepoList(s)
    else
      var kept := FilterRepos(s.publicRepos, query);
      s.(items := RepoItems(kept), title := MatchTitle(query, |kept|))
  }

  /** nextView: the next tab, refreshing the list when it arrives at a list view.
      The statistics viewport is not part of this state. */
  function AfterNextView(s: DashState): (r: DashState)
    ensures r == s.(currentView := Successor(s.currentView), items := r.items, title := r.title)
    ensures r.currentView == RepoListView ==>
              r.items == RepoItems(s.publicRepos) && r.title == RepoListTitle(|s.publicRepos|)
    ensures r.currentView == ActivityView ==>
              r.items == ActivityItems(s.events) && r.title == ActivityTitle(|s.events|)
    ensures r.currentView != RepoListView && r.currentView != ActivityView ==>
              r.items == s.items && r.title == s.title
  {
    var t := s.(currentView := Successor(s.currentView));
    match t.currentView
    case RepoListView => ShowRepoList(t)
    case ActivityView => ShowActivityList(t)
    case _ => t
  }

  /** checkLoadingComplete: loading ends, and the dashboard becomes ready,
      exactly when both loads have arrived; nothing else changes. */
  function CheckLoaded(s: DashState): (r: DashState)
    ensures r == s.(loading := r.loading, ready := r.ready)
    ensures r.loading <==> s.loading && !(s.reposLoaded && s.eventsLoaded)
    ensures r.ready <==> s.ready || (s.reposLoaded && s.eventsLoaded)
  {
    if s.reposLoaded && s.eventsLoaded then s.(loading := false, ready := true) else s
  }

  /** The repos-loaded handler: the repositories count as loaded whatever the
      outcome; an error keeps the repositories and reports a failure, a success
      replaces the repositories and lists them; loading ends if the events are in. */
  function OnReposLoaded(s: DashState, repos: seq<PublicRepo>, err: Option<string>): (r: DashState)
    ensures r.reposLoaded && r.eventsLoaded == s.eventsLoaded
    ensures r.loading == (s.loading && !s.eventsLoaded) && r.ready == (s.ready || s.eventsLoaded)
    ensures r.events == s.events && r.stats == s.stats
    ensures r.currentView == s.currentView && r.searchMode == s.searchMode && r.query == s.query
    ensures r.username == s.username
    ensures err.Some? ==> r.publicRepos == s.publicRepos && r.items == s.items && r.title == s.title
                          && r.notification == ReposErrorPrefix + err.value && !r.notifSuccess
    ensures err.None? ==> r.publicRepos == repos && r.items == RepoItems(repos)
                          && r.title == RepoListTitle(|repos|)
                          && r.notification == s.notification && r.notifSuccess == s.notifSuccess
  {
    if err.Some? then CheckLoaded(s.(reposLoaded := true, notification := ReposErrorPrefix + err.value, notifSuccess := false))
    else CheckLoaded(ShowRepoList(s.(reposLoaded := true, publicRepos := repos)))
  }

  /** The events-loaded handler, symmetric to OnReposLoaded for the events and
      their statistics. */
  function OnEventsLoaded(s: DashState, events: seq<GitHubEvent>, stats: GitHubStats, err: Option<string>): (r: DashState)
    ensures r.eventsLoaded && r.reposLoaded == s.reposLoaded
    ensures r.loading == (s.loading && !s.reposLoaded) && r.ready == (s.ready || s.reposLoaded)
    ensures r.publicRepos == s.publicRepos
    ensures r.currentView == s.currentView && r.searchMode == s.searchMode && r.query == s.query
    ensures r.username == s.username
    ensures err.Some? ==> r.events == s.events && r.stats == s.stats && r.items == s.items && r.title == s.title
                          && r.notification == EventsErrorPrefix + err.value && !r.notifSuccess
    ensures err.None? ==> r.events == events && r.stats == stats && r.items == ActivityItems(events)
                          && r.title == ActivityTitle(|events|)
                          && r.notification == s.notification && r.notifSuccess == s.notifSuccess
  {
    if err.Some? then CheckLoaded(s.(eventsLoaded := true, notification := EventsErrorPrefix + err.value, notifSuccess := false))
    else CheckLoaded(ShowActivityList(s.(eventsLoaded := true, events := events, stats := stats)))
  }

  /** The search field's own handling of an editing key: Backspace deletes the
      last character, a printable key is appended while the text is shorter
      than the limit, and any other key leaves the text alone. */
  function EditQuery(q: string, k: Key): (r: string)
    ensures |r| <= if |q| < SearchCharLimit then SearchCharLimit else |q|
    ensures k.Rune? && |q| < SearchCharLimit ==> r == q + [k.c]
    ensures k.Backspace? && q != [] ==> r + [q[|q| - 1]] == q
    ensures k.Rune? && |q| >= SearchCharLimit ==> r == q
    ensures k.Backspace? && q == [] ==> r == q
    ensures !k.Rune? && !k.Backspace? ==> r == q
  {
    match k
    case Backspace => if q == [] then q else q[..|q| - 1]
    case Rune(c) => if |q| < SearchCharLimit then q + [c] else q
    case _ => q
  }

  /** handleSearchInput: Esc and ctrl+c leave search and restore the full list,
      Enter leaves search and filters by the query, every other key edits the
      query at its end (Tab is ignored by the field). */
  function SearchInput(s: DashState, k: Key): (r: (DashState, Cmd))
    ensures r.0 == s.(searchMode := r.0.searchMode, query := r.0.query, items := r.0.items, title := r.0.title)
    ensures r.0.searchMode <==> s.searchMode && k != Esc && k != CtrlC && k != Enter
    ensures r.1 == if k == Esc || k == CtrlC || k == Enter then NoCmd else WidgetCmd
    ensures k != Esc && k != CtrlC && k != Enter ==> r.0 == s.(query := EditQuery(s.query, k))
  {
    if k == Esc || k == CtrlC then (ShowRepoList(s.(searchMode := false, query := "")), NoCmd)
    else if k == Enter then (ShowFiltered(s.(searchMode := false), s.query), NoCmd)
    else (s.(query := EditQuery(s.query, k)), WidgetCmd)
  }

  /** Update: one message applied to the dashboard. */
  function Step(s: DashState, msg: Msg): (DashState, Cmd) {
    match msg
    case ReposLoaded(repos, err) => (OnReposLoaded(s, repos, err), NoCmd)
    case EventsLoaded(events, stats, err) => (OnEventsLoaded(s, events, stats, err), NoCmd)
    case Notification(message, ok) => (s.(notification := message, notifSuccess := ok), ClearAfterDelayCmd)
    case ClearNotification => (s.(notification := ""), NoCmd)
    case KeyPress(k) => OnKey(s, k)
  }

  /** The key case of Update: search mode takes every key; otherwise quit, help,
      Tab, "/" in List view and refresh act, and any other key is passed to the
      focused widget, whose command is returned. */
  function OnKey(s: DashState, k: Key): (DashState, Cmd) {
    if s.searchMode then SearchInput(s, k)
    else if IsQuitKey(k) then (s, QuitCmd)
    else if k == Rune(HelpRune) then (s, NoCmd)
    else if k == Tab then (AfterNextView(s), NoCmd)
    else if k == Rune(SearchRune) then
      if s.currentView == RepoListView then (s.(searchMode := true), BlinkCmd) else (s, WidgetCmd)
    else if k == Rune(RefreshRune) then
      (s.(loading := true, reposLoaded := false, eventsLoaded := false,
          notification := RefreshingNotice, notifSuccess := true), LoadDataCmd)
    else (s, WidgetCmd)
  }

  /** Outside search mode, a key bound to nothing the model acts on is passed to
      the widget: its command is returned and the state is kept. */
  lemma UnboundKeysReachWidget(s: DashState, k: Key)
    requires !s.searchMode && !IsQuitKey(k) && k != Tab
    requires k != Rune(HelpRune) && k != Rune(RefreshRune)
    requires k == Rune(SearchRune) ==> s.currentView != RepoListView
    ensures OnKey(s, k) == (s, WidgetCmd)
  {
  }

  // ---------------------------------------------------------------------------
  // Loading

  /** The dashboard is loading exactly while one of the two loads since the
      last refresh is outstanding, and it is ready once it has stopped loading. */
  ghost predicate LoadInvariant(s: DashState) {
    (s.loading <==> !(s.reposLoaded && s.eventsLoaded)) && (s.loading || s.ready)
  }

  lemma InitialLoadInvariant(username: string)
    ensures LoadInvariant(Initial(username)) && !Initial(username).ready
  {
  }

  /** Every message keeps the load invariant. */
  lemma StepKeepsLoadInvariant(s: DashState, msg: Msg)
    requires LoadInvariant(s)
    ensures LoadInvariant(Step(s, msg).0)
  {
    match msg
    case ReposLoaded(repos, err) =>
    case EventsLoaded(events, stats, err) =>
    case Notification(_, _) =>
    case ClearNotification =>
    case KeyPress(k) =>
  }

  /** The two load messages commute on the data and the load flags. */
  lemma LoadOrderCommutes(s: DashState, repos: seq<PublicRepo>, rerr: Option<string>,
                          events: seq<GitHubEvent>, stats: GitHubStats, eerr: Option<string>)
    ensures var a := Step(Step(s, ReposLoaded(repos, rerr)).0, EventsLoaded(events, stats, eerr)).0;
            var b := Step(Step(s, EventsLoaded(events, stats, eerr)).0, ReposLoaded(repos, rerr)).0;
      && a.reposLoaded == b.reposLoaded && a.eventsLoaded == b.eventsLoaded
      && a.loading == b.loading && a.ready == b.ready
      && a.publicRepos == b.publicRepos && a.events == b.events && a.stats == b.stats
      && a.reposLoaded && a.eventsLoaded && !a.loading && a.ready
  {
  }

  /** ... but the list does not: whichever load arrives last fills it. */
  lemma LoadOrderChangesList(r: PublicRepo, e: GitHubEvent)
    ensures var s := Initial("u");
            var a := Step(Step(s, ReposLoaded([r], None)).0, EventsLoaded([e], ZeroStats, None)).0;
            var b := Step(Step(s, EventsLoaded([e], ZeroStats, None)).0, ReposLoaded([r], None)).0;
            a.items == [ActivityItem(e)] && b.items == [RepoItem(r)]
  {
    assert ActivityItems([e]) == [ActivityItem(e)];
    assert RepoItems([r]) == [RepoItem(r)];
  }

  /** Refresh starts loading again, keeps `ready`, and waits for both loads. */
  lemma RefreshWaitsForBoth(s: DashState, repos: seq<PublicRepo>, rerr: Option<string>,
                            events: seq<GitHubEvent>, stats: GitHubStats, eerr: Option<string>)
    requires !s.searchMode
    ensures var (s1, cmd) := Step(s, KeyPress(Rune(RefreshRune)));
            var s2 := Step(s1, ReposLoaded(repos, rerr)).0;
            var s3 := Step(s2, EventsLoaded(events, stats, eerr)).0;
      && cmd == LoadDataCmd && s1.ready == s.ready
      && s1.notification == RefreshingNotice && s1.notifSuccess
      && s1.loading && !s1.reposLoaded && !s1.eventsLoaded
      && s2.loading && s2.ready == s.ready
      && !s3.loading && s3.ready
  {
  }

  // ---------------------------------------------------------------------------
  // Data loaded through the loaders

  /** The statistics belong to the events, and no private repository is held. */
  ghost predicate DataInvariant(s: DashState) {
    s.stats == StatsOf(s.events) && forall r :: r in s.publicRepos ==> !r.isPrivate
  }

  /** A message as the loaders send it: successful loads carry public
      repositories, and events with their own statistics. */
  ghost predicate WellFormedMsg(msg: Msg) {
    match msg
    case ReposLoaded(repos, err) => err.None? ==> forall r :: r in repos ==> !r.isPrivate
    case EventsLoaded(events, stats, err) => err.None? ==> stats == StatsOf(events)
    case _ => true
  }

  /** loadReposCmd over the pages the listing serves. */
  function LoadReposMsg(pages: seq<Result<seq<PublicRepo>>>): Msg {
    match Collect(pages, 1)
    case Ok(repos) => ReposLoaded(repos, None)
    case Err(e) => ReposLoaded([], Some(e))
  }

  /** loadEventsCmd: the fetched events with their statistics, or the error alone. */
  function LoadEventsMsg(fetched: Result<seq<GitHubEvent>>): Msg {
    match fetched
    case Ok(events) => EventsLoaded(events, StatsOf(events), None)
    case Err(e) => EventsLoaded([], ZeroStats, Some(e))
  }

  lemma LoadersAreWellFormed(pages: seq<Result<seq<PublicRepo>>>, fetched: Result<seq<GitHubEvent>>)
    ensures WellFormedMsg(LoadReposMsg(pages))
    ensures WellFormedMsg(LoadEventsMsg(fetched))
  {
    CollectIsPublic(pages, 1);
  }

  lemma InitialDataInvariant(username: string)
    ensures DataInvariant(Initial(username))
  {
    assert StatsOf([]) == ZeroStats;
  }

  /** Messages as the loaders send them keep the data invariant. */
  lemma StepKeepsDataInvariant(s: DashState, msg: Msg)
    requires DataInvariant(s) && WellFormedMsg(msg)
    ensures DataInvariant(Step(s, msg).0)
  {
    if msg.KeyPress? {
      KeyKeepsData(s, msg.key);
    }
  }

  /** No key changes the repositories, the events or the statistics. */
  lemma KeyKeepsData(s: DashState, k: Key)
    ensures var t := Step(s, KeyPress(k)).0;
            t.publicRepos == s.publicRepos && t.events == s.events && t.stats == s.stats
  {
    if s.searchMode {
    } else if k == Tab {
    } else {
    }
  }

  // ---------------------------------------------------------------------------
  // Notifications

  /** A notification shows until the next clear, which empties it whatever it
      is and keeps the success flag. */
  lemma NotifyThenClear(s: DashState, message: string, ok: bool)
    ensures var (t, cmd) := Step(s, Notification(message, ok));
      && cmd == ClearAfterDelayCmd && t.notification == message && t.notifSuccess == ok
      && Step(t, ClearNotification) == (s.(notification := "", notifSuccess := ok), NoCmd)
  {
  }

  /** The timer of a first notification also clears a second one shown before it fires. */
  lemma ClearRacesNewerNotification(s: DashState, m1: string, ok1: bool, m2: string, ok2: bool)
    ensures var t := Step(Step(Step(s, Notification(m1, ok1)).0, Notification(m2, ok2)).0, ClearNotification).0;
            t.notification == "" && t.notifSuccess == ok2
  {
  }

  // ---------------------------------------------------------------------------
  // Search

  /** Search mode starts only with "/" in List view. */
  lemma SearchEntry(s: DashState, k: Key)
    requires !s.searchMode
    ensures Step(s, KeyPress(k)).0.searchMode <==> s.currentView == RepoListView && k == Rune(SearchRune)
  {
  }

  /** In search mode every key goes to the search field: none quits, switches
      view, refreshes or touches the data, the load flags or the notification. */
  lemma SearchCapturesKeys(s: DashState, k: Key)
    requires s.searchMode
    ensures var (t, cmd) := Step(s, KeyPress(k));
      && cmd == (if k == Esc || k == CtrlC || k == Enter then NoCmd else WidgetCmd)
      && t.currentView == s.currentView && t.publicRepos == s.publicRepos
      && t.events == s.events && t.stats == s.stats
      && t.loading == s.loading && t.ready == s.ready
      && t.reposLoaded == s.reposLoaded && t.eventsLoaded == s.eventsLoaded
      && t.notification == s.notification && t.notifSuccess == s.notifSuccess
      && (t.searchMode <==> k != Esc && k != CtrlC && k != Enter)
      && (k != Esc && k != CtrlC && k != Enter ==> t == s.(query := EditQuery(s.query, k)))
  {
  }

  /** Esc and ctrl+c leave search, clear the query and restore the full list. */
  lemma SearchEscRestores(s: DashState, k: Key)
    requires s.searchMode && (k == Esc || k == CtrlC)
    ensures var t := Step(s, KeyPress(k)).0;
      && !t.searchMode && t.query == ""
      && t.items == RepoItems(s.publicRepos) && t.title == RepoListTitle(|s.publicRepos|)
  {
  }

  /** Enter leaves search and lists, in their order, exactly the repositories
      matching the query; the repositories themselves stay as they were. */
  lemma SearchEnterFilters(s: DashState)
    requires s.searchMode
    ensures var t := Step(s, KeyPress(Enter)).0;
      && !t.searchMode && t.publicRepos == s.publicRepos && t.query == s.query
      && t.items == RepoItems(FilterRepos(s.publicRepos, s.query))
      && (forall it :: it in t.items ==> it.RepoItem?)
      && (forall x :: RepoItem(x) in t.items <==> x in s.publicRepos && Matches(x, s.query))
  {
    if s.query == "" {
      FilterEmptyQuery(s.publicRepos);
    }
    RepoItemsMembership(FilterRepos(s.publicRepos, s.query));
  }

  /** The query never grows beyond the field's limit. */
  lemma StepKeepsQueryBounded(s: DashState, msg: Msg)
    requires |s.query| <= SearchCharLimit
    ensures |Step(s, msg).0.query| <= SearchCharLimit
  {
    match msg
    case ReposLoaded(repos, err) =>
      assert OnReposLoaded(s, repos, err).query == s.query;
    case EventsLoaded(events, stats, err) =>
      assert OnEventsLoaded(s, events, stats, err).query == s.query;
    case Notification(_, _) =>
    case ClearNotification =>
    case KeyPress(k) =>
      KeyKeepsQueryBounded(s, k);
  }

  lemma KeyKeepsQueryBounded(s: DashState, k: Key)
    requires |s.query| <= SearchCharLimit
    ensures |Step(s, KeyPress(k)).0.query| <= SearchCharLimit
  {
    if s.searchMode && k != Esc && k != CtrlC && k != Enter {
      assert Step(s, KeyPress(k)).0.query == EditQuery(s.query, k);
    }
  }

  /** Backspace undoes a typed character. */
  lemma TypeThenBackspace(s: DashState, c: char)
    requires s.searchMode && |s.query| < SearchCharLimit
    ensures Step(Step(s, KeyPress(Rune(c))).0, KeyPress(Backspace)).0 == s
  {
    assert (s.query + [c])[..|s.query|] == s.query;
  }
}

/** The dashboard `Model` of ui.go as an object: its handlers assign its fields
    one by one and rebuild the list with loops, as the Go methods do. Each
    handler is proved to change the fields exactly as the matching function
    of DashboardSpec changes the abstract state. */
module Dashboard {
  import opened Types
  import opened Strings
  import opened DashboardSpec

  class Model {
    var username: string
    var events: seq<GitHubEvent>
    var publicRepos: seq<PublicRepo>
    var stats: GitHubStats
    var currentView: View
    var loading: bool
    var ready: bool
    var searchMode: bool
    var notification: string
    var notifSuccess: bool
    var reposLoaded: bool
    var eventsLoaded: bool
    /** The text of the search field. */
    var query: string
    /** The entries and the title of the list widget. */
    var items: seq<ListItem>
    var title: string

    /** The fields as the abstract dashboard state. */
    function State(): DashState
      reads this
    {
      DashState(username, events, publicRepos, stats, currentView, loading, ready, searchMode,
                notification, notifSuccess, reposLoaded, eventsLoaded, query, items, title)
    }

    /** NewModel. */
    constructor (username: string)
      ensures State() == Initial(username)
    {
      this.username := username;
      events := [];
      publicRepos := [];
      stats := ZeroStats;
      currentView := RepoListView;
      loading := true;
      ready := false;
      searchMode := false;
      notification := "";
      notifSuccess := false;
      reposLoaded := false;
      eventsLoaded := false;
      query := "";
      items := [];
      title := LoadingTitle;
    }

    /** updateRepoList. */
    method UpdateRepoList()
      modifies this
      ensures State() == ShowRepoList(old(State()))
    {
      items := BuildRepoItems(publicRepos);
      title := RepoListTitle(|publicRepos|);
    }

    /** updateActivityList. */
    method UpdateActivityList()
      modifies this
      ensures State() == ShowActivityList(old(State()))
    {
      items := BuildActivityItems(events);
      title := ActivityTitle(|events|);
    }

    /** filterRepoList. */
    method FilterRepoList(q: string)
      modifies this
      ensures State() == ShowFiltered(old(State()), q)
    {
      if q == "" {
        UpdateRepoList();
        return;
      }
      var filtered := FilterItems(publicRepos, q);
      items := filtered;
      title := MatchTitle(q, |filtered|);
    }

    /** nextView. */
    method NextView()
      modifies this
      ensures State() == AfterNextView(old(State()))
    {
      match currentView {
        case RepoListView => currentView := RepoTableView;
        case RepoTableView => currentView := StatsView;
        case StatsView => currentView := ActivityView;
        case ActivityView => currentView := RepoListView;
      }

      match currentView {
        case RepoListView => UpdateRepoList();
        case ActivityView => UpdateActivityList();
        case _ =>
      }
    }

    /** checkLoadingComplete. */
    method CheckLoadingComplete()
      modifies this
      ensures State() == CheckLoaded(old(State()))
    {
      if reposLoaded && eventsLoaded {
        loading := false;
        ready := true;
      }
    }

    /** handleSearchInput. */
    method HandleSearchInput(k: Key) returns (cmd: Cmd)
      modifies this
      ensures (State(), cmd) == SearchInput(old(State()), k)
    {
      cmd := NoCmd;
      if k == Esc || k == CtrlC {
        CancelSearch();
      } else if k == Enter {
        SubmitSearch();
      } else {
        query := EditQuery(query, k);
        cmd := WidgetCmd;
      }
    }

    /** Esc or ctrl+c in search mode: leave search, clear the query, list every repository. */
    method CancelSearch()
      modifies this
      ensures State() == ShowRepoList(old(State()).(searchMode := false, query := ""))
    {
      searchMode := false;
      query := "";
      UpdateRepoList();
    }

    /** Enter in search mode: leave search and list the repositories the query matches. */
    method SubmitSearch()
      modifies this
      ensures State() == ShowFiltered(old(State()).(searchMode := false), old(query))
    {
      searchMode := false;
      FilterRepoList(query);
    }

    /** The reposLoadedMsg case of Update. */
    method HandleReposLoaded(repos: seq<PublicRepo>, err: Option<string>)
      modifies this
      ensures State() == OnReposLoaded(old(State()), repos, err)
    {
      reposLoaded := true;
      if err.Some? {
        NotifyError(ReposErrorPrefix + err.value);
      } else {
        StoreRepos(repos);
      }
      CheckLoadingComplete();
    }

    /** A successful repository load: the repositories replace the old ones and are listed. */
    method StoreRepos(repos: seq<PublicRepo>)
      modifies this
      ensures State() == ShowRepoList(old(State()).(publicRepos := repos))
    {
      publicRepos := repos;
      UpdateRepoList();
    }

    /** The eventsLoadedMsg case of Update. */
    method HandleEventsLoaded(events: seq<GitHubEvent>, stats: GitHubStats, err: Option<string>)
      modifies this
      ensures State() == OnEventsLoaded(old(State()), events, stats, err)
    {
      eventsLoaded := true;
      if err.Some? {
        NotifyError(EventsErrorPrefix + err.value);
      } else {
        StoreEvents(events, stats);
      }
      CheckLoadingComplete();
    }

    /** A successful events load: the events and their statistics replace the
        old ones and the events are listed. */
    method StoreEvents(events: seq<GitHubEvent>, stats: GitHubStats)
      modifies this
      ensures State() == ShowActivityList(old(State()).(events := events, stats := stats))
    {
      this.events := events;
      this.stats := stats;
      UpdateActivityList();
    }

    /** A failed load: the error's text becomes a failure notification. */
    method NotifyError(message: string)
      modifies this
      ensures State() == old(State()).(notification := message, notifSuccess := false)
    {
      notification := message;
      notifSuccess := false;
    }

    /** Update: the model after one message, and the command it returns. */
    method Update(msg: Msg) returns (cmd: Cmd)
      modifies this
      ensures (State(), cmd) == Step(old(State()), msg)
    {
      match msg
      case ReposLoaded(repos, err) =>
        HandleReposLoaded(repos, err);
        cmd := NoCmd;
      case EventsLoaded(events, stats, err) =>
        HandleEventsLoaded(events, stats, err);
        cmd := NoCmd;
      case Notification(message, ok) =>
        notification := message;
        notifSuccess := ok;
        cmd := ClearAfterDelayCmd;
      case ClearNotification =>
        notification := "";
        cmd := NoCmd;
      case KeyPress(k) =>
        cmd := HandleKey(k);
    }

    /** The tea.KeyMsg case of Update: search mode takes every key; otherwise
        quit, help, Tab, "/" in List view and refresh act, and the rest go to
        the focused widget, whose command is returned. */
    method HandleKey(k: Key) returns (cmd: Cmd)
      modifies this
      ensures (State(), cmd) == OnKey(old(State()), k)
    {
      if searchMode {
        cmd := HandleSearchInput(k);
      } else if IsQuitKey(k) {
        cmd := QuitCmd;
      } else if k == Rune(HelpRune) {
        cmd := NoCmd;
      } else if k == Tab {
        NextView();
        cmd := NoCmd;
      } else if k == Rune(SearchRune) && currentView == RepoListView {
        searchMode := true;
        cmd := BlinkCmd;
      } else if k == Rune(RefreshRune) {
        StartRefresh();
        cmd := LoadDataCmd;
      } else {
        cmd := WidgetCmd;
      }
    }

    /** The refresh key: both loads start over and a success notification says so. */
    method StartRefresh()
      modifies this
      ensures State() == old(State()).(loading := true, reposLoaded := false, eventsLoaded := false,
                                       notification := RefreshingNotice, notifSuccess := true)
    {
      loading := true;
      reposLoaded := false;
      eventsLoaded := false;
      notification := RefreshingNotice;
      notifSuccess := true;
    }
  }

  /** The item loop of updateRepoList: one repository entry per repository, in order. */
  method BuildRepoItems(repos: seq<PublicRepo>) returns (items: seq<ListItem>)
    ensures items == RepoItems(repos)
  {
    var list := new ListItem[|repos|];
    for i := 0 to |repos|
      invariant forall j :: 0 <= j < i ==> list[j] == RepoItem(repos[j])
    {
      list[i] := RepoItem(repos[i]);
    }
    items := list[..];
  }

  /** The item loop of updateActivityList: one activity entry per event, in order. */
  method BuildActivityItems(events: seq<GitHubEvent>) returns (items: seq<ListItem>)
    ensures items == ActivityItems(events)
  {
    var list := new ListItem[|events|];
    for i := 0 to |events|
      invariant forall j :: 0 <= j < i ==> list[j] == ActivityItem(events[j])
    {
      list[i] := ActivityItem(events[i]);
    }
    items := list[..];
  }

  /** The loop of filterRepoList: an entry for each repository whose lower-cased
      name or description contains the lower-cased query, in order. */
  method FilterItems(repos: seq<PublicRepo>, q: string) returns (filtered: seq<ListItem>)
    ensures filtered == RepoItems(FilterRepos(repos, q))
    ensures forall x :: RepoItem(x) in filtered <==> x in repos && Matches(x, q)
  {
    filtered := [];
    ghost var kept: seq<PublicRepo> := [];
    for i := 0 to |repos|
      invariant kept == FilterRepos(repos[..i], q)
      invariant filtered == RepoItems(kept)
    {
      var repo := repos[i];
      assert repos[..i + 1] == repos[..i] + [repo];
      if Contains(ToLower(repo.name), ToLower(q)) || Contains(ToLower(repo.description), ToLower(q)) {
        assert RepoItems(kept + [repo]) == filtered + [RepoItem(repo)];
        filtered := filtered + [RepoItem(repo)];
        kept := kept + [repo];
      }
    }
    assert repos[..|repos|] == repos;
    RepoItemsMembership(kept);
  }

}

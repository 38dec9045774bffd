/** The aggregation half of api.go: counting events by kind (calculateStats)
    and grouping events by repository (getTopRepos). */
module ApiStats {
  import opened Types
  import opened BubbleSort

  /** The nine kinds calculateStats names, and the catch-all. */
  datatype EventKind = Push | Issues | Watch | Fork | Create | Delete | PullRequest | Release | Public | Other

  /** The "type" string GitHub sends for each named kind. */
  function TypeName(k: EventKind): string
    requires k != Other
  {
    match k
    case Push => "PushEvent"
    case Issues => "IssuesEvent"
    case Watch => "WatchEvent"
    case Fork => "ForkEvent"
    case Create => "CreateEvent"
    case Delete => "DeleteEvent"
    case PullRequest => "PullRequestEvent"
    case Release => "ReleaseEvent"
    case Public => "PublicEvent"
  }

  /** The switch of calculateStats: the kind whose type string `t` is. */
  function Classify(t: string): EventKind {
    if t == "PushEvent" then Push
    else if t == "IssuesEvent" then Issues
    else if t == "WatchEvent" then Watch
    else if t == "ForkEvent" then Fork
    else if t == "CreateEvent" then Create
    else if t == "DeleteEvent" then Delete
    else if t == "PullRequestEvent" then PullRequest
    else if t == "ReleaseEvent" then Release
    else if t == "PublicEvent" then Public
    else Other
  }

  /** Each of the nine type strings selects its own kind. */
  lemma ClassifyTypeName(k: EventKind)
    requires k != Other
    ensures Classify(TypeName(k)) == k
  {
  }

  /** A string classified as one of the nine kinds is that kind's type string. */
  lemma ClassifyNamesKind(t: string)
    ensures Classify(t) != Other ==> TypeName(Classify(t)) == t
  {
  }

  /** Exactly the strings that name none of the nine kinds fall into Other. */
  lemma ClassifyOther(t: string)
    ensures Classify(t) == Other <==> forall j: EventKind :: j != Other ==> TypeName(j) != t
  {
    var k := Classify(t);
    if k != Other {
      assert TypeName(k) == t;
    }
  }

  /** The counter of `s` that holds kind `k`. */
  function Counter(s: GitHubStats, k: EventKind): int {
    match k
    case Push => s.pushEvents
    case Issues => s.issueEvents
    case Watch => s.watchEvents
    case Fork => s.forkEvents
    case Create => s.createEvents
    case Delete => s.deleteEvents
    case PullRequest => s.pullRequestEvents
    case Release => s.releaseEvents
    case Public => s.publicEvents
    case Other => s.otherEvents
  }

  /** The ten kind counters added up. */
  function SumOfCounters(s: GitHubStats): int {
    s.pushEvents + s.issueEvents + s.watchEvents + s.forkEvents + s.createEvents
    + s.deleteEvents + s.pullRequestEvents + s.releaseEvents + s.publicEvents + s.otherEvents
  }

  /** One loop iteration of calculateStats: the total and exactly one kind counter go up by one. */
  function Bump(s: GitHubStats, k: EventKind): (r: GitHubStats)
    ensures r.totalEvents == s.totalEvents + 1
    ensures forall j :: Counter(r, j) == Counter(s, j) + (if j == k then 1 else 0)
    ensures SumOfCounters(r) == SumOfCounters(s) + 1
  {
    var s := s.(totalEvents := s.totalEvents + 1);
    match k
    case Push => s.(pushEvents := s.pushEvents + 1)
    case Issues => s.(issueEvents := s.issueEvents + 1)
    case Watch => s.(watchEvents := s.watchEvents + 1)
    case Fork => s.(forkEvents := s.forkEvents + 1)
    case Create => s.(createEvents := s.createEvents + 1)
    case Delete => s.(deleteEvents := s.deleteEvents + 1)
    case PullRequest => s.(pullRequestEvents := s.pullRequestEvents + 1)
    case Release => s.(releaseEvents := s.releaseEvents + 1)
    case Public => s.(publicEvents := s.publicEvents + 1)
    case Other => s.(otherEvents := s.otherEvents + 1)
  }

  /** The statistics calculateStats reaches after the given events, in order. */
  function StatsOf(events: seq<GitHubEvent>): GitHubStats {
    if events == [] then ZeroStats
    else Bump(StatsOf(events[..|events| - 1]), Classify(events[|events| - 1].eventType))
  }

  lemma StatsOfSnoc(events: seq<GitHubEvent>, e: GitHubEvent)
    ensures StatsOf(events + [e]) == Bump(StatsOf(events), Classify(e.eventType))
  {
    assert (events + [e])[..|events|] == events;
  }

  /** How many of the events have a type string of kind `k`. */
  function CountOfKind(events: seq<GitHubEvent>, k: EventKind): nat {
    if events == [] then 0
    else (if Classify(events[0].eventType) == k then 1 else 0) + CountOfKind(events[1..], k)
  }

  lemma {:induction false} CountOfKindAppend(events: seq<GitHubEvent>, e: GitHubEvent, k: EventKind)
    ensures CountOfKind(events + [e], k) == CountOfKind(events, k) + (if Classify(e.eventType) == k then 1 else 0)
  {
    if events != [] {
      assert (events + [e])[1..] == events[1..] + [e];
      CountOfKindAppend(events[1..], e, k);
    }
  }

  /** Every counter of calculateStats holds the number of events of its kind. */
  lemma {:induction false} StatsOfCountsKinds(events: seq<GitHubEvent>, k: EventKind)
    ensures Counter(StatsOf(events), k) == CountOfKind(events, k)
  {
    if events != [] {
      var init := events[..|events| - 1];
      var last := events[|events| - 1];
      assert events == init + [last];
      StatsOfCountsKinds(init, k);
      CountOfKindAppend(init, last, k);
    }
  }

  lemma StatsOfCountsAllKinds(events: seq<GitHubEvent>)
    ensures forall k :: Counter(StatsOf(events), k) == CountOfKind(events, k)
  {
    forall k ensures Counter(StatsOf(events), k) == CountOfKind(events, k) {
      StatsOfCountsKinds(events, k);
    }
  }

  /** TotalEvents is the length of the list, and the ten kind counters add up to it:
      each event lands in exactly one of them. */
  lemma {:induction false} StatsOfTotal(events: seq<GitHubEvent>)
    ensures StatsOf(events).totalEvents == |events|
    ensures SumOfCounters(StatsOf(events)) == |events|
  {
    if events != [] {
      StatsOfTotal(events[..|events| - 1]);
    }
  }

  /** An event whose type names none of the nine kinds is counted as Other. */
  lemma UnknownTypeCountsAsOther(events: seq<GitHubEvent>, e: GitHubEvent)
    requires forall j: EventKind :: j != Other ==> TypeName(j) != e.eventType
    ensures StatsOf(events + [e]).otherEvents == StatsOf(events).otherEvents + 1
    ensures forall j :: j != Other ==> Counter(StatsOf(events + [e]), j) == Counter(StatsOf(events), j)
  {
    assert (events + [e])[..|events|] == events;
    ClassifyOther(e.eventType);
  }

  /** The switch in the body of calculateStats' loop: the total and the counter
      named by the type string go up by one. */
  method CountEvent(stats: GitHubStats, t: string) returns (r: GitHubStats)
    ensures r == Bump(stats, Classify(t))
  {
    r := stats.(totalEvents := stats.totalEvents + 1);
    if t == "PushEvent" {
      r := r.(pushEvents := r.pushEvents + 1);
    } else if t == "IssuesEvent" {
      r := r.(issueEvents := r.issueEvents + 1);
    } else if t == "WatchEvent" {
      r := r.(watchEvents := r.watchEvents + 1);
    } else if t == "ForkEvent" {
      r := r.(forkEvents := r.forkEvents + 1);
    } else if t == "CreateEvent" {
      r := r.(createEvents := r.createEvents + 1);
    } else if t == "DeleteEvent" {
      r := r.(deleteEvents := r.deleteEvents + 1);
    } else if t == "PullRequestEvent" {
      r := r.(pullRequestEvents := r.pullRequestEvents + 1);
    } else if t == "ReleaseEvent" {
      r := r.(releaseEvents := r.releaseEvents + 1);
    } else if t == "PublicEvent" {
      r := r.(publicEvents := r.publicEvents + 1);
    } else {
      r := r.(otherEvents := r.otherEvents + 1);
    }
  }

  /** calculateStats: one pass over the events from the zero value. */
  method CalculateStats(events: seq<GitHubEvent>) returns (stats: GitHubStats)
    ensures stats == StatsOf(events)
    ensures stats.totalEvents == |events|
    ensures forall k :: Counter(stats, k) == CountOfKind(events, k)
  {
    stats := ZeroStats;
    for i := 0 to |events|
      invariant stats == StatsOf(events[..i])
    {
      StatsOfSnoc(events[..i], events[i]);
      assert events[..i + 1] == events[..i] + [events[i]];
      stats := CountEvent(stats, events[i].eventType);
    }
    assert events[..|events|] == events;
    StatsOfTotal(events);
    StatsOfCountsAllKinds(events);
  }

  // ---------------------------------------------------------------------------
  // getTopRepos

  /** The repository names getTopRepos keys on: every non-empty name in the events. */
  function NamesOf(events: seq<GitHubEvent>): set<string> {
    if events == [] then {}
    else
      var last := events[|events| - 1];
      NamesOf(events[..|events| - 1]) + (if last.repo.name != "" then {last.repo.name} else {})
  }

  /** How many events name repository `name`. */
  function CountFor(events: seq<GitHubEvent>, name: string): nat {
    if events == [] then 0
    else CountFor(events[..|events| - 1], name) + (if events[|events| - 1].repo.name == name then 1 else 0)
  }

  /** The latest timestamp among the events of `name`, starting from the zero
      time and replaced only by a strictly later one. */
  function LatestFor(events: seq<GitHubEvent>, name: string): int {
    if events == [] then ZeroTime
    else
      var before := LatestFor(events[..|events| - 1], name);
      var last := events[|events| - 1];
      if last.repo.name == name && last.createdAt > before then last.createdAt else before
  }

  /** The entry getTopRepos builds for repository `name`. */
  function RepoEntry(events: seq<GitHubEvent>, name: string): RepoInfo {
    RepoInfo(name, "https://github.com/" + name, "https://github.com/" + name + ".git",
             CountFor(events, name), LatestFor(events, name), "")
  }

  /** A name is keyed exactly when it is non-empty and some event names it. */
  lemma {:induction false} NamesOfCounted(events: seq<GitHubEvent>, name: string)
    ensures name in NamesOf(events) <==> name != "" && CountFor(events, name) > 0
  {
    if events != [] {
      NamesOfCounted(events[..|events| - 1], name);
    }
  }

  /** LastActivity is the maximum of the zero time and the timestamps of the
      repository's events, and is one of them unless it is the zero time. */
  lemma {:induction false} LatestForIsMaximum(events: seq<GitHubEvent>, name: string)
    ensures LatestFor(events, name) >= ZeroTime
    ensures forall i :: 0 <= i < |events| && events[i].repo.name == name ==> events[i].createdAt <= LatestFor(events, name)
    ensures LatestFor(events, name) == ZeroTime
            || exists i :: 0 <= i < |events| && events[i].repo.name == name && events[i].createdAt == LatestFor(events, name)
  {
    if events != [] {
      var init := events[..|events| - 1];
      LatestForIsMaximum(init, name);
      assert forall i :: 0 <= i < |init| ==> init[i] == events[i];
    }
  }

  /** The counting loop of getTopRepos: per non-empty repository name, how many
      events name it and the latest of their timestamps (missing keys read as
      zero, as Go map lookups do). */
  method CountActivity(events: seq<GitHubEvent>) returns (repoCount: map<string, int>, reposLastAct: map<string, int>)
    ensures repoCount.Keys == NamesOf(events)
    ensures forall n :: n != "" ==> GetOr(repoCount, n, 0) == CountFor(events, n)
    ensures forall n :: n != "" ==> GetOr(reposLastAct, n, ZeroTime) == LatestFor(events, n)
  {
    repoCount := map[];
    reposLastAct := map[];
    for k := 0 to |events|
      invariant repoCount.Keys == NamesOf(events[..k])
      invariant forall n :: n != "" ==> GetOr(repoCount, n, 0) == CountFor(events[..k], n)
      invariant forall n :: n != "" ==> GetOr(reposLastAct, n, ZeroTime) == LatestFor(events[..k], n)
    {
      assert events[..k + 1][..k] == events[..k];
      var e := events[k];
      if e.repo.name != "" {
        repoCount := repoCount[e.repo.name := GetOr(repoCount, e.repo.name, 0) + 1];
        if e.createdAt > GetOr(reposLastAct, e.repo.name, ZeroTime) {
          reposLastAct := reposLastAct[e.repo.name := e.createdAt];
        }
      }
    }
    assert events[..|events|] == events;
  }

  /** The map-to-slice loop of getTopRepos: one entry per key, visited in an
      arbitrary order (Go leaves map iteration order unspecified). */
  method CollectEntries(events: seq<GitHubEvent>, repoCount: map<string, int>, reposLastAct: map<string, int>)
    returns (unsorted: seq<RepoInfo>)
    requires repoCount.Keys == NamesOf(events)
    requires forall n :: n != "" ==> GetOr(repoCount, n, 0) == CountFor(events, n)
    requires forall n :: n != "" ==> GetOr(reposLastAct, n, ZeroTime) == LatestFor(events, n)
    ensures forall i :: 0 <= i < |unsorted| ==> unsorted[i].name in NamesOf(events)
    ensures forall i :: 0 <= i < |unsorted| ==> unsorted[i] == RepoEntry(events, unsorted[i].name)
    ensures forall n :: n in NamesOf(events) ==> exists i :: 0 <= i < |unsorted| && unsorted[i].name == n
    ensures forall i, j :: 0 <= i < j < |unsorted| ==> unsorted[i].name != unsorted[j].name
  {
    var remaining := repoCount.Keys;
    unsorted := [];
    while remaining != {}
      invariant remaining <= repoCount.Keys
      invariant forall i :: 0 <= i < |unsorted| ==> unsorted[i].name in repoCount.Keys - remaining
      invariant forall i :: 0 <= i < |unsorted| ==> unsorted[i] == RepoEntry(events, unsorted[i].name)
      invariant forall n :: n in repoCount.Keys - remaining ==> exists i :: 0 <= i < |unsorted| && unsorted[i].name == n
      invariant forall i, j :: 0 <= i < j < |unsorted| ==> unsorted[i].name != unsorted[j].name
      decreases remaining
    {
      var name :| name in remaining;
      NamesOfCounted(events, name);
      var entry := RepoInfo(name, "https://github.com/" + name, "https://github.com/" + name + ".git",
                            repoCount[name], GetOr(reposLastAct, name, ZeroTime), "");
      ghost var before, wasRemaining := unsorted, remaining;
      unsorted := unsorted + [entry];
      remaining := remaining - {name};
      forall n | n in repoCount.Keys - remaining
        ensures exists i :: 0 <= i < |unsorted| && unsorted[i].name == n
      {
        if n == name {
          assert unsorted[|before|].name == n;
        } else {
          assert n in repoCount.Keys - wasRemaining;
          var i :| 0 <= i < |before| && before[i].name == n;
          assert unsorted[i].name == n;
        }
      }
    }
    assert repoCount.Keys - remaining == NamesOf(events);
  }

  /** Reordering the entries keeps what they say about the events. */
  lemma SortedEntriesDescribeEvents(events: seq<GitHubEvent>, unsorted: seq<RepoInfo>, repos: seq<RepoInfo>)
    requires multiset(unsorted) == multiset(repos)
    requires forall i :: 0 <= i < |unsorted| ==> unsorted[i].name in NamesOf(events)
    requires forall i :: 0 <= i < |unsorted| ==> unsorted[i] == RepoEntry(events, unsorted[i].name)
    requires forall n :: n in NamesOf(events) ==> exists i :: 0 <= i < |unsorted| && unsorted[i].name == n
    requires forall i, j :: 0 <= i < j < |unsorted| ==> unsorted[i].name != unsorted[j].name
    ensures forall i :: 0 <= i < |repos| ==> repos[i].name in NamesOf(events)
    ensures forall i :: 0 <= i < |repos| ==> repos[i] == RepoEntry(events, repos[i].name)
    ensures forall n :: n in NamesOf(events) ==> exists i :: 0 <= i < |repos| && repos[i].name == n
    ensures forall i, j :: 0 <= i < j < |repos| ==> repos[i].name != repos[j].name
  {
    assert Distinct(unsorted);
    PermutationKeepsDistinct(unsorted, repos);
    forall i | 0 <= i < |repos|
      ensures repos[i].name in NamesOf(events) && repos[i] == RepoEntry(events, repos[i].name)
    {
      assert repos[i] in multiset(unsorted);
    }
    forall n | n in NamesOf(events) ensures exists i :: 0 <= i < |repos| && repos[i].name == n {
      var j :| 0 <= j < |unsorted| && unsorted[j].name == n;
      assert unsorted[j] in multiset(repos);
    }
  }

  /** getTopRepos: counts events and tracks the latest timestamp per repository
      name, turns the two maps into entries and bubble-sorts them by count,
      largest first. */
  method GetTopRepos(events: seq<GitHubEvent>) returns (repos: seq<RepoInfo>)
    ensures SortedDesc(repos, (r: RepoInfo) => r.count)
    ensures forall i :: 0 <= i < |repos| ==> repos[i].name in NamesOf(events)
    ensures forall i :: 0 <= i < |repos| ==> repos[i] == RepoEntry(events, repos[i].name)
    ensures forall n :: n in NamesOf(events) ==> exists i :: 0 <= i < |repos| && repos[i].name == n
    ensures forall i, j :: 0 <= i < j < |repos| ==> repos[i].name != repos[j].name
  {
    var repoCount, reposLastAct := CountActivity(events);
    var unsorted := CollectEntries(events, repoCount, reposLastAct);

    var a := new RepoInfo[|unsorted|](i requires 0 <= i < |unsorted| => unsorted[i]);
    assert a[..] == unsorted;
    BubbleSortDesc(a, (r: RepoInfo) => r.count);
    repos := a[..];
    SortedEntriesDescribeEvents(events, unsorted, repos);
  }
}

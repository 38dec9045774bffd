/** Records shared by the aggregation code and the dashboard (types.go).
    Timestamps are integers; JSON tags and the event payload are not modelled. */
module Types {

  datatype Option<T> = None | Some(value: T)

  /** A Go `(value, error)` pair: either the value or the error's text. */
  datatype Result<T> = Ok(value: T) | Err(error: string)

  /** A Go map read: the stored value, or the zero value `default` for a missing key. */
  function GetOr<K, V>(m: map<K, V>, k: K, default: V): V {
    if k in m then m[k] else default
  }

  /** Go's zero `time.Time`, the start value of every "latest activity" search. */
  const ZeroTime: int := 0

  datatype Repo = Repo(name: string, url: string)

  /** One activity item of the events feed; `eventType` is the raw "type" string. */
  datatype GitHubEvent = GitHubEvent(eventType: string, actorLogin: string, repo: Repo, createdAt: int)

  /** Nine named event counters, the catch-all counter and the total. */
  datatype GitHubStats = GitHubStats(
    pushEvents: int,
    issueEvents: int,
    watchEvents: int,
    forkEvents: int,
    createEvents: int,
    deleteEvents: int,
    pullRequestEvents: int,
    releaseEvents: int,
    publicEvents: int,
    otherEvents: int,
    totalEvents: int)

  /** The zero value of GitHubStats. */
  const ZeroStats := GitHubStats(0, 0, 0, 0, 0, 0, 0, 0, 0, 0, 0)

  /** Per-repository activity summary built from the events feed. */
  datatype RepoInfo = RepoInfo(
    name: string,
    url: string,
    cloneURL: string,
    count: int,
    lastActivity: int,
    description: string)

  /** One repository of the user's repository listing. */
  datatype PublicRepo = PublicRepo(
    name: string,
    fullName: string,
    description: string,
    url: string,
    cloneURL: string,
    stars: int,
    forks: int,
    language: string,
    createdAt: int,
    updatedAt: int,
    isPrivate: bool)
}

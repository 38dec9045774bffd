/** The repository half of api.go: the paging loop of fetchPublicRepos over
    pages the HTTP layer has already decoded, the star sort of printPublicRepos
    and the aggregation of calculatePublicReposStats. */
module ApiRepos {
  import opened Types
  import opened BubbleSort

  /** The `per_page` value fetchPublicRepos asks for. */
  const PerPage: nat := 100

  /** What the server answers for page number `page` (counted from 1): the
      decoded repositories or the error of that request. Pages past the end of
      `pages` come back empty, as the API answers past the last page. */
  function PageAt(pages: seq<Result<seq<PublicRepo>>>, page: nat): Result<seq<PublicRepo>>
    requires page >= 1
  {
    if page <= |pages| then pages[page - 1] else Ok([])
  }

  /** The repositories whose `private` flag is false, in their order. */
  function PublicOnly(repos: seq<PublicRepo>): (r: seq<PublicRepo>)
    ensures forall x :: x in r <==> x in repos && !x.isPrivate
  {
    if repos == [] then []
    else
      var last := repos[|repos| - 1];
      assert repos == repos[..|repos| - 1] + [last];
      PublicOnly(repos[..|repos| - 1]) + (if last.isPrivate then [] else [last])
  }

  lemma {:induction false} PublicOnlyAppend(a: seq<PublicRepo>, b: seq<PublicRepo>)
    ensures PublicOnly(a + b) == PublicOnly(a) + PublicOnly(b)
    decreases |b|
  {
    if b == [] {
      assert a + b == a;
    } else {
      assert (a + b)[..|a + b| - 1] == a + b[..|b| - 1];
      PublicOnlyAppend(a, b[..|b| - 1]);
    }
  }

  /** Puts already collected repositories in front of a later outcome; an error discards them. */
  function Prepend(prefix: seq<PublicRepo>, r: Result<seq<PublicRepo>>): Result<seq<PublicRepo>> {
    match r
    case Err(e) => Err(e)
    case Ok(rest) => Ok(prefix + rest)
  }

  lemma PrependTwice(a: seq<PublicRepo>, b: seq<PublicRepo>, r: Result<seq<PublicRepo>>)
    ensures Prepend(a, Prepend(b, r)) == Prepend(a + b, r)
  {
    if r.Ok? {
      assert a + (b + r.value) == (a + b) + r.value;
    }
  }

  /** What fetchPublicRepos returns when it starts at page `page`: stop with the
      error of a failed page, stop at an empty page, keep the public repositories
      of a page and stop if it is shorter than PerPage, otherwise go on. */
  function Collect(pages: seq<Result<seq<PublicRepo>>>, page: nat): Result<seq<PublicRepo>>
    requires page >= 1
    decreases |pages| + 1 - page
  {
    match PageAt(pages, page)
    case Err(e) => Err(e)
    case Ok(repos) =>
      if |repos| == 0 then Ok([])
      else if |repos| < PerPage then Ok(PublicOnly(repos))
      else Prepend(PublicOnly(repos), Collect(pages, page + 1))
  }

  /** The listing never holds a private repository. */
  lemma {:induction false} CollectIsPublic(pages: seq<Result<seq<PublicRepo>>>, page: nat)
    requires page >= 1
    ensures Collect(pages, page).Ok? ==> forall x :: x in Collect(pages, page).value ==> !x.isPrivate
    decreases |pages| + 1 - page
  {
    match PageAt(pages, page)
    case Err(e) =>
    case Ok(repos) =>
      if |repos| >= PerPage {
        CollectIsPublic(pages, page + 1);
      }
  }

  /** The filter loop of fetchPublicRepos: appends the page's repositories
      whose `private` flag is false. */
  method AppendPublic(allRepos: seq<PublicRepo>, repos: seq<PublicRepo>) returns (r: seq<PublicRepo>)
    ensures r == allRepos + PublicOnly(repos)
  {
    r := allRepos;
    for k := 0 to |repos|
      invariant r == allRepos + PublicOnly(repos[..k])
    {
      assert repos[..k + 1] == repos[..k] + [repos[k]];
      PublicOnlyAppend(repos[..k], [repos[k]]);
      if !repos[k].isPrivate {
        r := r + [repos[k]];
      }
    }
    assert repos[..|repos|] == repos;
  }

  /** The paging loop of fetchPublicRepos, page 1 first. */
  method FetchPublicRepos(pages: seq<Result<seq<PublicRepo>>>) returns (result: Result<seq<PublicRepo>>)
    ensures result == Collect(pages, 1)
    ensures result.Ok? ==> forall x :: x in result.value ==> !x.isPrivate
  {
    var allRepos: seq<PublicRepo> := [];
    var page := 1;
    assert Collect(pages, 1).Ok? ==> [] + Collect(pages, 1).value == Collect(pages, 1).value;
    while true
      invariant 1 <= page <= |pages| + 1
      invariant Collect(pages, 1) == Prepend(allRepos, Collect(pages, page))
      decreases |pages| + 1 - page
    {
      var fetched := PageAt(pages, page);
      if fetched.Err? {
        CollectIsPublic(pages, 1);
        return Err(fetched.error);
      }
      var repos := fetched.value;
      if |repos| == 0 {
        assert allRepos + [] == allRepos;
        break;
      }
      ghost var before := allRepos;
      allRepos := AppendPublic(allRepos, repos);
      if |repos| < PerPage {
        break;
      }
      PrependTwice(before, PublicOnly(repos), Collect(pages, page + 1));
      page := page + 1;
    }
    result := Ok(allRepos);
    CollectIsPublic(pages, 1);
  }

  /** A listing served as full pages followed by one shorter page. */
  ghost predicate WellFormedListing(listing: seq<seq<PublicRepo>>) {
    |listing| >= 1
    && (forall i :: 0 <= i < |listing| - 1 ==> |listing[i]| >= PerPage)
    && |listing[|listing| - 1]| < PerPage
  }

  /** Every page of `listing` answered successfully. */
  function Served(listing: seq<seq<PublicRepo>>): (pages: seq<Result<seq<PublicRepo>>>)
    ensures |pages| == |listing|
    ensures forall i :: 0 <= i < |listing| ==> pages[i] == Ok(listing[i])
  {
    if listing == [] then [] else [Ok(listing[0])] + Served(listing[1..])
  }

  function Concat(listing: seq<seq<PublicRepo>>): seq<PublicRepo> {
    if listing == [] then [] else listing[0] + Concat(listing[1..])
  }

  /** Over a listing served without errors, fetchPublicRepos keeps exactly the
      public repositories of all pages, in page order. */
  lemma {:induction false} CollectKeepsPublicInOrder(listing: seq<seq<PublicRepo>>)
    requires WellFormedListing(listing)
    ensures Collect(Served(listing), 1) == Ok(PublicOnly(Concat(listing)))
  {
    CollectFrom(listing, 0);
    assert listing[0..] == listing;
  }

  lemma {:induction false} CollectFrom(listing: seq<seq<PublicRepo>>, i: nat)
    requires WellFormedListing(listing)
    requires i < |listing|
    ensures Collect(Served(listing), i + 1) == Ok(PublicOnly(Concat(listing[i..])))
    decreases |listing| - i
  {
    var repos := listing[i];
    assert listing[i..] == [repos] + listing[i + 1..];
    if i < |listing| - 1 {
      CollectFrom(listing, i + 1);
      PublicOnlyAppend(repos, Concat(listing[i + 1..]));
    } else {
      assert listing[i + 1..] == [];
      assert repos + [] == repos;
    }
  }

  /** A page that is not full ends the loop: nothing after it is ever requested. */
  lemma {:induction false} CollectStopsAtLastPage(pages: seq<Result<seq<PublicRepo>>>, later: seq<Result<seq<PublicRepo>>>, page: nat)
    requires 1 <= page <= |pages|
    requires pages[|pages| - 1].Err? || |pages[|pages| - 1].value| < PerPage
    ensures Collect(pages + later, page) == Collect(pages, page)
    decreases |pages| - page
  {
    assert PageAt(pages + later, page) == PageAt(pages, page);
    if page < |pages| {
      CollectStopsAtLastPage(pages, later, page + 1);
    }
  }

  /** A failing request ends the loop with that request's error. */
  lemma {:induction false} CollectFailsOnError(listing: seq<seq<PublicRepo>>, e: string, later: seq<Result<seq<PublicRepo>>>)
    requires forall i :: 0 <= i < |listing| ==> |listing[i]| >= PerPage
    ensures Collect(Served(listing) + [Err(e)] + later, 1) == Err(e)
  {
    FailsFrom(listing, e, later, 0);
  }

  lemma {:induction false} FailsFrom(listing: seq<seq<PublicRepo>>, e: string, later: seq<Result<seq<PublicRepo>>>, i: nat)
    requires forall i :: 0 <= i < |listing| ==> |listing[i]| >= PerPage
    requires i <= |listing|
    ensures Collect(Served(listing) + [Err(e)] + later, i + 1) == Err(e)
    decreases |listing| - i
  {
    var pages := Served(listing) + [Err(e)] + later;
    if i < |listing| {
      assert pages[i] == Ok(listing[i]);
      FailsFrom(listing, e, later, i + 1);
    } else {
      assert pages[i] == Err(e);
    }
  }

  // ---------------------------------------------------------------------------
  // printPublicRepos

  /** The sort printPublicRepos runs before printing: stars, largest first, in place. */
  method SortByStars(repos: array<PublicRepo>)
    modifies repos
    ensures SortedDesc(repos[..], (r: PublicRepo) => r.stars)
    ensures multiset(repos[..]) == multiset(old(repos[..]))
  {
    if repos.Length == 0 {
      return;
    }
    BubbleSortDesc(repos, (r: PublicRepo) => r.stars);
  }

  // ---------------------------------------------------------------------------
  // calculatePublicReposStats

  /** The figures calculatePublicReposStats prints (the averages are left out). */
  datatype RepoSummary = RepoSummary(
    totalRepos: nat,
    totalStars: int,
    totalForks: int,
    languageCount: map<string, int>,
    mostStarred: PublicRepo,
    mostForked: PublicRepo)

  function TotalStars(repos: seq<PublicRepo>): int {
    if repos == [] then 0 else TotalStars(repos[..|repos| - 1]) + repos[|repos| - 1].stars
  }

  function TotalForks(repos: seq<PublicRepo>): int {
    if repos == [] then 0 else TotalForks(repos[..|repos| - 1]) + repos[|repos| - 1].forks
  }

  /** How many repositories have primary language `lang`. */
  function LanguageUses(repos: seq<PublicRepo>, lang: string): nat {
    if repos == [] then 0
    else LanguageUses(repos[..|repos| - 1], lang) + (if repos[|repos| - 1].language == lang then 1 else 0)
  }

  /** The two counts the summary looks for a maximum of. */
  datatype Measure = ByStars | ByForks

  function Measured(r: PublicRepo, m: Measure): int {
    if m == ByStars then r.stars else r.forks
  }

  /** `x` is the first element of `repos` whose measure is the largest. */
  ghost predicate FirstMaximum(repos: seq<PublicRepo>, x: PublicRepo, m: Measure) {
    exists i :: 0 <= i < |repos| && repos[i] == x
      && (forall j :: 0 <= j < |repos| ==> Measured(repos[j], m) <= Measured(x, m))
      && (forall j :: 0 <= j < i ==> Measured(repos[j], m) < Measured(x, m))
  }

  /** `m` holds, for every non-empty language of `rs`, how many repositories use it. */
  ghost predicate CountsLanguages(m: map<string, int>, rs: seq<PublicRepo>) {
    && (forall l :: l in m <==> l != "" && LanguageUses(rs, l) > 0)
    && (forall l :: l in m ==> m[l] == LanguageUses(rs, l))
  }

  /** One step of the language count: a non-empty language gains one use. */
  lemma CountLanguageStep(m: map<string, int>, rs: seq<PublicRepo>, repo: PublicRepo)
    requires CountsLanguages(m, rs)
    ensures CountsLanguages(if repo.language != "" then m[repo.language := GetOr(m, repo.language, 0) + 1] else m,
                            rs + [repo])
  {
    assert (rs + [repo])[..|rs|] == rs;
  }

  /** `repos[at]` is the first repository of `repos[..k]` with the largest measure. */
  ghost predicate LeadsPrefix(repos: seq<PublicRepo>, k: int, at: int, m: Measure) {
    && 0 <= at < |repos| && at <= k <= |repos|
    && (forall j :: 0 <= j < k ==> Measured(repos[j], m) <= Measured(repos[at], m))
    && (forall j :: 0 <= j < at ==> Measured(repos[j], m) < Measured(repos[at], m))
  }

  /** One step of the maximum search: the leader changes only on a strictly larger measure. */
  lemma LeadsStep(repos: seq<PublicRepo>, k: int, at: int, m: Measure)
    requires k < |repos| && LeadsPrefix(repos, k, at, m)
    ensures LeadsPrefix(repos, k + 1, if Measured(repos[k], m) > Measured(repos[at], m) then k else at, m)
  {
  }

  /** The leader of the whole list is its first maximum. */
  lemma LeaderIsFirstMaximum(repos: seq<PublicRepo>, at: int, m: Measure)
    requires LeadsPrefix(repos, |repos|, at, m)
    ensures FirstMaximum(repos, repos[at], m)
  {
  }

  /** calculatePublicReposStats: nothing for an empty list; otherwise the totals,
      the per-language counts (empty language skipped), and the first most
      starred and first most forked repository (replaced only on a strictly
      larger value). */
  method CalculatePublicReposStats(repos: seq<PublicRepo>) returns (summary: Option<RepoSummary>)
    ensures summary.None? <==> repos == []
    ensures summary.Some? ==> summary.value.totalRepos == |repos|
                              && summary.value.totalStars == TotalStars(repos)
                              && summary.value.totalForks == TotalForks(repos)
    ensures summary.Some? ==> CountsLanguages(summary.value.languageCount, repos)
    ensures summary.Some? ==> FirstMaximum(repos, summary.value.mostStarred, ByStars)
    ensures summary.Some? ==> FirstMaximum(repos, summary.value.mostForked, ByForks)
  {
    if |repos| == 0 {
      return None;
    }
    var totalStars, totalForks := 0, 0;
    var languageCount: map<string, int> := map[];
    var mostStarredRepo, mostForkedRepo := repos[0], repos[0];
    ghost var starredAt, forkedAt := 0, 0;
    for k := 0 to |repos|
      invariant totalStars == TotalStars(repos[..k]) && totalForks == TotalForks(repos[..k])
      invariant CountsLanguages(languageCount, repos[..k])
      invariant LeadsPrefix(repos, k, starredAt, ByStars) && repos[starredAt] == mostStarredRepo
      invariant LeadsPrefix(repos, k, forkedAt, ByForks) && repos[forkedAt] == mostForkedRepo
    {
      var repo := repos[k];
      assert repos[..k + 1] == repos[..k] + [repo];
      totalStars := totalStars + repo.stars;
      totalForks := totalForks + repo.forks;
      CountLanguageStep(languageCount, repos[..k], repo);
      if repo.language != "" {
        languageCount := languageCount[repo.language := GetOr(languageCount, repo.language, 0) + 1];
      }
      LeadsStep(repos, k, starredAt, ByStars);
      LeadsStep(repos, k, forkedAt, ByForks);
      if repo.stars > mostStarredRepo.stars {
        mostStarredRepo := repo;
        starredAt := k;
      }
      if repo.forks > mostForkedRepo.forks {
        mostForkedRepo := repo;
        forkedAt := k;
      }
    }
    assert repos[..|repos|] == repos;
    LeaderIsFirstMaximum(repos, starredAt, ByStars);
    LeaderIsFirstMaximum(repos, forkedAt, ByForks);
    summary := Some(RepoSummary(|repos|, totalStars, totalForks, languageCount, mostStarredRepo, mostForkedRepo));
  }
}

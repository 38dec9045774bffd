/** The pure helpers of utils.go: which branch formatNumber takes, the
    activity grade of getGrade and the one-line event text of formatEventShort. */
module Utils {
  import opened Types
  import opened Strings

  // ---------------------------------------------------------------------------
  // formatNumber

  /** The text formatNumber produces: plain `%d` digits, or the value it renders
      with one decimal and a "k" or "M" suffix. */
  datatype NumberText = Plain(text: string) | Thousands(value: int) | Millions(value: int)

  /** formatNumber: plain below 1000, "k" from 1000 below a million, "M" from a million on. */
  function FormatNumber(n: int): (r: NumberText)
    ensures r.Plain? <==> n < 1000
    ensures r.Thousands? <==> 1000 <= n < 1000000
    ensures r.Millions? <==> n >= 1000000
    ensures !r.Plain? ==> r.value == n
    ensures r.Plain? ==> r.text == IntToString(n)
    ensures r.Plain? && n >= 0 ==> ParseDigits(r.text) == n
  {
    if n >= 1000000 then Millions(n)
    else if n >= 1000 then Thousands(n)
    else Plain(IntToString(n))
  }

  // ---------------------------------------------------------------------------
  // getGrade

  /** The nine letter bands, lowest first. */
  datatype Grade = F | D | C | B | BPlus | A | APlus | S | SPlus {

    /** The text getGrade returns. */
    function Name(): string {
      match this
      case F => "F"
      case D => "D"
      case C => "C"
      case B => "B"
      case BPlus => "B+"
      case A => "A"
      case APlus => "A+"
      case S => "S"
      case SPlus => "S+"
    }

    function Rank(): nat {
      match this
      case F => 0
      case D => 1
      case C => 2
      case B => 3
      case BPlus => 4
      case A => 5
      case APlus => 6
      case S => 7
      case SPlus => 8
    }

    /** The band just above this one. */
    function Next(): (g: Grade)
      requires this != SPlus
      ensures g.Rank() == Rank() + 1
    {
      match this
      case F => D
      case D => C
      case C => B
      case B => BPlus
      case BPlus => A
      case A => APlus
      case APlus => S
      case S => SPlus
    }

    /** Twice the score at which the band starts (F has no lower bound). */
    function Threshold(): int
      requires this != F
    {
      match this
      case D => 2
      case C => 6
      case B => 16
      case BPlus => 30
      case A => 50
      case APlus => 80
      case S => 140
      case SPlus => 200
    }
  }

  /** Twice getGrade's score push*1 + pullRequest*3 + create*1 + issue*1.5 + watch*0.5:
      doubling makes every weight whole, so the comparisons stay exact. */
  function DoubledScore(s: GitHubStats): int {
    2 * s.pushEvents + 6 * s.pullRequestEvents + 2 * s.createEvents + 3 * s.issueEvents + s.watchEvents
  }

  /** The switch of getGrade over the doubled thresholds 200, 140, 80, 50, 30, 16, 6, 2:
      the band whose threshold the score reaches and the next band's it does not. */
  function Band(score2: int): (g: Grade)
    ensures g != F ==> score2 >= g.Threshold()
    ensures g != SPlus ==> score2 < g.Next().Threshold()
  {
    if score2 >= 200 then SPlus
    else if score2 >= 140 then S
    else if score2 >= 80 then APlus
    else if score2 >= 50 then A
    else if score2 >= 30 then BPlus
    else if score2 >= 16 then B
    else if score2 >= 6 then C
    else if score2 >= 2 then D
    else F
  }

  /** getGrade: F without events, whatever the counters say; otherwise the band
      of the weighted score. */
  function GetGrade(stats: GitHubStats): (g: Grade)
    ensures stats.totalEvents == 0 ==> g == F
    ensures stats.totalEvents != 0 ==> g == Band(DoubledScore(stats))
  {
    if stats.totalEvents == 0 then F else Band(DoubledScore(stats))
  }

  /** A higher score never gives a lower band. */
  lemma {:induction false} BandMonotone(a: int, b: int)
    requires a <= b
    ensures Band(a).Rank() <= Band(b).Rank()
  {
  }

  /** With events present, a score at least as high never gives a lower grade. */
  lemma GradeMonotone(s: GitHubStats, t: GitHubStats)
    requires s.totalEvents != 0 && t.totalEvents != 0
    requires DoubledScore(s) <= DoubledScore(t)
    ensures GetGrade(s).Rank() <= GetGrade(t).Rank()
  {
    BandMonotone(DoubledScore(s), DoubledScore(t));
  }

  /** The fork, delete, release, public and other counters never change the grade. */
  lemma GradeIgnoresOtherCounters(s: GitHubStats, fork: int, delete: int, release: int, public: int, other: int)
    ensures GetGrade(s.(forkEvents := fork, deleteEvents := delete, releaseEvents := release,
                        publicEvents := public, otherEvents := other)) == GetGrade(s)
  {
  }

  /** Three pushes, two issue events and one star: score 6.5, grade C. */
  lemma GradeExample()
    ensures var stats := GitHubStats(3, 2, 1, 0, 0, 0, 0, 0, 0, 0, 6);
            DoubledScore(stats) == 13 && GetGrade(stats) == C && GetGrade(stats).Name() == "C"
  {
  }

  // ---------------------------------------------------------------------------
  // formatEventShort

  /** The fixed phrases formatEventShort puts before the repository name. */
  const ShortPhrases: map<string, string> := map[
    "PushEvent" := "Pushed to ",
    "IssuesEvent" := "Issue in ",
    "WatchEvent" := "Starred ",
    "ForkEvent" := "Forked ",
    "CreateEvent" := "Created ",
    "PullRequestEvent" := "PR in "]

  /** formatEventShort: the fixed phrase of a phrased type, otherwise the type
      without one trailing "Event", then " in " and the repository name. */
  function FormatEventShort(e: GitHubEvent): (r: string)
    ensures e.eventType in ShortPhrases ==> r == ShortPhrases[e.eventType] + e.repo.name
    ensures e.eventType !in ShortPhrases && HasSuffix(e.eventType, "Event") ==>
              r == e.eventType[..|e.eventType| - 5] + " in " + e.repo.name
    ensures e.eventType !in ShortPhrases && !HasSuffix(e.eventType, "Event") ==>
              r == e.eventType + " in " + e.repo.name
    ensures HasSuffix(r, e.repo.name)
  {
    var name := e.repo.name;
    if e.eventType == "PushEvent" then "Pushed to " + name
    else if e.eventType == "IssuesEvent" then "Issue in " + name
    else if e.eventType == "WatchEvent" then "Starred " + name
    else if e.eventType == "ForkEvent" then "Forked " + name
    else if e.eventType == "CreateEvent" then "Created " + name
    else if e.eventType == "PullRequestEvent" then "PR in " + name
    else TrimSuffix(e.eventType, "Event") + " in " + name
  }

  function Event(t: string, repo: string): GitHubEvent {
    GitHubEvent(t, "", Repo(repo, ""), ZeroTime)
  }

  /** A kind without a phrase reads as its type without the trailing "Event". */
  lemma FormatDeleteEvent()
    ensures FormatEventShort(Event("DeleteEvent", "o/r")) == "Delete in o/r"
  {
    var t := "DeleteEvent";
    assert t[0] == 'D';
    assert t !in ShortPhrases.Keys by {
      forall u | u in ShortPhrases.Keys ensures t != u {
        assert u[0] != t[0];
      }
    }
    assert t[|t| - 5..] == "Event";
  }

  /** Only one trailing "Event" is removed. */
  lemma FormatEventEvent()
    ensures FormatEventShort(Event("EventEvent", "o/r")) == "Event in o/r"
  {
    var t := "EventEvent";
    assert t[0] == 'E';
    assert t !in ShortPhrases.Keys by {
      forall u | u in ShortPhrases.Keys ensures t != u {
        assert u[0] != t[0];
      }
    }
    assert t[|t| - 5..] == "Event";
  }
}

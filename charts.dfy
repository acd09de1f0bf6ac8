/**
 * The data pipelines of the charts component (components/github-charts.tsx):
 * languages by repository count, the most starred repositories, activity by
 * month over the most recently updated repositories, the size distribution,
 * and the summary figures.
 *
 * The component sorts its `repos` prop in place (for the activity chart)
 * before the size data and the summary read it; `GitHubCharts` keeps that
 * order of events on an array, and `ChartsOf` states what it computes.
 */
module Charts {
  import opened GitHub
  import Seqs

  const TopLanguages: nat := 8
  const TopStarred: nat := 10
  const RecentCount: nat := 12
  const NameLimit: nat := 15
  const LargeAbove: nat := 10000
  const MediumAbove: nat := 1000

  // ---------------------------------------------------------------------
  // Languages

  /** The language reduce: one entry per language, keyed in order of first appearance. */
  function LanguageStats(repos: seq<Repo>): seq<Seqs.Group<string>>
  {
    Seqs.Tally(Seqs.Pairs(Seqs.Filter(repos, HasLanguage), Language, Stars))
  }

  /** The repositories written in `lang`. */
  function ReposIn(repos: seq<Repo>, lang: string): seq<Repo>
  {
    Seqs.Filter(Seqs.Filter(repos, HasLanguage), Seqs.WithKey(Language, lang))
  }

  /**
   * Repositories without a language are left out; every language appears
   * once, in order of first appearance, counting the repositories written in
   * it and summing their stars; the counts add up to the number of
   * repositories with a language and the star totals to their stars.
   */
  lemma LanguageStatsCorrect(repos: seq<Repo>)
    ensures Seqs.GroupKeys(LanguageStats(repos)) == Seqs.Distinct(PresentLanguages(repos))
    ensures forall i :: 0 <= i < |LanguageStats(repos)| ==>
      var g := LanguageStats(repos)[i];
      && g.count == |ReposIn(repos, g.key)|
      && g.total == TotalStars(ReposIn(repos, g.key))
    ensures Seqs.SumCounts(LanguageStats(repos)) == |PresentLanguages(repos)|
    ensures Seqs.SumTotals(LanguageStats(repos)) == TotalStars(Seqs.Filter(repos, HasLanguage))
  {
    Seqs.GroupBy(Seqs.Filter(repos, HasLanguage), Language, Stars);
  }

  /** No language is listed without a repository written in it. */
  lemma LanguageCountsPositive(repos: seq<Repo>, i: nat)
    requires i < |LanguageStats(repos)|
    ensures LanguageStats(repos)[i].count >= 1
  {
    var kept := Seqs.Filter(repos, HasLanguage);
    var stats := LanguageStats(repos);
    var lang := stats[i].key;
    LanguageStatsCorrect(repos);
    assert lang in Seqs.GroupKeys(stats) by {
      assert Seqs.GroupKeys(stats)[i] == lang;
    }
    var j :| 0 <= j < |kept| && Language(kept[j]) == lang;
    assert Seqs.WithKey(Language, lang)(kept[j]);
    assert kept[j] in ReposIn(repos, lang);
  }

  function NegCount(g: Seqs.Group<string>): int
  {
    -(g.count as int)
  }

  /**
   * `Object.values(languageData).sort((a, b) => b.count - a.count).slice(0, 8)`:
   * the (at most) eight languages with the most repositories, by count
   * non-increasing; every language left out has no more repositories than
   * any shown.
   */
  function LanguageChartData(stats: seq<Seqs.Group<string>>): (r: seq<Seqs.Group<string>>)
    ensures |r| == if |stats| <= TopLanguages then |stats| else TopLanguages
    ensures forall i, j :: 0 <= i < j < |r| ==> r[i].count >= r[j].count
    ensures multiset(r) <= multiset(stats)
    ensures |stats| <= TopLanguages ==> multiset(r) == multiset(stats)
    ensures forall x, y :: x in r && y in multiset(stats) - multiset(r) ==> x.count >= y.count
  {
    TopCounts(stats);
    Seqs.TopBy(stats, NegCount, TopLanguages)
  }

  lemma TopCounts(stats: seq<Seqs.Group<string>>)
    ensures var r := Seqs.TopBy(stats, NegCount, TopLanguages);
      && (forall i, j :: 0 <= i < j < |r| ==> r[i].count >= r[j].count)
      && (forall x, y :: x in r && y in multiset(stats) - multiset(r) ==> x.count >= y.count)
  {
    var r := Seqs.TopBy(stats, NegCount, TopLanguages);
    forall i, j | 0 <= i < j < |r|
      ensures r[i].count >= r[j].count
    {
      assert NegCount(r[i]) <= NegCount(r[j]);
    }
    forall x, y | x in r && y in multiset(stats) - multiset(r)
      ensures x.count >= y.count
    {
      assert NegCount(x) <= NegCount(y);
    }
  }

  // ---------------------------------------------------------------------
  // Most starred repositories

  predicate IsStarred(r: Repo)
  {
    r.stars > 0
  }

  function NegStars(r: Repo): int
  {
    -(r.stars as int)
  }

  /**
   * `.sort((a, b) => b.stargazers_count - a.stargazers_count).slice(0, 10)`:
   * at most ten of the repositories, by stars non-increasing; all of them when
   * there are at most ten, and otherwise none left out has more stars than
   * one shown.
   */
  function MostStarred(starred: seq<Repo>): (r: seq<Repo>)
    ensures |r| == if |starred| <= TopStarred then |starred| else TopStarred
    ensures forall i, j :: 0 <= i < j < |r| ==> r[i].stars >= r[j].stars
    ensures multiset(r) <= multiset(starred)
    ensures |starred| <= TopStarred ==> multiset(r) == multiset(starred)
    ensures forall x, y :: x in r && y in multiset(starred) - multiset(r) ==> x.stars >= y.stars
  {
    TopStars(starred);
    Seqs.TopBy(starred, NegStars, TopStarred)
  }

  lemma TopStars(starred: seq<Repo>)
    ensures var r := Seqs.TopBy(starred, NegStars, TopStarred);
      && (forall i, j :: 0 <= i < j < |r| ==> r[i].stars >= r[j].stars)
      && (forall x, y :: x in r && y in multiset(starred) - multiset(r) ==> x.stars >= y.stars)
  {
    var r := Seqs.TopBy(starred, NegStars, TopStarred);
    forall i, j | 0 <= i < j < |r|
      ensures r[i].stars >= r[j].stars
    {
      assert NegStars(r[i]) <= NegStars(r[j]);
    }
    forall x, y | x in r && y in multiset(starred) - multiset(r)
      ensures x.stars >= y.stars
    {
      assert NegStars(x) <= NegStars(y);
    }
  }

  /** `repos.filter((repo) => repo.stargazers_count > 0)` ranked: only starred repositories of the list. */
  function TopStarredRepos(repos: seq<Repo>): (r: seq<Repo>)
    ensures r == MostStarred(Seqs.Filter(repos, IsStarred))
    ensures forall i :: 0 <= i < |r| ==> r[i] in repos && r[i].stars > 0
  {
    var top := MostStarred(Seqs.Filter(repos, IsStarred));
    Drawn(repos, top);
    top
  }

  lemma Drawn(repos: seq<Repo>, top: seq<Repo>)
    requires multiset(top) <= multiset(Seqs.Filter(repos, IsStarred))
    ensures forall i :: 0 <= i < |top| ==> top[i] in repos && top[i].stars > 0
  {
    var starred := Seqs.Filter(repos, IsStarred);
    forall i | 0 <= i < |top|
      ensures top[i] in repos && top[i].stars > 0
    {
      assert top[i] in multiset(top);
      assert top[i] in multiset(starred);
      var k :| 0 <= k < |starred| && starred[k] == top[i];
    }
  }

  /** A chart label: names longer than fifteen characters are cut to fifteen and marked with "...". */
  function ShortName(name: string): (r: string)
    ensures |name| <= NameLimit ==> r == name
    ensures |r| <= NameLimit + 3
    ensures |name| > NameLimit ==> |r| == NameLimit + 3 && r[..NameLimit] == name[..NameLimit] && r[NameLimit..] == "..."
  {
    if |name| > NameLimit then name[..NameLimit] + "..." else name
  }

  /** Shortening a label twice shortens it once. */
  lemma ShortNameIdempotent(name: string)
    ensures ShortName(ShortName(name)) == ShortName(name)
  {
    if |name| > NameLimit {
      assert ShortName(name)[..NameLimit] == name[..NameLimit];
    }
  }

  datatype StarPoint = StarPoint(name: string, stars: nat, forks: nat)

  function StarPointOf(r: Repo): StarPoint
  {
    StarPoint(ShortName(r.name), r.stars, r.forks)
  }

  /** The stars chart: the top starred repositories with their labels shortened. */
  function StarsData(repos: seq<Repo>): (r: seq<StarPoint>)
    ensures |r| <= TopStarred
    ensures forall i :: 0 <= i < |r| ==> r[i].stars > 0 && |r[i].name| <= NameLimit + 3
    ensures forall i, j :: 0 <= i < j < |r| ==> r[i].stars >= r[j].stars
    ensures |r| == |TopStarredRepos(repos)|
    ensures forall i :: 0 <= i < |r| ==>
      var top := TopStarredRepos(repos)[i];
      r[i].name == ShortName(top.name) && r[i].stars == top.stars && r[i].forks == top.forks
  {
    Seqs.Map(TopStarredRepos(repos), StarPointOf)
  }

  // ---------------------------------------------------------------------
  // Activity

  /**
   * `repos.sort((a, b) => a.updated_at - b.updated_at)` in place: the stable
   * sort by update time, by insertion.
   */
  method SortByUpdated(a: array<Repo>)
    modifies a
    ensures a[..] == Seqs.SortBy(old(a[..]), UpdatedAt)
  {
    ghost var original := a[..];
    for i := 0 to a.Length
      invariant a[..i] == Seqs.SortBy(original[..i], UpdatedAt)
      invariant a[i..] == original[i..]
    {
      assert a[i] == original[i];
      InsertLast(a, i);
      Seqs.SortByLast(original[..i + 1], UpdatedAt);
      assert original[..i + 1][..i] == original[..i];
    }
    assert a[..a.Length] == a[..];
    assert original[..a.Length] == original;
  }

  /** Moves `a[i]` down past the elements of the sorted prefix `a[..i]` that were updated later. */
  method InsertLast(a: array<Repo>, i: nat)
    requires i < a.Length
    modifies a
    ensures a[..i + 1] == Seqs.Insert(old(a[..i]), old(a[i]), UpdatedAt)
    ensures a[i + 1..] == old(a[i + 1..])
  {
    ghost var sorted := a[..i];
    var x := a[i];
    var j := ShiftLater(a, i);
    a[j] := x;
    Seqs.InsertAt(sorted, x, UpdatedAt, j);
    var placed := sorted[..j] + [x] + sorted[j..];
    assert |placed| == i + 1;
    forall k | 0 <= k <= i
      ensures a[k] == placed[k]
    {
      if k < j {
        assert placed[k] == sorted[k];
      } else if k == j {
        assert placed[k] == x;
      } else {
        assert placed[k] == sorted[k - 1];
      }
    }
    assert a[..i + 1] == placed;
  }

  /**
   * The inner loop of the insertion: shifts the elements of `a[..i]` updated
   * later than `a[i]` one place up and returns the gap left below them.
   */
  method ShiftLater(a: array<Repo>, i: nat) returns (j: nat)
    requires i < a.Length
    modifies a
    ensures j <= i
    ensures forall k :: 0 <= k < j ==> a[k] == old(a[k])
    ensures forall k :: j < k <= i ==> a[k] == old(a[k - 1])
    ensures forall k :: j <= k < i ==> old(a[k]).updatedAt > old(a[i]).updatedAt
    ensures j == 0 || old(a[j - 1]).updatedAt <= old(a[i]).updatedAt
    ensures forall k :: i < k < a.Length ==> a[k] == old(a[k])
  {
    ghost var before := a[..];
    var x := a[i];
    j := i;
    while j > 0 && a[j - 1].updatedAt > x.updatedAt
      invariant 0 <= j <= i
      invariant forall k :: 0 <= k < j ==> a[k] == before[k]
      invariant forall k :: j < k <= i ==> a[k] == before[k - 1]
      invariant forall k :: j <= k < i ==> before[k].updatedAt > x.updatedAt
      invariant forall k :: i < k < a.Length ==> a[k] == before[k]
    {
      a[j] := a[j - 1];
      j := j - 1;
    }
  }

  /**
   * `.slice(-12)` of the sorted list: the (at most) twelve most recently
   * updated repositories, oldest first; every repository left out was updated
   * no later than any shown.
   */
  function Recent(repos: seq<Repo>): (r: seq<Repo>)
    ensures |r| == if |repos| <= RecentCount then |repos| else RecentCount
    ensures Seqs.SortedBy(r, UpdatedAt)
    ensures multiset(r) <= multiset(repos)
    ensures |repos| <= RecentCount ==> multiset(r) == multiset(repos)
    ensures forall x, y :: x in r && y in multiset(repos) - multiset(r) ==> y.updatedAt <= x.updatedAt
  {
    LatestUpdates(repos);
    Seqs.LastBy(repos, UpdatedAt, RecentCount)
  }

  lemma LatestUpdates(repos: seq<Repo>)
    ensures var r := Seqs.LastBy(repos, UpdatedAt, RecentCount);
      forall x, y :: x in r && y in multiset(repos) - multiset(r) ==> y.updatedAt <= x.updatedAt
  {
    var r := Seqs.LastBy(repos, UpdatedAt, RecentCount);
    forall x, y | x in r && y in multiset(repos) - multiset(r)
      ensures y.updatedAt <= x.updatedAt
    {
      assert UpdatedAt(y) <= UpdatedAt(x);
    }
  }

  /**
   * One point per recent repository: its month label, one update and its
   * stars. The label (`toLocaleDateString("en-US", { month: "short", year:
   * "2-digit" })`) depends on the time zone, so it is the parameter `monthOf`.
   */
  datatype ActivityPoint = ActivityPoint(month: string, updates: nat, stars: nat)

  function ActivityData(recent: seq<Repo>, monthOf: int -> string): (r: seq<ActivityPoint>)
    ensures |r| == |recent|
    ensures forall i :: 0 <= i < |r| ==>
      r[i].updates == 1 && r[i].month == monthOf(recent[i].updatedAt) && r[i].stars == recent[i].stars
    ensures Seqs.Sum(r, PointStars) == TotalStars(recent)
  {
    var r := seq(|recent|, i requires 0 <= i < |recent| => ActivityPoint(monthOf(recent[i].updatedAt), 1, recent[i].stars));
    PointStarsSum(recent, r);
    r
  }

  lemma {:induction false} PointStarsSum(recent: seq<Repo>, points: seq<ActivityPoint>)
    requires |points| == |recent|
    requires forall i :: 0 <= i < |points| ==> points[i].stars == recent[i].stars
    ensures Seqs.Sum(points, PointStars) == TotalStars(recent)
  {
    if recent != [] {
      PointStarsSum(recent[1..], points[1..]);
    }
  }

  function Month(p: ActivityPoint): string
  {
    p.month
  }

  function PointStars(p: ActivityPoint): nat
  {
    p.stars
  }

  /** The monthly reduce over the activity points, one entry per month label. */
  function MonthlyActivity(points: seq<ActivityPoint>): seq<Seqs.Group<string>>
  {
    Seqs.Tally(Seqs.Pairs(points, Month, PointStars))
  }

  /**
   * One entry per distinct month, in order of first appearance; `updates`
   * counts the points of the month and `totalStars` sums their stars; the
   * updates add up to the number of points (at most twelve for the recent
   * repositories) and the star totals to their stars.
   */
  lemma MonthlyActivityCorrect(recent: seq<Repo>, monthOf: int -> string)
    requires |recent| <= RecentCount
    ensures var points := ActivityData(recent, monthOf);
      var monthly := MonthlyActivity(points);
      && Seqs.GroupKeys(monthly) == Seqs.Distinct(Seqs.Map(points, Month))
      && (forall i :: 0 <= i < |monthly| ==>
            && monthly[i].count == |Seqs.Filter(points, Seqs.WithKey(Month, monthly[i].key))|
            && monthly[i].total == Seqs.Sum(Seqs.Filter(points, Seqs.WithKey(Month, monthly[i].key)), PointStars))
      && Seqs.SumCounts(monthly) == |recent| <= RecentCount
      && Seqs.SumTotals(monthly) == TotalStars(recent)
  {
    Seqs.GroupBy(ActivityData(recent, monthOf), Month, PointStars);
  }

  // ---------------------------------------------------------------------
  // Size distribution

  /** Above 10000 is "Large", above 1000 "Medium", anything else "Small". */
  function SizeCategory(size: nat): (c: string)
    ensures c == "Large" <==> size > LargeAbove
    ensures c == "Medium" <==> MediumAbove < size <= LargeAbove
    ensures c == "Small" <==> size <= MediumAbove
  {
    if size > LargeAbove then "Large" else if size > MediumAbove then "Medium" else "Small"
  }

  datatype SizeEntry = SizeEntry(name: string, size: nat, category: string)

  predicate HasSize(r: Repo)
  {
    r.size > 0
  }

  function SizeEntryOf(r: Repo): SizeEntry
  {
    SizeEntry(r.name, r.size, SizeCategory(r.size))
  }

  /** The repositories of non-zero size, each with its category. */
  function SizeData(repos: seq<Repo>): (r: seq<SizeEntry>)
    ensures |r| == |Seqs.Filter(repos, HasSize)| <= |repos|
    ensures forall i :: 0 <= i < |r| ==> r[i].size > 0 && r[i].category == SizeCategory(r[i].size)
    ensures forall i :: 0 <= i < |r| ==>
      r[i].name == Seqs.Filter(repos, HasSize)[i].name && r[i].size == Seqs.Filter(repos, HasSize)[i].size
  {
    Seqs.Map(Seqs.Filter(repos, HasSize), SizeEntryOf)
  }

  function Category(e: SizeEntry): string
  {
    e.category
  }

  /** The size reduce keeps no total: every item weighs nothing. */
  function NoWeight(e: SizeEntry): nat
  {
    0
  }

  datatype Bucket = Bucket(category: string, count: nat)

  function BucketOf(g: Seqs.Group<string>): Bucket
  {
    Bucket(g.key, g.count)
  }

  function BucketCategory(b: Bucket): string
  {
    b.category
  }

  function BucketCount(b: Bucket): nat
  {
    b.count
  }

  /** The size reduce: one bucket per category. */
  function SizeDistribution(data: seq<SizeEntry>): seq<Bucket>
  {
    Seqs.Map(Seqs.Tally(Seqs.Pairs(data, Category, NoWeight)), BucketOf)
  }

  /**
   * One bucket per category that occurs, in order of first appearance; each
   * counts the entries of its category; the counts add up to the number of
   * entries.
   */
  lemma SizeDistributionCorrect(data: seq<SizeEntry>)
    ensures Seqs.Map(SizeDistribution(data), BucketCategory) == Seqs.Distinct(Seqs.Map(data, Category))
    ensures forall i :: 0 <= i < |SizeDistribution(data)| ==>
      SizeDistribution(data)[i].count == |Seqs.Filter(data, Seqs.WithKey(Category, SizeDistribution(data)[i].category))|
    ensures Seqs.Sum(SizeDistribution(data), BucketCount) == |data|
  {
    var groups := Seqs.Tally(Seqs.Pairs(data, Category, NoWeight));
    Seqs.GroupBy(data, Category, NoWeight);
    assert Seqs.Map(SizeDistribution(data), BucketCategory) == Seqs.GroupKeys(groups);
    BucketCounts(groups);
  }

  /** The size data of a list has at most three buckets, counting its repositories of non-zero size. */
  lemma SizeBuckets(repos: seq<Repo>)
    ensures |SizeDistribution(SizeData(repos))| <= 3
    ensures Seqs.Sum(SizeDistribution(SizeData(repos)), BucketCount) == |Seqs.Filter(repos, HasSize)|
  {
    var data := SizeData(repos);
    SizeDistributionCorrect(data);
    CategoriesBound(data);
    assert |SizeDistribution(data)| == |Seqs.Map(SizeDistribution(data), BucketCategory)|;
  }

  lemma CategoriesBound(data: seq<SizeEntry>)
    requires forall i :: 0 <= i < |data| ==> data[i].category == SizeCategory(data[i].size)
    ensures |Seqs.Distinct(Seqs.Map(data, Category))| <= 3
  {
    var categories := Seqs.Distinct(Seqs.Map(data, Category));
    CategoriesWithin(data);
    Seqs.NoDuplicatesBound(categories, SizeCategories);
  }

  const SizeCategories: set<string> := {"Small", "Medium", "Large"}

  lemma CategoriesWithin(data: seq<SizeEntry>)
    requires forall i :: 0 <= i < |data| ==> data[i].category == SizeCategory(data[i].size)
    ensures forall i :: 0 <= i < |Seqs.Distinct(Seqs.Map(data, Category))| ==>
      Seqs.Distinct(Seqs.Map(data, Category))[i] in SizeCategories
  {
    var all := Seqs.Map(data, Category);
    var categories := Seqs.Distinct(all);
    forall i | 0 <= i < |categories|
      ensures categories[i] in SizeCategories
    {
      var k :| 0 <= k < |all| && all[k] == categories[i];
      assert all[k] == SizeCategory(data[k].size);
    }
  }

  lemma {:induction false} BucketCounts(groups: seq<Seqs.Group<string>>)
    ensures Seqs.Sum(Seqs.Map(groups, BucketOf), BucketCount) == Seqs.SumCounts(groups)
  {
    if groups != [] {
      assert Seqs.Map(groups, BucketOf)[1..] == Seqs.Map(groups[1..], BucketOf);
      BucketCounts(groups[1..]);
    }
  }

  // ---------------------------------------------------------------------
  // Summary

  datatype Summary = Summary(totalStars: nat, totalForks: nat, languagesUsed: nat, totalSizeKb: nat)

  /** `new Set(repos.filter((r) => r.language).map((r) => r.language)).size`. */
  function LanguagesUsed(repos: seq<Repo>): (n: nat)
    ensures n == |Seqs.Distinct(PresentLanguages(repos))| <= |repos|
  {
    Seqs.DistinctCardinality(PresentLanguages(repos));
    |set l | l in PresentLanguages(repos)|
  }

  /** The four summary figures: stars and forks over all repositories, distinct languages, and the size in KB. */
  function SummaryOf(repos: seq<Repo>): Summary
  {
    Summary(TotalStars(repos), TotalForks(repos), LanguagesUsed(repos), RoundKb(TotalSize(repos)))
  }

  /** "Languages used" is the number of language entries before the pie chart keeps the top eight. */
  lemma LanguagesUsedCountsEntries(repos: seq<Repo>)
    ensures LanguagesUsed(repos) == |LanguageStats(repos)|
    ensures |LanguageChartData(LanguageStats(repos))| == if LanguagesUsed(repos) <= TopLanguages then LanguagesUsed(repos) else TopLanguages
  {
    LanguageStatsCorrect(repos);
  }

  /** The summary does not depend on the order of the list, so the in-place sort cannot change it. */
  lemma SummaryPermutation(a: seq<Repo>, b: seq<Repo>)
    requires multiset(a) == multiset(b)
    ensures SummaryOf(a) == SummaryOf(b)
  {
    TotalsPermutation(a, b);
    forall l | true
      ensures l in PresentLanguages(a) <==> l in PresentLanguages(b)
    {
      PresentLanguagesMembership(a, l);
      PresentLanguagesMembership(b, l);
      if l in PresentLanguages(a) {
        var i :| 0 <= i < |a| && HasLanguage(a[i]) && a[i].language.value == l;
        assert a[i] in multiset(b);
      }
      if l in PresentLanguages(b) {
        var i :| 0 <= i < |b| && HasLanguage(b[i]) && b[i].language.value == l;
        assert b[i] in multiset(a);
      }
    }
    assert (set l | l in PresentLanguages(a)) == (set l | l in PresentLanguages(b));
  }

  // ---------------------------------------------------------------------
  // The component

  datatype ChartData = ChartData(
    languageChartData: seq<Seqs.Group<string>>,
    starsData: seq<StarPoint>,
    activityData: seq<ActivityPoint>,
    monthlyActivity: seq<Seqs.Group<string>>,
    sizeData: seq<SizeEntry>,
    sizeDistribution: seq<Bucket>,
    summary: Summary)

  /**
   * What one render computes from the list it receives: the language and
   * stars charts from the list as given, the rest from the list sorted by
   * update time (the sort happens in place before they read it).
   */
  function ChartsOf(repos: seq<Repo>, monthOf: int -> string): ChartData
  {
    var sorted := Seqs.SortBy(repos, UpdatedAt);
    var activity := ActivityData(Recent(repos), monthOf);
    ChartData(
      LanguageChartData(LanguageStats(repos)),
      StarsData(repos),
      activity,
      MonthlyActivity(activity),
      SizeData(sorted),
      SizeDistribution(SizeData(sorted)),
      SummaryOf(sorted))
  }

  /**
   * The component body, statement by statement: the reduces run as loops,
   * and `repos.sort` reorders the caller's array.
   */
  method GitHubCharts(repos: array<Repo>, monthOf: int -> string) returns (c: ChartData)
    modifies repos
    ensures repos[..] == Seqs.SortBy(old(repos[..]), UpdatedAt)
    ensures c == ChartsOf(old(repos[..]), monthOf)
  {
    var languageData := Seqs.TallyInto(Seqs.Pairs(Seqs.Filter(repos[..], HasLanguage), Language, Stars));
    var languageChartData := LanguageChartData(languageData);
    var starsData := StarsData(repos[..]);
    SortByUpdated(repos);
    var activityData := ActivityData(Seqs.TakeLast(repos[..], RecentCount), monthOf);
    var monthlyActivity := Seqs.TallyInto(Seqs.Pairs(activityData, Month, PointStars));
    var sizeData := SizeData(repos[..]);
    var sizeGroups := Seqs.TallyInto(Seqs.Pairs(sizeData, Category, NoWeight));
    c := ChartData(languageChartData, starsData, activityData, monthlyActivity, sizeData,
      Seqs.Map(sizeGroups, BucketOf), SummaryOf(repos[..]));
  }

  /**
   * Rendering again with the list the first render sorted sorts nothing and
   * shows the same activity, size and summary panels.
   */
  lemma RerenderIsStable(repos: seq<Repo>, monthOf: int -> string)
    ensures Seqs.SortBy(Seqs.SortBy(repos, UpdatedAt), UpdatedAt) == Seqs.SortBy(repos, UpdatedAt)
    ensures var first := ChartsOf(repos, monthOf);
      var second := ChartsOf(Seqs.SortBy(repos, UpdatedAt), monthOf);
      && second.activityData == first.activityData
      && second.monthlyActivity == first.monthlyActivity
      && second.sizeData == first.sizeData
      && second.sizeDistribution == first.sizeDistribution
      && second.summary == first.summary
  {
    Seqs.SortBySorted(repos, UpdatedAt);
    Seqs.SortByOfSorted(Seqs.SortBy(repos, UpdatedAt), UpdatedAt);
  }
}

/**
 * The records the application receives from GitHub's REST API (through its
 * own relay endpoints) and the derived quantities every view computes from a
 * repository list.
 */
module GitHub {
  import opened Wrappers
  import Seqs

  /** A user profile; `null` fields of the JSON object are `None`. */
  datatype User = User(
    login: string,
    name: Option<string>,
    avatarUrl: string,
    bio: Option<string>,
    location: Option<string>,
    publicRepos: nat,
    followers: nat,
    following: nat,
    createdAt: string,
    htmlUrl: string)

  /**
   * A repository. `updatedAt` is the instant of the last update, abstracted
   * from the ISO timestamp to a comparable number of milliseconds.
   */
  datatype Repo = Repo(
    id: int,
    name: string,
    description: Option<string>,
    htmlUrl: string,
    stars: nat,
    forks: nat,
    language: Option<string>,
    updatedAt: int,
    size: nat)

  /** A bookmark: the whole current user object spread into a new one, plus the ISO time of bookmarking. */
  datatype BookmarkedUser = BookmarkedUser(user: User, bookmarkedAt: string)

  /** `repo.language` is truthy: present and not the empty string. */
  predicate HasLanguage(r: Repo)
  {
    r.language.Some? && r.language.value != ""
  }

  /** `repo.language || ""`, and likewise for any optional text. */
  function TextOrEmpty(t: Option<string>): (r: string)
    ensures t.Some? ==> r == t.value
    ensures t.None? ==> r == ""
  {
    if t.Some? then t.value else ""
  }

  /** The language of a repository, as the charts and the export read it (`repo.language || ""`). */
  function Language(r: Repo): string
  {
    TextOrEmpty(r.language)
  }

  /** `repos.filter((r) => r.language).map((r) => r.language)`. */
  function PresentLanguages(repos: seq<Repo>): (r: seq<string>)
    ensures |r| <= |repos|
    ensures forall i :: 0 <= i < |r| ==> r[i] != ""
  {
    Seqs.Map(Seqs.Filter(repos, HasLanguage), Language)
  }

  /** A language is listed exactly when some repository has it. */
  lemma PresentLanguagesMembership(repos: seq<Repo>, lang: string)
    ensures lang in PresentLanguages(repos) <==>
      exists i :: 0 <= i < |repos| && HasLanguage(repos[i]) && repos[i].language.value == lang
  {
    Seqs.FilterMapMembership(repos, HasLanguage, Language, lang);
    if exists i :: 0 <= i < |repos| && HasLanguage(repos[i]) && Language(repos[i]) == lang {
      var i :| 0 <= i < |repos| && HasLanguage(repos[i]) && Language(repos[i]) == lang;
      assert repos[i].language.value == lang;
    }
    if exists i :: 0 <= i < |repos| && HasLanguage(repos[i]) && repos[i].language.value == lang {
      var i :| 0 <= i < |repos| && HasLanguage(repos[i]) && repos[i].language.value == lang;
      assert Language(repos[i]) == lang;
    }
  }

  function Stars(r: Repo): nat { r.stars }
  function Forks(r: Repo): nat { r.forks }
  function Size(r: Repo): nat { r.size }
  function UpdatedAt(r: Repo): int { r.updatedAt }

  /** `repos.reduce((sum, repo) => sum + repo.stargazers_count, 0)`. */
  function TotalStars(repos: seq<Repo>): nat
  {
    Seqs.Sum(repos, Stars)
  }

  function TotalForks(repos: seq<Repo>): nat
  {
    Seqs.Sum(repos, Forks)
  }

  function TotalSize(repos: seq<Repo>): nat
  {
    Seqs.Sum(repos, Size)
  }

  /** Totals do not depend on the order of the list (the charts reorder it in place). */
  lemma TotalsPermutation(a: seq<Repo>, b: seq<Repo>)
    requires multiset(a) == multiset(b)
    ensures TotalStars(a) == TotalStars(b)
    ensures TotalForks(a) == TotalForks(b)
    ensures TotalSize(a) == TotalSize(b)
  {
    Seqs.SumPermutation(a, b, Stars);
    Seqs.SumPermutation(a, b, Forks);
    Seqs.SumPermutation(a, b, Size);
  }

  /**
   * `Math.round(n / 1024)` for a non-negative integer n: the quotient is exact
   * in floating point (a division by a power of two), and `Math.round` rounds
   * halves up, so this is the nearest integer with ties rounded up.
   */
  function RoundKb(n: nat): (r: nat)
    ensures r * 1024 <= n + 512 < r * 1024 + 1024
  {
    (n + 512) / 1024
  }
}

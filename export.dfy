/**
 * The two downloads of the export component (components/data-export.tsx):
 * the JSON document with the profile, the repositories, their totals and
 * their distinct languages; the CSV table with one line per repository; and
 * the names of the downloaded files.
 */
module Export {
  import opened GitHub
  import Seqs
  import Charts

  // ---------------------------------------------------------------------
  // JSON

  /** The object handed to `JSON.stringify`; `exportedAt` is the ISO time of the export. */
  datatype ExportData = ExportData(
    user: User,
    repos: seq<Repo>,
    exportedAt: string,
    totalRepos: nat,
    totalStars: nat,
    totalForks: nat,
    languages: seq<string>)

  /**
   * `[...new Set(repos.filter((r) => r.language).map((r) => r.language))]`:
   * every non-empty language of the list exactly once, and nothing else, in
   * order of first appearance.
   */
  function Languages(repos: seq<Repo>): (r: seq<string>)
    ensures Seqs.NoDuplicates(r)
    ensures forall i :: 0 <= i < |r| ==> r[i] != ""
    ensures forall l :: l in r <==> exists i :: 0 <= i < |repos| && HasLanguage(repos[i]) && repos[i].language.value == l
  {
    LanguagesListed(repos);
    Seqs.Distinct(PresentLanguages(repos))
  }

  /** The languages are listed in the order in which the list first mentions them. */
  lemma LanguagesInFirstAppearanceOrder(repos: seq<Repo>)
    ensures forall i, j :: 0 <= i < j < |Languages(repos)| ==>
      Seqs.FirstIndex(PresentLanguages(repos), Languages(repos)[i]) < Seqs.FirstIndex(PresentLanguages(repos), Languages(repos)[j])
  {
    Seqs.DistinctInFirstAppearanceOrder(PresentLanguages(repos));
  }

  lemma LanguagesListed(repos: seq<Repo>)
    ensures forall l :: l in Seqs.Distinct(PresentLanguages(repos)) <==>
      exists i :: 0 <= i < |repos| && HasLanguage(repos[i]) && repos[i].language.value == l
  {
    var present := PresentLanguages(repos);
    var d := Seqs.Distinct(present);
    forall l
      ensures l in d <==> exists i :: 0 <= i < |repos| && HasLanguage(repos[i]) && repos[i].language.value == l
    {
      PresentLanguagesMembership(repos, l);
      if l in d {
        var k :| 0 <= k < |d| && d[k] == l;
      }
      if l in present {
        var k :| 0 <= k < |present| && present[k] == l;
      }
    }
  }

  /** The exported document: the list's length, its star and fork totals and its languages. */
  function ExportDataOf(user: User, repos: seq<Repo>, exportedAt: string): (d: ExportData)
    ensures d.user == user && d.repos == repos && d.exportedAt == exportedAt
    ensures d.totalRepos == |repos|
    ensures d.totalStars == TotalStars(repos) && d.totalForks == TotalForks(repos)
    ensures Seqs.NoDuplicates(d.languages) && |d.languages| <= |repos|
    ensures forall l :: l in d.languages <==>
      exists i :: 0 <= i < |repos| && HasLanguage(repos[i]) && repos[i].language.value == l
    ensures d.languages == Languages(repos)
  {
    ExportData(user, repos, exportedAt, |repos|, TotalStars(repos), TotalForks(repos), Languages(repos))
  }

  /**
   * The export agrees with the charts drawn from the same list, even after
   * the charts have sorted it: the same languages in the same order as the
   * language reduce, as many as "languages used", and the same star and fork
   * totals as the summary.
   */
  lemma ExportAgreesWithCharts(user: User, repos: seq<Repo>, exportedAt: string, monthOf: int -> string)
    ensures var d := ExportDataOf(user, repos, exportedAt);
      var summary := Charts.ChartsOf(repos, monthOf).summary;
      && d.languages == Seqs.GroupKeys(Charts.LanguageStats(repos))
      && |d.languages| == summary.languagesUsed
      && d.totalStars == summary.totalStars
      && d.totalForks == summary.totalForks
  {
    Charts.LanguageStatsCorrect(repos);
    Seqs.SortByPermutes(repos, UpdatedAt);
    Charts.SummaryPermutation(repos, Seqs.SortBy(repos, UpdatedAt));
  }

  // ---------------------------------------------------------------------
  // CSV

  const CsvHeaders: seq<string> :=
    ["Repository Name", "Description", "Language", "Stars", "Forks", "Size (KB)", "Last Updated", "URL"]

  /**
   * The eight cells of a repository's row. Numbers print in decimal; the
   * last-updated cell is `toLocaleDateString()` of the update time, which
   * depends on the locale, so it is the parameter `dateOf`.
   */
  function CsvCells(r: Repo, dateOf: int -> string): (cells: seq<string>)
    ensures |cells| == |CsvHeaders|
  {
    [r.name, TextOrEmpty(r.description), TextOrEmpty(r.language),
     Seqs.DecimalText(r.stars), Seqs.DecimalText(r.forks), Seqs.DecimalText(RoundKb(r.size)),
     dateOf(r.updatedAt), r.htmlUrl]
  }

  /**
   * The cells under the headers: the name; the description and the language,
   * as given when present and empty exactly when absent or empty; stars, forks and the size in KB as
   * digit strings that read back as those numbers; the date; the URL.
   */
  lemma CsvCellsCorrect(r: Repo, dateOf: int -> string)
    ensures var cells := CsvCells(r, dateOf);
      && cells[0] == r.name && cells[6] == dateOf(r.updatedAt) && cells[7] == r.htmlUrl
      && (r.description.Some? ==> cells[1] == r.description.value)
      && (r.language.Some? ==> cells[2] == r.language.value)
      && (cells[1] == "" <==> r.description.None? || r.description.value == "")
      && (cells[2] == "" <==> !HasLanguage(r))
      && (forall k :: 3 <= k <= 5 ==> forall i :: 0 <= i < |cells[k]| ==> Seqs.IsDigit(cells[k][i]))
      && Seqs.ParseDecimal(cells[3]) == r.stars
      && Seqs.ParseDecimal(cells[4]) == r.forks
      && Seqs.ParseDecimal(cells[5]) == RoundKb(r.size)
  {
    Seqs.DecimalRoundTrip(r.stars);
    Seqs.DecimalRoundTrip(r.forks);
    Seqs.DecimalRoundTrip(RoundKb(r.size));
  }

  /** A cell between double quotes, verbatim: quotes inside it are not doubled. */
  function Quote(cell: string): (q: string)
    ensures |q| == |cell| + 2 && q[0] == '"' && q[|q| - 1] == '"'
    ensures q[1..|q| - 1] == cell
  {
    "\"" + cell + "\""
  }

  function CsvRow(cells: seq<string>): string
  {
    Seqs.Join(Seqs.Map(cells, Quote), ',')
  }

  /** One line per repository, in the order of the list. */
  function CsvRows(repos: seq<Repo>, dateOf: int -> string): (rows: seq<string>)
    ensures |rows| == |repos|
    ensures forall k :: 0 <= k < |repos| ==> rows[k] == CsvRow(CsvCells(repos[k], dateOf))
  {
    seq(|repos|, i requires 0 <= i < |repos| => CsvRow(CsvCells(repos[i], dateOf)))
  }

  /** The header line, then the rows. */
  function CsvLines(repos: seq<Repo>, dateOf: int -> string): seq<string>
  {
    [Seqs.Join(CsvHeaders, ',')] + CsvRows(repos, dateOf)
  }

  function CsvContent(repos: seq<Repo>, dateOf: int -> string): string
  {
    Seqs.Join(CsvLines(repos, dateOf), '\n')
  }

  /** The free-text cells of a repository do not contain `c`. */
  predicate TextAvoids(r: Repo, dateOf: int -> string, c: char)
  {
    && c !in r.name
    && c !in TextOrEmpty(r.description)
    && c !in TextOrEmpty(r.language)
    && c !in dateOf(r.updatedAt)
    && c !in r.htmlUrl
  }

  /** A character that is neither a digit nor a quote is in a quoted cell only if the repository's text has it. */
  lemma QuotedCellsAvoid(r: Repo, dateOf: int -> string, c: char)
    requires TextAvoids(r, dateOf, c) && !Seqs.IsDigit(c) && c != '"'
    ensures forall k :: 0 <= k < |CsvHeaders| ==> c !in Seqs.Map(CsvCells(r, dateOf), Quote)[k]
  {
    var cells := CsvCells(r, dateOf);
    forall k | 0 <= k < |CsvHeaders|
      ensures c !in Seqs.Map(cells, Quote)[k]
    {
      assert Seqs.Map(cells, Quote)[k] == Quote(cells[k]);
    }
  }

  /** A joined line avoids every character its parts and the separator avoid. */
  lemma {:induction false} JoinAvoids(parts: seq<string>, sep: char, c: char)
    requires c != sep
    requires forall i :: 0 <= i < |parts| ==> c !in parts[i]
    ensures c !in Seqs.Join(parts, sep)
  {
    if |parts| > 1 {
      JoinAvoids(parts[1..], sep, c);
    }
  }

  /**
   * Each row holds exactly eight quoted cells: splitting it at commas gives
   * them back, provided the repository's text has no comma (nothing is
   * escaped, so a comma in a description would split its cell).
   */
  lemma CsvRowCells(r: Repo, dateOf: int -> string)
    requires TextAvoids(r, dateOf, ',')
    ensures var parts := Seqs.Split(CsvRow(CsvCells(r, dateOf)), ',');
      && |parts| == |CsvHeaders|
      && forall k :: 0 <= k < |parts| ==> parts[k] == Quote(CsvCells(r, dateOf)[k])
  {
    QuotedCellsAvoid(r, dateOf, ',');
    Seqs.SplitJoin(Seqs.Map(CsvCells(r, dateOf), Quote), ',');
  }

  /**
   * The text is the header line followed by one line per repository:
   * splitting it at newlines gives back the lines, `repos.length + 1` of
   * them, provided no repository's text has a newline.
   */
  lemma CsvContentLines(repos: seq<Repo>, dateOf: int -> string)
    requires forall i :: 0 <= i < |repos| ==> TextAvoids(repos[i], dateOf, '\n')
    ensures Seqs.Split(CsvContent(repos, dateOf), '\n') == CsvLines(repos, dateOf)
    ensures |Seqs.Split(CsvContent(repos, dateOf), '\n')| == |repos| + 1
    ensures Seqs.Split(CsvContent(repos, dateOf), '\n')[0] == Seqs.Join(CsvHeaders, ',')
  {
    LinesAvoidNewline(repos, dateOf);
    Seqs.SplitJoin(CsvLines(repos, dateOf), '\n');
  }

  /** No line has a newline when no repository's text has one. */
  lemma LinesAvoidNewline(repos: seq<Repo>, dateOf: int -> string)
    requires forall i :: 0 <= i < |repos| ==> TextAvoids(repos[i], dateOf, '\n')
    ensures forall i :: 0 <= i < |CsvLines(repos, dateOf)| ==> '\n' !in CsvLines(repos, dateOf)[i]
  {
    var rows := CsvRows(repos, dateOf);
    forall k | 0 <= k < |repos|
      ensures '\n' !in rows[k]
    {
      RowAvoids(repos, dateOf, k, '\n');
    }
    HeaderAvoidsNewline();
    assert CsvLines(repos, dateOf) == [Seqs.Join(CsvHeaders, ',')] + rows;
  }

  lemma HeaderAvoidsNewline()
    ensures '\n' !in Seqs.Join(CsvHeaders, ',')
  {
    JoinAvoids(CsvHeaders, ',', '\n');
  }

  lemma RowAvoids(repos: seq<Repo>, dateOf: int -> string, k: nat, c: char)
    requires k < |repos|
    requires TextAvoids(repos[k], dateOf, c) && !Seqs.IsDigit(c) && c != '"' && c != ','
    ensures c !in CsvRows(repos, dateOf)[k]
  {
    QuotedCellsAvoid(repos[k], dateOf, c);
    JoinAvoids(Seqs.Map(CsvCells(repos[k], dateOf), Quote), ',', c);
  }


  // ---------------------------------------------------------------------
  // File names

  const JsonPrefix := "github-"
  const JsonSuffix := "-data.json"
  const CsvSuffix := "-repositories.csv"

  /** `github-${login}-data.json`: the login reads back from between the fixed parts. */
  function JsonFileName(login: string): (name: string)
    ensures |name| == |JsonPrefix| + |login| + |JsonSuffix|
    ensures name[..|JsonPrefix|] == JsonPrefix && name[|name| - |JsonSuffix|..] == JsonSuffix
    ensures name[|JsonPrefix|..|name| - |JsonSuffix|] == login
  {
    JsonPrefix + login + JsonSuffix
  }

  /** `github-${login}-repositories.csv`: the login reads back from between the fixed parts. */
  function CsvFileName(login: string): (name: string)
    ensures |name| == |JsonPrefix| + |login| + |CsvSuffix|
    ensures name[..|JsonPrefix|] == JsonPrefix && name[|name| - |CsvSuffix|..] == CsvSuffix
    ensures name[|JsonPrefix|..|name| - |CsvSuffix|] == login
  {
    JsonPrefix + login + CsvSuffix
  }
}

/**
 * `repoList(repos)` and `filesList(repo, tree)`: one row per record, in
 * input order, and what selecting a row does.
 */
module Listings {
  import opened Wrappers
  import opened Domain
  import opened Navigation

  const RepoListTitle: string := "Git Repositories"

  /** A row of the repository list: its name above its description. */
  datatype RepoRow = RepoRow(name: string, description: string, repo: Repo)

  /**
   * `addButton` is the "⊕" button with the effect of pressing it; it is
   * present when the backend has `addRepo`.
   */
  datatype RepoPage = RepoPage(addButton: Option<Effect>, title: string, rows: seq<RepoRow>)

  /** A row of the file list: the entry's name above its hash. */
  datatype FileRow = FileRow(name: string, hash: string)

  /** The header shows the repository name above the file rows. */
  datatype FilesPage = FilesPage(title: string, rows: seq<FileRow>)

  /** `repos.map(...)`: row `i` shows repository `i`. */
  function RepoRows(repos: seq<Repo>): (rows: seq<RepoRow>)
    ensures |rows| == |repos|
    ensures forall i :: 0 <= i < |repos| ==>
      rows[i].name == repos[i].name && rows[i].description == repos[i].description && rows[i].repo == repos[i]
  {
    if repos == [] then []
    else [RepoRow(repos[0].name, repos[0].description, repos[0])] + RepoRows(repos[1..])
  }

  function RepoList(repos: seq<Repo>, canAddRepo: bool): (page: RepoPage)
    ensures page.addButton.Some? <==> canAddRepo
    ensures page.addButton.Some? ==> page.addButton.value == AddEffect()
    ensures page.title == RepoListTitle && page.rows == RepoRows(repos)
  {
    RepoPage(if canAddRepo then Some(AddEffect()) else None, RepoListTitle, RepoRows(repos))
  }

  /** `tree.map(...)`: row `i` shows entry `i`. */
  function FileRows(tree: seq<FileEntry>): (rows: seq<FileRow>)
    ensures |rows| == |tree|
    ensures forall i :: 0 <= i < |tree| ==> rows[i].name == tree[i].name && rows[i].hash == tree[i].hash
  {
    if tree == [] then []
    else [FileRow(tree[0].name, tree[0].hash)] + FileRows(tree[1..])
  }

  function FilesList(repo: Repo, tree: seq<FileEntry>): (page: FilesPage)
    ensures page.title == repo.name && page.rows == FileRows(tree)
  {
    FilesPage(repo.name, FileRows(tree))
  }

  /** `load(repo)`: ask for the history stream, then push the history list. */
  function SelectRepo(row: RepoRow): (e: Effect)
    ensures e.FetchThenNavigate? && e.request == HistoryStream(row.repo) && e.op == Push
  {
    FetchThenNavigate(HistoryStream(row.repo), Push)
  }

  /** `add()`: push the clone form. */
  function AddEffect(): (e: Effect)
    ensures e.Navigate? && e.op == Push && e.screen == ClonePage
  {
    Navigate(Push, ClonePage)
  }

  /** Selecting row `i` of the repository list opens the history of repository `i`, by a push. */
  lemma SelectRepoRow(repos: seq<Repo>, canAddRepo: bool, i: nat)
    requires i < |repos|
    ensures i < |RepoList(repos, canAddRepo).rows|
    ensures SelectRepo(RepoList(repos, canAddRepo).rows[i]) == FetchThenNavigate(HistoryStream(repos[i]), Push)
  {
  }

  /** The two sample repositories give two rows, in order, an empty description shown as such. */
  lemma SampleRepoList()
    ensures var page := RepoList([Repo("conquest", "...", "github.com", "/creationix/conquest.git"),
                                  Repo("foo", "", "github.com", "/foo.git")], false);
      |page.rows| == 2 && page.addButton.None?
      && page.rows[0].name == "conquest" && page.rows[0].description == "..."
      && page.rows[1].name == "foo" && page.rows[1].description == ""
  {
  }
}

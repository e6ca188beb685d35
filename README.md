# git-browser screens, modelled in Dafny

git-browser is a stack-navigated mobile UI for browsing git repositories
through an external backend. This project models the parts of `src/main.js`
whose behaviour can be stated exactly. It works over abstract rows and
sections, not DOM nodes:

- **`truncate`** (module `Title`): the one-line commit title. It keeps the
  text before the first CR or LF. A line longer than `limit` is cut to
  `limit - 3` characters and `"..."` is appended.
- **History pagination** (module `History`): the class `Stream` models the
  backend's pull stream (`next()`). The class `HistoryList` holds the state
  the `historyList` closure keeps: the stream, the batch array `list` and the
  rendered rows. `Enqueue` is `enqueue` and `More` is `more`. Its invariant
  ties the rendered rows to the closed form `Visible(commits, clicks)`, and
  the pagination lemmas are proved about that closed form.
- **Commit page** (module `CommitView`): `CommitPage` pushes the details in
  their fixed order. `ReadCommit` reads a commit back from a details pane.
  The two round-trip lemmas show the layout loses nothing and admits nothing
  else. `Activate` records which navigation call each button makes.
- **Repository and file lists** (module `Listings`): repositories and tree
  entries map to rows in input order. The add button is present iff the
  backend has `addRepo`.
- **Navigation** (module `Navigation`): what a handler asks of the
  navigation stack. It either pushes or peers a screen, at once
  (`Navigate`) or once a backend request is answered (`FetchThenNavigate`).

Notes on behaviour, following the code:

- There is no look-ahead: a stream whose length is a non-zero multiple of 9
  still ends with a "Load More..." row, and clicking it pulls an empty batch
  and leaves no "Load More..." row (`MultipleOfChunkEndsEmpty`).
- `if (commit.parents)` is true for any array, so an empty array gets a
  `"parents:"` header and no buttons. Only an absent `parents` property
  omits the section.
- When the first line is longer than a limit below 3, `truncate` passes a
  negative length to `substr`, which yields `""`, so the title is `"..."`.
  A first line that fits the limit is returned as it is, for any limit.
  `truncate` is idempotent for every limit.
- After the commits run out, the stream's `next()` is taken to keep
  returning a falsy value.

## Model

| member | source | states |
|---|---|---|
| Title.FirstLine | src/main.js:224 | the text before the first CR/LF: a prefix of the message with no line break, ending at the end or just before a line break |
| Title.FirstLineUnique | src/main.js:224 | any prefix with no line break that ends at the end or at a line break is the first line (the characterisation is unique) |
| Title.SingleLineIsFirstLine | src/main.js:224 | a string without CR/LF is its own first line |
| Title.Truncate | src/main.js:223-227 | the title never contains CR or LF and is at most max(limit, 3) long, so at most `limit` for limit >= 3 |
| Title.TruncateKeepsShortLine | src/main.js:225-226 | a first line of length <= limit is returned unchanged |
| Title.TruncateCutsLongLine | src/main.js:225 | a longer first line becomes max(limit, 3) characters: a prefix of that line followed by "..." (77 + 3 for limit 80) |
| Title.TruncateUnchangedIff | src/main.js:223-227 | for limit >= 3 the message comes back unchanged iff it is a single line of length <= limit |
| Title.TruncateIdempotent | src/main.js:223-227 | truncating a title again with the same limit changes nothing |
| History.RowOf | src/main.js:119-124 | a commit row carries its commit and hash; its title is `truncate(message, 80)`: the first line when it has at most 80 characters, otherwise its first 77 characters followed by "..." |
| History.CommitsOfRows | src/main.js:120-124 | the rows of a run of commits hold exactly those commits, once each, in stream order |
| History.VisibleCommits | src/main.js:115-140 | after the first batch and any number of clicks, the commit rows shown are the first commits of the stream, once each, in order |
| History.ClicksReachable | src/main.js:116-128 | each of the first ceil(K/9) - 1 clicks finds a "Load More..." row to click |
| History.ClickUntilDone | src/main.js:102-141 | clicking "Load More..." while it is shown ends with exactly `Rows(cs)`: one titled row per stream commit, in order, and no "Load More..." row anywhere |
| History.FirstBatch | src/main.js:103-113 | the initial page shows exactly the first batch |
| History.MoreStep | src/main.js:131-140 | a click is possible only after a full batch; it keeps every earlier row, drops "Load More..." and appends the next batch |
| History.PaginationCompletes | src/main.js:105-140 | with K > 0 commits, ceil(K/9) - 1 clicks show all K commits once each in order, with "Load More..." still present iff K is a multiple of 9 |
| History.MultipleOfChunkEndsEmpty | src/main.js:116-128 | for 9k commits one further click pulls an empty batch and leaves exactly the commit rows, with no "Load More..." row |
| History.Select | src/main.js:143-145 | the history row's handler: a commit row pushes that commit's page (`load(commit)`), the "Load More..." row runs `more` |
| History.SelectVisible | src/main.js:143-145 | selecting the i-th row pushes the page of the i-th stream commit; the last row beyond them loads more |
| History.Stream.Next | src/main.js:117 | `next()` gives the next commit and advances, or gives nothing at the end without advancing; every call counts as one pull |
| History.HistoryList.constructor | src/main.js:102-113 | builds the list from the stream's current position: the page is titled with the repository name, the first batch is rendered and the invariant holds |
| History.HistoryList.Enqueue | src/main.js:115-129 | at most 9 pulls, stopping at the first empty one (9 pulls if full, else commits + 1); one row per commit in order; "Load More..." iff all 9 pulls gave a commit; cursor advances by the commits taken |
| History.HistoryList.More | src/main.js:131-141 | removes exactly the trailing "Load More..." row, keeps every earlier row, appends the freshly built batch and keeps the invariant |
| History.HistoryList.ShowsPulled | src/main.js:115-140 | in every reachable state the rendered commit rows are exactly the commits pulled so far, in order |
| History.TenCommits | src/main.js:102-141 | ten commits: nine rows plus "Load More...", then after one click all ten rows and no "Load More..." |
| CommitView.ParentsLabel | src/main.js:164-168 | the parents heading reads "parent" followed by "s" unless there is exactly one parent, then ":" |
| CommitView.CommitPage | src/main.js:148-185 | details in fixed order: message, tree, parents section if `parents` is present, author, committer if different, disabled hash; title is the repository name |
| CommitView.Activate | src/main.js:187-201 | the tree button's `enter` fetches the tree and then pushes; a parent button's `ascend(parent)` fetches that commit and then peers; every other detail, the disabled hash button included, is inert |
| CommitView.CommitPageActions | src/main.js:157-201 | the page's only actions, in order: the tree button (fetch tree, then push) and one button per parent (fetch commit, then peer); the hash button is inert |
| CommitView.ReadLayout | src/main.js:157-183 | every commit is read back from its details pane, so the parents label ("parent:" for one, "parents:" otherwise), parent order and the committer rule lose nothing |
| CommitView.ReadIsLayout | src/main.js:157-183 | any pane that reads as a commit is exactly that commit's layout |
| CommitView.SampleCommitPage | src/main.js:157-183 | the sample commit with one parent and author equal to committer: full message, one "parent:" button, no committer section |
| Listings.RepoRows | src/main.js:24-30 | one row per repository, in input order, showing its name then its description |
| Listings.RepoList | src/main.js:18-31 | the add button is present iff the backend can add repositories, and pressing it has the effect of `add()`; title "Git Repositories"; rows as above |
| Listings.SelectRepo | src/main.js:33-38 | a repository row's `load(repo)` fetches the history stream of that repository and then pushes |
| Listings.AddEffect | src/main.js:40-42 | `add()` pushes the clone form at once; only this effect is recorded, since the form itself is not modelled |
| Listings.SelectRepoRow | src/main.js:25-38 | selecting row i fetches the history stream of repository i and then pushes |
| Listings.SampleRepoList | src/main.js:18-31 | two sample repositories give two rows in order, with the empty description shown as empty |
| Listings.FileRows | src/main.js:210-216 | one row per tree entry, in order, showing its name then its hash |
| Listings.FilesList | src/main.js:204-217 | the file list is titled with the repository name and has the rows above |

## Left out

- `addPage` (the clone form) and `add()`'s page. These are form-field reads and progress-element writes over external widgets. Only the fact that `add()` pushes the form is recorded (`AddEffect`), as the effect the repository list's add button carries.
- The navigation stack in `./ui.js` is not part of this model. Only which call (push or peer) each handler makes is recorded. The back buttons, which call `ui.pop`, are not modelled.
- The backend calls (`getRepos`, `getHistoryStream`, `getTree`, `getCommit`, `addRepo`) are not modelled. Neither are their `throw err` failure paths or late callbacks. A handler that needs the backend is described by the request it makes and the navigation that follows the answer.
- DOM construction by `dombuilder` is not modelled: CSS, icons, the `$` handle map and the `parentNode` walk in `more`. The walk is abstracted as "the last row is the Load More row" (`HasMore`).
- The `onclick` helper's `preventDefault`/`apply` plumbing and `console.log` are not modelled. The file row's `load`, which is not implemented in the source, is left out too.
- Author and committer are modelled as strings compared by value. If the backend supplies objects, JavaScript's `!==` would compare references; that is not modelled.
- `truncate` counts one Dafny `char` as one UTF-16 code unit. A Dafny `char` is a Unicode scalar value, so a character outside the Basic Multilingual Plane, which JavaScript counts as 2 units (a surrogate pair that `substr` may split), has no unit-for-unit counterpart here.
- `truncate`'s `limit` is an integer; fractional JavaScript numbers are not modelled.

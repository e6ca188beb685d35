/**
 * What a screen's event handler asks of the navigation stack. The stack itself
 * (push/pop/peer) is not modelled: each handler is described only by the
 * operation it calls and by what it shows.
 */
module Navigation {
  import opened Domain

  /** `ui.push` grows the stack; `ui.peer` replaces its top. */
  datatype NavOp = Push | Peer

  /** A backend call whose answer is turned into the next screen. */
  datatype Request =
    | HistoryStream(repo: Repo)             // answered with a stream, shown by historyList
    | TreeById(repo: Repo, tree: string)    // answered with entries, shown by filesList
    | CommitById(repo: Repo, hash: string)  // answered with a commit, shown by commitPage

  /** A screen built without asking the backend first. */
  datatype Screen = ClonePage | CommitScreen(repo: Repo, commit: Commit)

  datatype Effect =
    | Inert                                       // not interactive (text, disabled button)
    | Navigate(op: NavOp, screen: Screen)         // navigate at once
    | FetchThenNavigate(request: Request, op: NavOp)  // navigate once the backend answers
    | ExpandHistory                               // the history list's "Load More..." row
}

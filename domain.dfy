/**
 * The records the backend hands to the screens. This layer only displays
 * them and passes them back; it never changes them.
 */
module Domain {
  import opened Wrappers

  datatype Repo = Repo(name: string, description: string, hostname: string, pathname: string)

  /** `parents` is `None` when the commit object has no `parents` property. */
  datatype Commit = Commit(
    hash: string,
    message: string,
    tree: string,
    parents: Option<seq<string>>,
    author: string,
    committer: string)

  /** One entry of a directory listing. */
  datatype FileEntry = FileEntry(name: string, hash: string)
}

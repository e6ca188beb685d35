/**
 * `commitPage(repo, commit)`: the details pane of a commit, built by pushing
 * elements onto the `details` array, and what its buttons do.
 */
module CommitView {
  import opened Wrappers
  import opened Domain
  import opened Navigation

  /** The fixed section headings of the page. */
  datatype Caption =
    | MessageCaption | TreeCaption | ParentCaption | ParentsCaption
    | AuthorCaption | CommitterCaption | HashCaption

  /** The text of a heading's `h2`. */
  function CaptionText(c: Caption): string {
    match c
    case MessageCaption => "message:"
    case TreeCaption => "tree:"
    case ParentCaption => "parent:"
    case ParentsCaption => "parents:"
    case AuthorCaption => "author:"
    case CommitterCaption => "committer:"
    case HashCaption => "hash:"
  }

  /** One element pushed onto `details`. */
  datatype Detail =
    | Heading(caption: Caption)     // a section header
    | Message(text: string)         // a paragraph that keeps the message's whitespace
    | Field(text: string)           // a plain paragraph
    | TreeButton(tree: string)      // the highlighted button that opens the tree
    | ParentButton(parent: string)  // a button that opens one parent
    | HashButton(hash: string)      // a disabled button showing the hash

  /** The page: its header shows the repository name above the details. */
  datatype CommitPageView = CommitPageView(title: string, details: seq<Detail>)

  /** "parent:" for exactly one parent, "parents:" for any other count, zero included. */
  function ParentsLabel(count: nat): (c: Caption)
    ensures CaptionText(c) == "parent" + (if count == 1 then "" else "s") + ":"
  {
    if count == 1 then ParentCaption else ParentsCaption
  }

  function ParentButtons(parents: seq<string>): (ds: seq<Detail>) {
    seq(|parents|, i requires 0 <= i < |parents| => ParentButton(parents[i]))
  }

  /** Present whenever the `parents` property is truthy (any array, even empty). */
  function ParentsSection(parents: Option<seq<string>>): seq<Detail> {
    match parents
    case None => []
    case Some(ps) => [Heading(ParentsLabel(|ps|))] + ParentButtons(ps)
  }

  function MessageAndTree(c: Commit): seq<Detail> {
    [Heading(MessageCaption), Message(c.message), Heading(TreeCaption), TreeButton(c.tree)]
  }

  function AuthorSection(c: Commit): seq<Detail> {
    [Heading(AuthorCaption), Field(c.author)]
  }

  function CommitterSection(c: Commit): seq<Detail> {
    if c.author != c.committer then [Heading(CommitterCaption), Field(c.committer)] else []
  }

  function HashSection(c: Commit): seq<Detail> {
    [Heading(HashCaption), HashButton(c.hash)]
  }

  /** Everything after the parents section. */
  function Tail(c: Commit): seq<Detail> {
    AuthorSection(c) + CommitterSection(c) + HashSection(c)
  }

  /** The details in the order `commitPage` pushes them. */
  function Layout(c: Commit): seq<Detail> {
    MessageAndTree(c) + ParentsSection(c.parents) + Tail(c)
  }

  /** `commitPage`, with the `details.push` calls and the `forEach` over the parents. */
  method CommitPage(repo: Repo, commit: Commit) returns (page: CommitPageView)
    ensures page.title == repo.name
    ensures page.details == Layout(commit)
  {
    var details: seq<Detail> := [];
    details := details + [Heading(MessageCaption), Message(commit.message)];
    details := details + [Heading(TreeCaption), TreeButton(commit.tree)];
    assert details == MessageAndTree(commit);
    if commit.parents.Some? {
      var parents := commit.parents.value;
      details := details + [Heading(if |parents| == 1 then ParentCaption else ParentsCaption)];
      var i := 0;
      while i < |parents|
        invariant 0 <= i <= |parents|
        invariant details == MessageAndTree(commit) + [Heading(ParentsLabel(|parents|))] + ParentButtons(parents[..i])
      {
        details := details + [ParentButton(parents[i])];
        i := i + 1;
      }
      assert parents[..i] == parents;
    }
    assert details == MessageAndTree(commit) + ParentsSection(commit.parents);
    details := details + [Heading(AuthorCaption), Field(commit.author)];
    if commit.author != commit.committer {
      details := details + [Heading(CommitterCaption), Field(commit.committer)];
    }
    details := details + [Heading(HashCaption), HashButton(commit.hash)];
    page := CommitPageView(repo.name, details);
  }

  /**
   * The handler of a detail: `enter` pushes the file list of the tree,
   * `ascend(parent)` replaces this page with the parent's page.
   */
  function Activate(repo: Repo, d: Detail): (e: Effect)
    ensures d.TreeButton? ==> e == FetchThenNavigate(TreeById(repo, d.tree), Push)
    ensures d.ParentButton? ==> e == FetchThenNavigate(CommitById(repo, d.parent), Peer)
    ensures e.Inert? <==> !(d.TreeButton? || d.ParentButton?)
  {
    match d
    case TreeButton(tree) => FetchThenNavigate(TreeById(repo, tree), Push)
    case ParentButton(parent) => FetchThenNavigate(CommitById(repo, parent), Peer)
    case _ => Inert
  }

  /** The effects of the interactive elements of `ds`, in page order. */
  function Interactive(repo: Repo, ds: seq<Detail>): seq<Effect> {
    if ds == [] then []
    else
      var e := Activate(repo, ds[0]);
      (if e.Inert? then [] else [e]) + Interactive(repo, ds[1..])
  }

  lemma {:induction false} InteractiveAppend(repo: Repo, a: seq<Detail>, b: seq<Detail>)
    ensures Interactive(repo, a + b) == Interactive(repo, a) + Interactive(repo, b)
  {
    if a == [] {
      assert a + b == b;
    } else {
      assert (a + b)[1..] == a[1..] + b;
      InteractiveAppend(repo, a[1..], b);
    }
  }

  lemma {:induction false} InteractiveInert(repo: Repo, ds: seq<Detail>)
    requires forall i :: 0 <= i < |ds| ==> Activate(repo, ds[i]).Inert?
    ensures Interactive(repo, ds) == []
  {
    if ds != [] {
      InteractiveInert(repo, ds[1..]);
    }
  }

  function AscendEffects(repo: Repo, parents: seq<string>): seq<Effect> {
    seq(|parents|, i requires 0 <= i < |parents| => FetchThenNavigate(CommitById(repo, parents[i]), Peer))
  }

  lemma {:induction false} InteractiveParents(repo: Repo, parents: seq<string>)
    ensures Interactive(repo, ParentButtons(parents)) == AscendEffects(repo, parents)
  {
    if parents != [] {
      assert ParentButtons(parents) == [ParentButton(parents[0])] + ParentButtons(parents[1..]);
      InteractiveAppend(repo, [ParentButton(parents[0])], ParentButtons(parents[1..]));
      InteractiveParents(repo, parents[1..]);
      assert AscendEffects(repo, parents)
        == [FetchThenNavigate(CommitById(repo, parents[0]), Peer)] + AscendEffects(repo, parents[1..]);
    }
  }

  /**
   * A commit page offers exactly these actions, in page order: the tree
   * button (a push), then one button per parent (each a peer), and nothing
   * else; the hash button is disabled.
   */
  lemma CommitPageActions(repo: Repo, c: Commit)
    ensures Interactive(repo, Layout(c))
      == [FetchThenNavigate(TreeById(repo, c.tree), Push)]
         + (if c.parents.Some? then AscendEffects(repo, c.parents.value) else [])
  {
    var head := MessageAndTree(c);
    InteractiveAppend(repo, head + ParentsSection(c.parents), Tail(c));
    InteractiveAppend(repo, head, ParentsSection(c.parents));
    InteractiveAppend(repo, head[..3], [TreeButton(c.tree)]);
    assert head == head[..3] + [TreeButton(c.tree)];
    InteractiveInert(repo, head[..3]);
    assert Interactive(repo, [TreeButton(c.tree)]) == [FetchThenNavigate(TreeById(repo, c.tree), Push)] by {
      assert [TreeButton(c.tree)][1..] == [];
    }
    InteractiveInert(repo, Tail(c));
    if c.parents.Some? {
      var ps := c.parents.value;
      InteractiveAppend(repo, [Heading(ParentsLabel(|ps|))], ParentButtons(ps));
      InteractiveInert(repo, [Heading(ParentsLabel(|ps|))]);
      InteractiveParents(repo, ps);
    }
  }

  // Reading a commit back from its page: the layout loses nothing.

  /** The run of parent buttons at the front of `ds`, and what follows it. */
  function TakeParents(ds: seq<Detail>): (r: (seq<string>, seq<Detail>))
    ensures ds == ParentButtons(r.0) + r.1
    ensures r.1 == [] || !r.1[0].ParentButton?
  {
    if ds != [] && ds[0].ParentButton? then
      var (ps, rest) := TakeParents(ds[1..]);
      assert ParentButtons([ds[0].parent] + ps) == [ds[0]] + ParentButtons(ps);
      ([ds[0].parent] + ps, rest)
    else ([], ds)
  }

  /** The parents section at the front of `ds`, if any, checking its label against the count. */
  function ReadParents(ds: seq<Detail>): Option<(Option<seq<string>>, seq<Detail>)> {
    if ds != [] && (ds[0] == Heading(ParentCaption) || ds[0] == Heading(ParentsCaption)) then
      var taken := TakeParents(ds[1..]);
      if ds[0] == Heading(ParentsLabel(|taken.0|)) then Some((Some(taken.0), taken.1)) else None
    else Some((None, ds))
  }

  /** The message and tree sections: message, then tree. */
  function ReadHead(ds: seq<Detail>): Option<(string, string)> {
    if |ds| == 4 && ds[0] == Heading(MessageCaption) && ds[1].Message?
       && ds[2] == Heading(TreeCaption) && ds[3].TreeButton?
    then Some((ds[1].text, ds[3].tree))
    else None
  }

  /** The author, committer and hash sections: the committer is shown only when it differs. */
  function ReadTail(ds: seq<Detail>): Option<(string, string, string)> {
    if |ds| == 4 && ds[0] == Heading(AuthorCaption) && ds[1].Field?
       && ds[2] == Heading(HashCaption) && ds[3].HashButton?
    then Some((ds[1].text, ds[1].text, ds[3].hash))
    else if |ds| == 6 && ds[0] == Heading(AuthorCaption) && ds[1].Field?
       && ds[2] == Heading(CommitterCaption) && ds[3].Field? && ds[3].text != ds[1].text
       && ds[4] == Heading(HashCaption) && ds[5].HashButton?
    then Some((ds[1].text, ds[3].text, ds[5].hash))
    else None
  }

  /** The commit a details pane shows, or `None` if `ds` is not a commit page. */
  function ReadCommit(ds: seq<Detail>): Option<Commit> {
    if |ds| < 4 then None
    else
      var head := ReadHead(ds[..4]);
      var parents := ReadParents(ds[4..]);
      if head.None? || parents.None? then None
      else
        var tail := ReadTail(parents.value.1);
        if tail.None? then None
        else Some(Commit(tail.value.2, head.value.0, head.value.1, parents.value.0, tail.value.0, tail.value.1))
  }

  lemma {:induction false} TakeParentsOfButtons(ps: seq<string>, rest: seq<Detail>)
    requires rest == [] || !rest[0].ParentButton?
    ensures TakeParents(ParentButtons(ps) + rest) == (ps, rest)
  {
    if ps != [] {
      var ds := ParentButtons(ps) + rest;
      assert ds[1..] == ParentButtons(ps[1..]) + rest;
      TakeParentsOfButtons(ps[1..], rest);
      assert ps == [ps[0]] + ps[1..];
    } else {
      assert ParentButtons(ps) + rest == rest;
    }
  }

  lemma ReadHeadOfHead(c: Commit)
    ensures ReadHead(MessageAndTree(c)) == Some((c.message, c.tree))
  {
  }

  lemma ReadHeadIsHead(ds: seq<Detail>, message: string, tree: string)
    requires ReadHead(ds) == Some((message, tree))
    ensures ds == [Heading(MessageCaption), Message(message), Heading(TreeCaption), TreeButton(tree)]
  {
  }

  lemma ReadTailOfTail(c: Commit)
    ensures ReadTail(Tail(c)) == Some((c.author, c.committer, c.hash))
  {
  }

  lemma ReadTailIsTail(ds: seq<Detail>, c: Commit)
    requires ReadTail(ds) == Some((c.author, c.committer, c.hash))
    ensures ds == Tail(c)
  {
  }

  lemma ReadParentsOfButtons(ps: seq<string>, rest: seq<Detail>)
    requires rest != [] && rest[0] == Heading(AuthorCaption)
    ensures ReadParents([Heading(ParentsLabel(|ps|))] + (ParentButtons(ps) + rest)) == Some((Some(ps), rest))
  {
    var ds := [Heading(ParentsLabel(|ps|))] + (ParentButtons(ps) + rest);
    assert ds[1..] == ParentButtons(ps) + rest;
    TakeParentsOfButtons(ps, rest);
  }

  lemma ReadParentsOfSection(parents: Option<seq<string>>, rest: seq<Detail>)
    requires rest != [] && rest[0] == Heading(AuthorCaption)
    ensures ReadParents(ParentsSection(parents) + rest) == Some((parents, rest))
  {
    match parents
    case None =>
      assert ParentsSection(parents) + rest == rest;
    case Some(ps) =>
      assert ParentsSection(parents) + rest == [Heading(ParentsLabel(|ps|))] + (ParentButtons(ps) + rest);
      ReadParentsOfButtons(ps, rest);
  }

  lemma ReadParentsIsSection(ds: seq<Detail>, parents: Option<seq<string>>, rest: seq<Detail>)
    requires ReadParents(ds) == Some((parents, rest))
    ensures ds == ParentsSection(parents) + rest
  {
    if ds != [] && (ds[0] == Heading(ParentCaption) || ds[0] == Heading(ParentsCaption)) {
      var taken := TakeParents(ds[1..]);
      assert parents == Some(taken.0) && rest == taken.1;
      assert ds == [Heading(ParentsLabel(|taken.0|))] + (ParentButtons(taken.0) + rest);
    }
  }

  /** Every commit can be read back from its page. */
  lemma ReadLayout(c: Commit)
    ensures ReadCommit(Layout(c)) == Some(c)
  {
    var ds := Layout(c);
    assert ds[..4] == MessageAndTree(c);
    assert ds[4..] == ParentsSection(c.parents) + Tail(c);
    ReadHeadOfHead(c);
    ReadParentsOfSection(c.parents, Tail(c));
    ReadTailOfTail(c);
  }

  /** A pane that reads as a commit is exactly that commit's page. */
  lemma ReadIsLayout(ds: seq<Detail>, c: Commit)
    requires ReadCommit(ds) == Some(c)
    ensures ds == Layout(c)
  {
    var head := ReadHead(ds[..4]).value;
    var parents := ReadParents(ds[4..]).value;
    var tail := ReadTail(parents.1).value;
    assert c == Commit(tail.2, head.0, head.1, parents.0, tail.0, tail.1);
    ReadHeadIsHead(ds[..4], c.message, c.tree);
    ReadParentsIsSection(ds[4..], parents.0, parents.1);
    ReadTailIsTail(parents.1, c);
    assert ds == ds[..4] + ds[4..];
  }

  /** The sample commit: full message, one "parent:" button, no committer section. */
  lemma SampleCommitPage()
    ensures var c := Commit("abc123", "Fix bug\nDetails here", "t1", Some(["p1"]), "a", "a");
      Layout(c) == [Heading(MessageCaption), Message("Fix bug\nDetails here"), Heading(TreeCaption), TreeButton("t1"),
                    Heading(ParentCaption), ParentButton("p1"),
                    Heading(AuthorCaption), Field("a"), Heading(HashCaption), HashButton("abc123")]
  {
    assert ParentButtons(["p1"]) == [ParentButton("p1")];
  }
}

/**
 * `historyList(repo, stream)`: the commit history, pulled from the stream
 * nine commits at a time, with a "Load More..." row after every full batch.
 */
module History {
  import opened Wrappers
  import opened Domain
  import opened Title
  import opened Navigation

  /** `chunkSize`: commits pulled per batch. */
  const ChunkSize: nat := 9

  /** The `limit` passed to `truncate` for a row title. */
  const TitleLimit: int := 80

  /** One `li` of the history `ul`. */
  datatype Row = CommitRow(title: string, hash: string, commit: Commit) | LoadMore

  function Min(a: int, b: int): int {
    if a < b then a else b
  }

  /** The row shown for a commit: its truncated title and its hash. */
  function RowOf(c: Commit): (row: Row)
    ensures row.CommitRow? && row.commit == c && row.hash == c.hash
    ensures SingleLine(row.title) && |row.title| <= TitleLimit
    ensures |FirstLine(c.message)| <= TitleLimit ==> row.title == FirstLine(c.message)
    ensures |FirstLine(c.message)| > TitleLimit ==> row.title == FirstLine(c.message)[..TitleLimit - 3] + Ellipsis
  {
    CommitRow(Truncate(c.message, TitleLimit), c.hash, c)
  }

  function Rows(cs: seq<Commit>): seq<Row> {
    seq(|cs|, i requires 0 <= i < |cs| => RowOf(cs[i]))
  }

  /** The commits behind the commit rows of `rows`, in order. */
  function CommitsOf(rows: seq<Row>): seq<Commit> {
    if rows == [] then [] else CommitOf(rows[0]) + CommitsOf(rows[1..])
  }

  function CommitOf(row: Row): seq<Commit> {
    if row.CommitRow? then [row.commit] else []
  }

  lemma {:induction false} CommitsOfAppend(a: seq<Row>, b: seq<Row>)
    ensures CommitsOf(a + b) == CommitsOf(a) + CommitsOf(b)
  {
    if a == [] {
      assert a + b == b;
    } else {
      calc {
        CommitsOf(a + b);
        CommitOf(a[0]) + CommitsOf((a + b)[1..]);
        { assert (a + b)[1..] == a[1..] + b; }
        CommitOf(a[0]) + CommitsOf(a[1..] + b);
        { CommitsOfAppend(a[1..], b); }
        CommitOf(a[0]) + (CommitsOf(a[1..]) + CommitsOf(b));
      }
    }
  }

  /** Each commit has exactly one row, in stream order. */
  lemma {:induction false} CommitsOfRows(cs: seq<Commit>)
    ensures CommitsOf(Rows(cs)) == cs
  {
    if cs != [] {
      assert Rows(cs)[1..] == Rows(cs[1..]);
      CommitsOfRows(cs[1..]);
    }
  }

  predicate EndsWithLoadMore(rows: seq<Row>) {
    |rows| > 0 && rows[|rows| - 1] == LoadMore
  }

  /**
   * What one `enqueue` appends when `rest` is what the stream has left: a row
   * for each of the first (at most nine) commits, then "Load More..." if all
   * nine pulls gave a commit.
   */
  function Batch(rest: seq<Commit>): seq<Row> {
    Rows(rest[..Min(ChunkSize, |rest|)]) + (if ChunkSize <= |rest| then [LoadMore] else [])
  }

  /** How many commits of `s` are shown after the first batch and `clicks` "Load More..." clicks. */
  function Shown(s: seq<Commit>, clicks: nat): nat {
    Min(|s|, ChunkSize * (clicks + 1))
  }

  /** The rows on screen after the first batch and `clicks` clicks on "Load More...". */
  function Visible(s: seq<Commit>, clicks: nat): seq<Row> {
    Rows(s[..Shown(s, clicks)]) + (if ChunkSize * (clicks + 1) <= |s| then [LoadMore] else [])
  }

  lemma RowsHaveNoLoadMore(cs: seq<Commit>)
    ensures !EndsWithLoadMore(Rows(cs))
  {
  }

  /** The commit rows on screen are the first commits of the stream, each once, in order. */
  lemma VisibleCommits(s: seq<Commit>, clicks: nat)
    ensures CommitsOf(Visible(s, clicks)) == s[..Shown(s, clicks)]
  {
    var shown := s[..Shown(s, clicks)];
    CommitsOfRows(shown);
    if ChunkSize * (clicks + 1) <= |s| {
      CommitsOfAppend(Rows(shown), [LoadMore]);
    } else {
      assert Visible(s, clicks) == Rows(shown);
    }
  }

  lemma FirstBatch(s: seq<Commit>)
    ensures Visible(s, 0) == Batch(s)
  {
  }

  /**
   * A click on "Load More..." removes that row, keeps every row before it and
   * appends the next batch.
   */
  lemma {:induction false} MoreStep(s: seq<Commit>, clicks: nat)
    requires EndsWithLoadMore(Visible(s, clicks))
    ensures ChunkSize * (clicks + 1) <= |s|
    ensures Visible(s, clicks + 1)
      == Visible(s, clicks)[..|Visible(s, clicks)| - 1] + Batch(s[ChunkSize * (clicks + 1)..])
  {
    var n := ChunkSize * (clicks + 1);
    var v := Visible(s, clicks);
    assert v[..|v| - 1] == Rows(s[..n]);
    var rest := s[n..];
    var m := Min(ChunkSize, |rest|);
    assert s[..Shown(s, clicks + 1)] == s[..n] + rest[..m];
    assert Rows(s[..n] + rest[..m]) == Rows(s[..n]) + Rows(rest[..m]);
  }

  /** `MoreStep` restated for a stream that started at `start` and now stands at `pos`. */
  lemma ClickFrom(items: seq<Commit>, start: nat, pos: nat, clicks: nat)
    requires start <= pos <= |items|
    requires pos == start + Shown(items[start..], clicks)
    requires EndsWithLoadMore(Visible(items[start..], clicks))
    ensures var v := Visible(items[start..], clicks);
      && Visible(items[start..], clicks + 1) == v[..|v| - 1] + Batch(items[pos..])
      && start + Shown(items[start..], clicks + 1) == pos + Min(ChunkSize, |items| - pos)
  {
    var s := items[start..];
    MoreStep(s, clicks);
    assert pos == start + ChunkSize * (clicks + 1);
    assert items[pos..] == s[ChunkSize * (clicks + 1)..];
  }

  /** Each of the first ceil(K / 9) - 1 clicks finds a "Load More..." row to click. */
  lemma ClicksReachable(s: seq<Commit>, clicks: nat)
    requires |s| > 0 && clicks < (|s| - 1) / ChunkSize
    ensures EndsWithLoadMore(Visible(s, clicks))
  {
  }

  /**
   * With K > 0 commits, ceil(K / 9) - 1 clicks show every commit once, in order;
   * a "Load More..." row is still there exactly when K is a multiple of 9.
   */
  lemma PaginationCompletes(s: seq<Commit>)
    requires |s| > 0
    ensures var clicks := (|s| - 1) / ChunkSize;
      CommitsOf(Visible(s, clicks)) == s
      && (EndsWithLoadMore(Visible(s, clicks)) <==> |s| % ChunkSize == 0)
  {
    var clicks := (|s| - 1) / ChunkSize;
    assert Shown(s, clicks) == |s|;
    assert s[..|s|] == s;
    VisibleCommits(s, clicks);
    if ChunkSize * (clicks + 1) > |s| {
      RowsHaveNoLoadMore(s);
    }
  }

  /**
   * Without look-ahead a stream of 9k commits still ends with "Load More...";
   * clicking it pulls an empty batch and leaves no "Load More..." row.
   */
  lemma MultipleOfChunkEndsEmpty(s: seq<Commit>)
    requires |s| > 0 && |s| % ChunkSize == 0
    ensures var clicks := |s| / ChunkSize;
      Batch(s[ChunkSize * clicks..]) == []
      && Visible(s, clicks) == Rows(s)
  {
    var clicks := |s| / ChunkSize;
    assert ChunkSize * clicks == |s|;
    assert s[..|s|] == s;
  }

  /** Selecting a history row: a commit row pushes that commit's page. */
  function Select(repo: Repo, row: Row): (e: Effect)
    ensures row.CommitRow? ==> e == Navigate(Push, CommitScreen(repo, row.commit))
    ensures row.LoadMore? ==> e == ExpandHistory
  {
    match row
    case CommitRow(_, _, commit) => Navigate(Push, CommitScreen(repo, commit))
    case LoadMore => ExpandHistory
  }

  /** Row `i` on screen pushes the page of the `i`-th commit of the stream, or loads more. */
  lemma SelectVisible(repo: Repo, s: seq<Commit>, clicks: nat, i: nat)
    requires i < |Visible(s, clicks)|
    ensures i < Shown(s, clicks) ==> Select(repo, Visible(s, clicks)[i]) == Navigate(Push, CommitScreen(repo, s[i]))
    ensures i >= Shown(s, clicks) ==> Select(repo, Visible(s, clicks)[i]) == ExpandHistory
  {
  }

  /**
   * The object returned by `getHistoryStream`: `next()` gives the next commit,
   * or a falsy value once the commits run out.
   */
  class Stream {
    const items: seq<Commit>
    var pos: nat
    /** How many times `next()` has been called. */
    ghost var pulls: nat

    ghost predicate Valid()
      reads this
    {
      pos <= |items|
    }

    constructor (items: seq<Commit>)
      ensures Valid() && this.items == items && pos == 0 && pulls == 0
    {
      this.items := items;
      pos := 0;
      pulls := 0;
    }

    method Next() returns (c: Option<Commit>)
      requires Valid()
      modifies this
      ensures Valid() && pulls == old(pulls) + 1
      ensures old(pos) < |items| ==> c == Some(items[old(pos)]) && pos == old(pos) + 1
      ensures old(pos) == |items| ==> c == None && pos == old(pos)
    {
      pulls := pulls + 1;
      if pos < |items| {
        c := Some(items[pos]);
        pos := pos + 1;
      } else {
        c := None;
      }
    }
  }

  /**
   * The state `historyList` keeps in its closure: the stream, the batch
   * array `list`, and the rows of the rendered `ul`.
   */
  class HistoryList {
    const repo: Repo
    const stream: Stream
    /** The page header's title: the repository name. */
    const title: string
    /** Where the stream stood when the list was built. */
    ghost const start: nat
    /** How many times "Load More..." has been activated. */
    ghost var clicks: nat
    var list: seq<Row>
    var rendered: seq<Row>

    /**
     * The page shows the rows of everything pulled so far, in stream order,
     * and the stream stands just past the last commit shown.
     */
    ghost predicate Valid()
      reads this, stream
    {
      && stream.Valid()
      && start <= stream.pos
      && stream.pos == start + Shown(stream.items[start..], clicks)
      && rendered == Visible(stream.items[start..], clicks)
    }

    /** The `$.more` handle is set: the last row is "Load More...". */
    predicate HasMore()
      reads this
    {
      EndsWithLoadMore(rendered)
    }

    /** The commits the page shows so far. */
    ghost function Pulled(): seq<Commit>
      reads this, stream
      requires Valid()
    {
      stream.items[start..stream.pos]
    }

    lemma ShowsPulled()
      requires Valid()
      ensures CommitsOf(rendered) == Pulled()
    {
      VisibleCommits(stream.items[start..], clicks);
    }

    constructor (repo: Repo, stream: Stream)
      requires stream.Valid()
      modifies stream
      ensures Valid() && this.repo == repo && this.stream == stream && title == repo.name
      ensures start == old(stream.pos) && clicks == 0
      ensures rendered == Batch(stream.items[start..])
      ensures stream.pulls == old(stream.pulls) + Min(ChunkSize, |stream.items| - start + 1)
    {
      this.repo := repo;
      this.stream := stream;
      title := repo.name;
      start := stream.pos;
      clicks := 0;
      list := [];
      rendered := [];
      new;
      Enqueue();
      rendered := list;
      FirstBatch(stream.items[start..]);
    }

    /**
     * `enqueue`: at most nine calls of `next()`, stopping at the first one
     * that gives nothing; one row per commit, then "Load More..." if all
     * nine gave a commit.
     */
    method Enqueue()
      requires stream.Valid()
      modifies this`list, stream
      ensures stream.Valid()
      ensures stream.pos == old(stream.pos) + Min(ChunkSize, |stream.items| - old(stream.pos))
      ensures stream.pulls == old(stream.pulls) + Min(ChunkSize, |stream.items| - old(stream.pos) + 1)
      ensures list == old(list) + Batch(stream.items[old(stream.pos)..])
    {
      ghost var from := stream.pos;
      var i := 0;
      while i < ChunkSize
        invariant 0 <= i <= ChunkSize
        invariant stream.Valid() && stream.pos == from + i
        invariant stream.pulls == old(stream.pulls) + i
        invariant list == old(list) + Rows(stream.items[from..stream.pos])
      {
        var commit := stream.Next();
        if commit.None? {
          assert stream.items[from..][..Min(ChunkSize, |stream.items| - from)] == stream.items[from..stream.pos];
          return;
        }
        assert stream.items[from..stream.pos] == stream.items[from..stream.pos - 1] + [commit.value];
        list := list + [RowOf(commit.value)];
        i := i + 1;
      }
      assert stream.items[from..][..ChunkSize] == stream.items[from..stream.pos];
      list := list + [LoadMore];
    }

    /**
     * `more`: drop the "Load More..." row, build the next batch in a fresh
     * `list`, and append it after the rows already shown.
     */
    method More()
      requires Valid() && HasMore()
      modifies this, stream
      ensures Valid() && clicks == old(clicks) + 1
      ensures rendered == old(rendered)[..|old(rendered)| - 1] + list
      ensures list == Batch(stream.items[old(stream.pos)..])
      ensures stream.pulls == old(stream.pulls) + Min(ChunkSize, |stream.items| - old(stream.pos) + 1)
    {
      ClickFrom(stream.items, start, stream.pos, clicks);
      rendered := rendered[..|rendered| - 1];
      list := [];
      Enqueue();
      rendered := rendered + list;
      clicks := clicks + 1;
    }
  }

  /**
   * Ten commits: the first batch shows nine and "Load More..."; one click
   * shows the tenth after them and leaves no "Load More..." row.
   */
  method TenCommits(repo: Repo, cs: seq<Commit>) returns (first: seq<Row>, after: seq<Row>)
    requires |cs| == 10
    ensures first == Rows(cs[..9]) + [LoadMore]
    ensures after == Rows(cs)
  {
    var stream := new Stream(cs);
    var page := new HistoryList(repo, stream);
    first := page.rendered;
    assert cs[0..][..9] == cs[..9];
    page.More();
    after := page.rendered;
    assert cs[..Shown(cs, 1)] == cs;
  }

  /** Clicking "Load More..." for as long as it is shown renders every commit once, in order. */
  method ClickUntilDone(repo: Repo, cs: seq<Commit>) returns (rows: seq<Row>)
    ensures rows == Rows(cs)
  {
    var stream := new Stream(cs);
    var page := new HistoryList(repo, stream);
    while page.HasMore()
      invariant page.Valid() && page.stream == stream && page.start == 0 && stream.items == cs
      decreases |cs| - stream.pos, page.HasMore()
    {
      ghost var before := stream.pos;
      page.More();
      assert stream.pos > before || !page.HasMore();
    }
    rows := page.rendered;
    assert cs[0..] == cs;
    // the loop stops only once no "Load More..." row is shown
    if ChunkSize * (page.clicks + 1) <= |cs| {
      assert false;
    }
    assert Shown(cs, page.clicks) == |cs|;
    assert cs[..|cs|] == cs;
  }
}

/**
 * `truncate(message, limit)`: the one-line title shown for a commit.
 * JavaScript string lengths count UTF-16 code units; one `char` here stands
 * for one unit (characters that JavaScript stores as surrogate pairs are not
 * modelled).
 */
module Title {

  const Ellipsis: string := "..."

  /** The characters `split(/[\r\n]/)` splits on. */
  predicate IsLineBreak(c: char) {
    c == '\r' || c == '\n'
  }

  predicate SingleLine(s: string) {
    forall i :: 0 <= i < |s| ==> !IsLineBreak(s[i])
  }

  function Max(a: int, b: int): int {
    if a < b then b else a
  }

  /**
   * Element 0 of `s.split(/[\r\n]/)`: the longest prefix of `s` without a line
   * break. It ends at the end of `s` or just before a line break.
   */
  function FirstLine(s: string): (r: string)
    ensures r <= s && SingleLine(r)
    ensures |r| == |s| || IsLineBreak(s[|r|])
  {
    if s == [] || IsLineBreak(s[0]) then []
    else
      var rest := FirstLine(s[1..]);
      assert [s[0]] + rest == s[..|rest| + 1];
      [s[0]] + rest
  }

  /** The two properties of `FirstLine`'s contract determine it. */
  lemma {:induction false} FirstLineUnique(s: string, p: string)
    requires p <= s && SingleLine(p)
    requires |p| == |s| || IsLineBreak(s[|p|])
    ensures p == FirstLine(s)
  {
  }

  /** A string without line breaks is its own first line. */
  lemma SingleLineIsFirstLine(s: string)
    requires SingleLine(s)
    ensures FirstLine(s) == s
  {
    FirstLineUnique(s, s);
  }

  /**
   * `substr(0, limit - 3)` with a negative length yields "", hence the `Max`.
   */
  function Truncate(message: string, limit: int): (r: string)
    ensures SingleLine(r)
    ensures |r| <= Max(limit, 3)
  {
    var title := FirstLine(message);
    if |title| > limit then title[..Max(0, limit - 3)] + Ellipsis else title
  }

  lemma TruncateKeepsShortLine(message: string, limit: int)
    requires |FirstLine(message)| <= limit
    ensures Truncate(message, limit) == FirstLine(message)
  {
  }

  /**
   * A first line longer than `limit` becomes `max(limit, 3)` characters: a
   * prefix of that line, then the ellipsis.
   */
  lemma TruncateCutsLongLine(message: string, limit: int)
    requires |FirstLine(message)| > limit
    ensures var r := Truncate(message, limit);
      |r| == Max(limit, 3) && r[..|r| - 3] <= FirstLine(message) && r[|r| - 3..] == Ellipsis
  {
  }

  /** With a limit of at least 3, the message comes back unchanged iff it is already a short single line. */
  lemma TruncateUnchangedIff(message: string, limit: int)
    requires limit >= 3
    ensures Truncate(message, limit) == message <==> SingleLine(message) && |message| <= limit
  {
    if SingleLine(message) && |message| <= limit {
      SingleLineIsFirstLine(message);
    }
  }

  /** Truncating a title again changes nothing, whatever the limit. */
  lemma TruncateIdempotent(message: string, limit: int)
    ensures Truncate(Truncate(message, limit), limit) == Truncate(message, limit)
  {
    SingleLineIsFirstLine(Truncate(message, limit));
  }
}

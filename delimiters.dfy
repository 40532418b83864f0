/** The `/(.*)/` test that decides whether a convention string is a custom regular
    expression (src/lib.rs:87, 97-98). The regex is unanchored, `.` matches every
    character except a line feed, the search is leftmost-first and `.*` is greedy. */
module Delimiters {
  import opened Outcomes
  import opened Strings

  /** `/(.*)/` can match `s[i..j + 1]`: slashes at `i` and `j`, no line feed between. */
  predicate IsSpan(s: string, i: int, j: int) {
    0 <= i < j < |s| && s[i] == '/' && s[j] == '/' && '\n' !in s[i + 1..j]
  }

  /** The position of the first line feed at or after `k`, or `|s|` if there is none. */
  function LineEnd(s: string, k: nat): (e: nat)
    requires k <= |s|
    ensures k <= e <= |s| && '\n' !in s[k..e] && (e < |s| ==> s[e] == '\n')
    decreases |s| - k
  {
    if k == |s| || s[k] == '\n' then k
    else
      var e := LineEnd(s, k + 1);
      assert s[k..e] == [s[k]] + s[k + 1..e];
      e
  }

  /** The last '/' in `s[lo..hi]`. */
  function LastSlashIn(s: string, lo: nat, hi: nat): (r: Option<nat>)
    requires lo <= hi <= |s|
    ensures r.Some? ==> lo <= r.value < hi && s[r.value] == '/' && '/' !in s[r.value + 1..hi]
    ensures r.None? ==> '/' !in s[lo..hi]
  {
    match LastIndexOf(s[lo..hi], '/')
    case None => None
    case Some(k) =>
      assert s[lo..hi][k + 1..] == s[lo + k + 1..hi];
      Some(lo + k)
  }

  /** A match that starts at `k` ends before the line feed that follows `k`. */
  lemma SpanStaysOnLine(s: string, k: nat, j: int)
    requires IsSpan(s, k, j)
    ensures j < LineEnd(s, k + 1)
  {
  }

  /** Where the search starting at `k` looks: the last '/' on the line of `k`. */
  lemma SpansAt(s: string, k: nat)
    requires k < |s| && s[k] == '/'
    ensures LastSlashIn(s, k + 1, LineEnd(s, k + 1)).None? ==> forall j :: !IsSpan(s, k, j)
    ensures LastSlashIn(s, k + 1, LineEnd(s, k + 1)).Some? ==>
      var j := LastSlashIn(s, k + 1, LineEnd(s, k + 1)).value;
      IsSpan(s, k, j) && forall j' :: j < j' ==> !IsSpan(s, k, j')
  {
    var e := LineEnd(s, k + 1);
    forall j | IsSpan(s, k, j)
      ensures j < e && s[k + 1..e][j - (k + 1)] == '/'
    {
      SpanStaysOnLine(s, k, j);
    }
    var r := LastSlashIn(s, k + 1, e);
    if r.Some? {
      NoLineFeedInPrefix(s, k + 1, r.value, e);
    }
  }

  /** A stretch without line feeds has none in its prefixes. */
  lemma NoLineFeedInPrefix(s: string, lo: nat, mid: nat, hi: nat)
    requires lo <= mid <= hi <= |s| && '\n' !in s[lo..hi]
    ensures '\n' !in s[lo..mid]
  {
    assert s[lo..mid] == s[lo..hi][..mid - lo];
  }

  /** The leftmost-first, greedy match of `/(.*)/` that starts at or after `k`. */
  function FindSpan(s: string, k: nat): (r: Option<(nat, nat)>)
    requires k <= |s|
    ensures r.Some? ==> k <= r.value.0 && IsSpan(s, r.value.0, r.value.1)
    ensures r.Some? ==> forall i, j :: k <= i < r.value.0 ==> !IsSpan(s, i, j)
    ensures r.Some? ==> forall j :: r.value.1 < j ==> !IsSpan(s, r.value.0, j)
    ensures r.None? ==> forall i, j :: k <= i ==> !IsSpan(s, i, j)
    decreases |s| - k
  {
    if k == |s| then None
    else if s[k] == '/' then
      SpansAt(s, k);
      match LastSlashIn(s, k + 1, LineEnd(s, k + 1))
      case Some(j) => Some((k, j))
      case None => FindSpan(s, k + 1)
    else FindSpan(s, k + 1)
  }

  /** `reg_pattern.is_match(s)`. */
  function HasSpan(s: string): (b: bool)
    ensures b <==> exists i, j :: IsSpan(s, i, j)
  {
    FindSpan(s, 0).Some?
  }

  /** `s` without the characters at `i` and `j`. */
  function DeleteTwo(s: string, i: nat, j: nat): string
    requires i < j < |s|
  {
    s[..i] + s[i + 1..j] + s[j + 1..]
  }

  /** `reg_pattern.replace(s, "$1")`: the first match is replaced by the text between
      its two slashes; without a match the string is unchanged. */
  function ReplaceWithInterior(s: string): (r: string)
    ensures !HasSpan(s) ==> r == s
    ensures HasSpan(s) ==> exists i, j ::
      && IsSpan(s, i, j)
      && (forall i', j' :: i' < i ==> !IsSpan(s, i', j'))
      && (forall j' :: j < j' ==> !IsSpan(s, i, j'))
      && r == DeleteTwo(s, i, j)
  {
    match FindSpan(s, 0)
    case None => s
    case Some((i, j)) => DeleteTwo(s, i, j)
  }

  /** Every slash lies between the first and the last one. */
  lemma SlashBetweenFirstAndLast(s: string, x: nat)
    requires x < |s| && s[x] == '/'
    ensures FirstIndexOf(s, '/').Some? && FirstIndexOf(s, '/').value <= x
    ensures LastIndexOf(s, '/').Some? && x <= LastIndexOf(s, '/').value
  {
  }

  /** Without line feeds, any two slashes delimit a possible match. */
  lemma SlashPairIsSpan(s: string, i: nat, j: nat)
    requires '\n' !in s && i < j < |s| && s[i] == '/' && s[j] == '/'
    ensures IsSpan(s, i, j)
  {
  }

  /** Without line feeds a match runs from the first slash to the last. */
  lemma FoundSpanWithoutLineFeeds(s: string)
    requires '\n' !in s && FindSpan(s, 0).Some?
    ensures FirstIndexOf(s, '/').Some? && LastIndexOf(s, '/').Some?
    ensures FindSpan(s, 0).value == (FirstIndexOf(s, '/').value, LastIndexOf(s, '/').value)
  {
    var (i', j') := FindSpan(s, 0).value;
    SlashBetweenFirstAndLast(s, i');
    SlashBetweenFirstAndLast(s, j');
    var i, j := FirstIndexOf(s, '/').value, LastIndexOf(s, '/').value;
    SlashPairIsSpan(s, i, j);
  }

  /** Without line feeds no match means at most one slash. */
  lemma NoSpanWithoutLineFeeds(s: string)
    requires '\n' !in s && FindSpan(s, 0).None?
    ensures FirstIndexOf(s, '/') == LastIndexOf(s, '/')
  {
    if FirstIndexOf(s, '/').Some? {
      var i := FirstIndexOf(s, '/').value;
      SlashBetweenFirstAndLast(s, i);
      var j := LastIndexOf(s, '/').value;
      if i != j {
        SlashPairIsSpan(s, i, j);
      }
    }
  }

  /** On a string without line feeds there is a match exactly when the string holds two
      slashes, and the regex source is the string with its first and its last '/'
      deleted. */
  lemma WithoutLineFeeds(s: string)
    requires '\n' !in s
    ensures HasSpan(s) <==> FirstIndexOf(s, '/') != LastIndexOf(s, '/')
    ensures HasSpan(s) ==> FirstIndexOf(s, '/').Some? && LastIndexOf(s, '/').Some?
    ensures HasSpan(s) ==> FirstIndexOf(s, '/').value < LastIndexOf(s, '/').value
    ensures HasSpan(s) ==>
      ReplaceWithInterior(s) == DeleteTwo(s, FirstIndexOf(s, '/').value, LastIndexOf(s, '/').value)
  {
    if FindSpan(s, 0).Some? {
      FoundSpanWithoutLineFeeds(s);
    } else {
      NoSpanWithoutLineFeeds(s);
    }
  }

  /** The slashes of `/^v\d+$/`: first at 0, last at 7, enclosing `^v\d+$`. */
  lemma VersionSlashes()
    ensures '\n' !in "/^v\\d+$/"
    ensures FirstIndexOf("/^v\\d+$/", '/') == Some(0) && LastIndexOf("/^v\\d+$/", '/') == Some(7)
    ensures DeleteTwo("/^v\\d+$/", 0, 7) == "^v\\d+$"
  {
    var s := "/^v\\d+$/";
    assert FirstIndexOf(s, '/') == Some(0);
    assert LastIndexOf(s, '/') == Some(7);
  }

  /** An example: `/^v\d+$/` becomes the regex source `^v\d+$`. */
  lemma VersionExample()
    ensures HasSpan("/^v\\d+$/") && ReplaceWithInterior("/^v\\d+$/") == "^v\\d+$"
  {
    VersionSlashes();
    WithoutLineFeeds("/^v\\d+$/");
  }

  /** A line feed ends what `.` can cover: in `/a\n/b/` the first slash has no partner
      on its line, so the match is `/b/` and the source is `/a\nb`. */
  lemma LineFeedExample()
    ensures ReplaceWithInterior("/a\n/b/") == "/a\nb"
  {
    LineFeedSecondLine();
    LineFeedFirstLine();
    assert DeleteTwo("/a\n/b/", 3, 5) == "/a\nb";
  }

  /** On the second line of `/a\n/b/` the slashes at 3 and 5 pair up. */
  lemma LineFeedSecondLine()
    ensures FindSpan("/a\n/b/", 3) == Some((3, 5))
  {
    var s := "/a\n/b/";
    assert LineEnd(s, 4) == 6;
    assert s[4..6] == "b/";
    assert LastSlashIn(s, 4, 6) == Some(5);
  }

  /** The first line of `/a\n/b/` holds no second '/', so the search moves on. */
  lemma LineFeedFirstLine()
    ensures FindSpan("/a\n/b/", 0) == FindSpan("/a\n/b/", 3)
  {
    var s := "/a\n/b/";
    assert LineEnd(s, 1) == 2;
    assert s[1..2] == "a";
    assert LastSlashIn(s, 1, 2) == None;
  }
}

/** The back link of the top bar (`Nav` in src/index.tsx): the current path with its last level removed. */
module Nav {
  import opened Strings

  /** `pathname.endsWith("/") ? 2 : 1`. */
  function LevelsToRemove(pathname: string): nat
  {
    if EndsWith(pathname, "/") then 2 else 1
  }

  /** `xs.slice(0, end)`: a negative `end` counts back from the end of the list. */
  function SliceTo<T>(xs: seq<T>, end: int): (r: seq<T>)
    ensures end >= 0 ==> r == xs[..if end <= |xs| then end else |xs|]
  {
    if end < 0 then xs[..if |xs| + end < 0 then 0 else |xs| + end]
    else xs[..if end <= |xs| then end else |xs|]
  }

  /** The end index `Nav` passes to `slice`. */
  function SliceEnd(pathname: string): int
  {
    |Split(pathname, '/')| - LevelsToRemove(pathname)
  }

  /** `backPath`: split on "/", drop the last 1 (or 2 after a trailing "/") pieces, join with "/". */
  function BackPath(pathname: string): string
  {
    var levels := Split(pathname, '/');
    Join(SliceTo(levels, SliceEnd(pathname)), '/')
  }

  /**
   * A path ending in "/" splits into at least two pieces, so the slice end is never negative
   * and the back path is the pieces without the last `LevelsToRemove` of them.
   */
  lemma SliceEndNonNegative(pathname: string)
    ensures SliceEnd(pathname) >= 0
    ensures var levels := Split(pathname, '/');
      BackPath(pathname) == Join(levels[..|levels| - LevelsToRemove(pathname)], '/')
  {
    if EndsWith(pathname, "/") {
      var x := pathname[..|pathname| - 1];
      assert pathname == x + ['/'];
      SplitTrailing(x, '/');
    }
  }

  /** The back path is always a prefix of the current path. */
  lemma BackPathIsPrefix(pathname: string)
    ensures BackPath(pathname) <= pathname
  {
    SliceEndNonNegative(pathname);
    var levels := Split(pathname, '/');
    var end := SliceEnd(pathname);
    JoinPrefix(levels, end, '/');
    JoinSplit(pathname, '/');
  }

  /** A trailing "/" does not change where the back link leads. */
  lemma BackPathIgnoresTrailingSlash(p: string)
    requires !EndsWith(p, "/")
    ensures BackPath(p + "/") == BackPath(p)
  {
    SplitTrailing(p, '/');
    var q := p + "/";
    assert EndsWith(q, "/");
    var n := |Split(p, '/')|;
    assert Split(q, '/') == Split(p, '/') + [""];
    assert SliceEnd(q) == n - 1 == SliceEnd(p);
    assert (Split(p, '/') + [""])[..n - 1] == Split(p, '/')[..n - 1];
  }

  /** The root path "/" leads back to "". */
  lemma RootBackPath()
    ensures BackPath("/") == ""
  {
    SplitTrailing("", '/');
    assert "" + ['/'] == "/";
  }
}

/** The address-bar cleanup at the end of `initializePage`: a path longer than
    `/` that ends in a slash loses that one slash, and the query and fragment
    are kept as they are. */
module UrlCleanup {
  import opened Optional

  /** The guard: longer than one character and ending in `/`. */
  predicate HasTrailingSlash(pathname: string)
  {
    |pathname| > 1 && pathname[|pathname| - 1] == '/'
  }

  /** The URL handed to `history.replaceState`, or `None` when the guard fails
      and the address is left alone. */
  function CleanUrl(pathname: string, search: string, hash: string): (url: Option<string>)
    ensures url.Some? <==> HasTrailingSlash(pathname)
    ensures url.Some? ==>
      && |url.value| == |pathname| - 1 + |search| + |hash|
      && url.value[..|pathname| - 1] + "/" == pathname
      && url.value[|pathname| - 1..] == search + hash
  {
    if HasTrailingSlash(pathname) then
      var newPath := pathname[..|pathname| - 1];
      assert newPath + "/" == pathname;
      Some(newPath + search + hash)
    else None
  }

  /** Only one slash goes per run of `initializePage` (page load or resize): `/a//` becomes `/a/`, `/a/` becomes
      `/a`, and the root path `/` is never rewritten. */
  lemma CleanUrlExamples()
    ensures CleanUrl("/a//", "?q", "#h") == Some("/a/?q#h")
    ensures CleanUrl("/a/", "", "") == Some("/a")
    ensures CleanUrl("/", "?q", "") == None
    ensures CleanUrl("/a", "", "#h") == None
  {
    assert "/a//"[..3] == "/a/";
    assert "/a/" + "?q" + "#h" == "/a/?q#h";
    assert "/a/"[..2] == "/a";
  }

  /** The path after one run of `initializePage` (page load or resize) per
      rewrite, until the guard fails. */
  function SettledPath(pathname: string): (p: string)
    ensures !HasTrailingSlash(p)
    ensures |p| <= |pathname| && pathname[..|p|] == p
    ensures forall i :: |p| <= i < |pathname| ==> pathname[i] == '/'
    ensures pathname != [] ==> p != []
    decreases |pathname|
  {
    if HasTrailingSlash(pathname) then
      var shorter := pathname[..|pathname| - 1];
      var p := SettledPath(shorter);
      assert shorter[..|p|] == pathname[..|p|];
      p
    else pathname
  }

  /** Rewriting a path that has already settled changes nothing. */
  lemma SettledPathIsStable(pathname: string)
    ensures CleanUrl(SettledPath(pathname), "", "") == None
    ensures SettledPath(SettledPath(pathname)) == SettledPath(pathname)
  {
  }
}

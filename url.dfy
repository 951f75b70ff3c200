/**
 * The path/query extraction that `get_auth` performs with the pattern
 * `https?://.*?(/.*?)(?:$|\?(.*))`, an unanchored PCRE match without flags:
 * `.` does not match a newline, and `$` matches at the end of the subject
 * or just before a newline that ends it. Lazy quantifiers make the match,
 * at the leftmost position where one exists, take the first `/` after the
 * scheme (not crossing a newline) and end the path at the first later `?`
 * or at the end.
 */
module Url {
  import opened Wrappers
  import opened Strings

  /** Capture group 1 (the path) and group 2 (the query, "" when unset). */
  datatype Target = Target(path: string, query: string)

  /** Length of the `https://` or `http://` that `s` has at `i`, or 0. */
  function SchemeLength(s: string, i: nat): (n: nat)
    requires i <= |s|
    ensures n == 0 || n == 7 || n == 8
    ensures n == 8 <==> "https://" <= s[i..]
    ensures n == 7 <==> "http://" <= s[i..]
  {
    if "https://" <= s[i..] then
      assert s[i..][4] != ("http://")[4];
      8
    else if "http://" <= s[i..] then 7
    else 0
  }

  /** The outcome of trying the pattern with the match starting at `i`. */
  function MatchAt(s: string, i: nat): Option<Target>
    requires i <= |s|
  {
    var n := SchemeLength(s, i);
    if n == 0 then None else MatchAfterScheme(s, i + n)
  }

  /** The rest of the pattern, `.*?(/.*?)(?:$|\?(.*))`, tried from index `k`. */
  function MatchAfterScheme(s: string, k: nat): Option<Target>
    requires k <= |s|
  {
    // the first `.*?` cannot step over a newline
    var e := Find(s, {'\n'}, k);
    var p := Find(s, {'/'}, k);
    if e <= p then None else MatchPath(s, p)
  }

  /** `(/.*?)(?:$|\?(.*))` with the path's `/` at `p`: the lazy `.*?` grows until `$` or `\?` can match. */
  function MatchPath(s: string, p: nat): Option<Target>
    requires p < |s|
  {
    var q := Find(s, {'?', '\n'}, p + 1);
    if q == |s| then Some(Target(s[p..], ""))
    else if s[q] == '?' then Some(Target(s[p..q], s[q + 1..Find(s, {'\n'}, q + 1)]))
    else if q == |s| - 1 then Some(Target(s[p..q], ""))
    else None
  }

  /** The leftmost match at or after position `i`. */
  function Search(s: string, i: nat): Option<Target>
    requires i <= |s|
    decreases |s| - i
  {
    var m := MatchAt(s, i);
    if m.Some? || i == |s| then m else Search(s, i + 1)
  }

  /** What `preg_match` captures from `url`; None when there is no match. */
  function Extract(url: string): Option<Target> {
    Search(url, 0)
  }

  // ------------------------------------------------------------- lemmas

  /** A path match at a `/` yields a path that begins with `/`, holds no `?`, and no newline in either part. */
  lemma MatchPathShape(s: string, p: nat)
    requires p < |s| && s[p] == '/'
    requires MatchPath(s, p).Some?
    ensures var t := MatchPath(s, p).value;
      |t.path| > 0 && t.path[0] == '/' && '?' !in t.path && '\n' !in t.path && '\n' !in t.query
  {
    var q := Find(s, {'?', '\n'}, p + 1);
    var t := MatchPath(s, p).value;
    assert t.path == s[p..q] by {
      if q == |s| { assert s[p..] == s[p..q]; }
    }
    assert forall j :: 0 <= j < |t.path| ==> t.path[j] == s[p + j];
  }

  /** A successful attempt has the shape of `MatchPathShape`. */
  lemma MatchAtShape(s: string, i: nat)
    requires i <= |s|
    requires MatchAt(s, i).Some?
    ensures var t := MatchAt(s, i).value;
      |t.path| > 0 && t.path[0] == '/' && '?' !in t.path && '\n' !in t.path && '\n' !in t.query
  {
    var k := i + SchemeLength(s, i);
    MatchPathShape(s, Find(s, {'/'}, k));
  }

  /** Every capture the search can return has the shape of `MatchAtShape`. */
  lemma {:induction false} SearchShape(s: string, i: nat)
    requires i <= |s|
    requires Search(s, i).Some?
    ensures var t := Search(s, i).value;
      |t.path| > 0 && t.path[0] == '/' && '?' !in t.path && '\n' !in t.path && '\n' !in t.query
    decreases |s| - i
  {
    if MatchAt(s, i).Some? {
      MatchAtShape(s, i);
    } else {
      SearchShape(s, i + 1);
    }
  }

  /** The extracted path starts with `/` and contains no `?`; neither capture contains a newline. */
  lemma ExtractShape(url: string)
    requires Extract(url).Some?
    ensures var t := Extract(url).value;
      |t.path| > 0 && t.path[0] == '/' && '?' !in t.path && '\n' !in t.path && '\n' !in t.query
  {
    SearchShape(url, 0);
  }

  /** The search finds nothing when no attempt from `i` on succeeds. */
  lemma {:induction false} SearchNone(s: string, i: nat)
    requires i <= |s|
    requires forall j :: i <= j <= |s| ==> MatchAt(s, j).None?
    ensures Search(s, i).None?
    decreases |s| - i
  {
    if i < |s| {
      SearchNone(s, i + 1);
    }
  }

  /** A string that has no `http://` or `https://` anywhere does not match. */
  lemma ExtractNoScheme(url: string)
    requires forall i :: 0 <= i <= |url| ==> SchemeLength(url, i) == 0
    ensures Extract(url).None?
  {
    SearchNone(url, 0);
  }

  /** A URL with a scheme at the front but no `/` after it does not match (newlines or not). */
  lemma ExtractNoPath(url: string)
    requires SchemeLength(url, 0) > 0
    requires '/' !in url[SchemeLength(url, 0)..]
    ensures Extract(url).None?
  {
    var k := SchemeLength(url, 0);
    forall j | 0 <= j <= |url| ensures MatchAt(url, j).None? {
      var n := SchemeLength(url, j);
      if n > 0 {
        // an attempt at j >= 1 begins its `/` search at j + n >= 8 >= k
        assert k <= j + n;
      }
    }
    SearchNone(url, 0);
  }

  /** A path match at `p` whose first later `?` is at `q`, with no newline in between. */
  lemma MatchPathQuery(s: string, p: nat, q: nat)
    requires p < q < |s| && Find(s, {'?', '\n'}, p + 1) == q && s[q] == '?'
    ensures MatchPath(s, p) == Some(Target(s[p..q], s[q + 1..Find(s, {'\n'}, q + 1)]))
  {
  }

  /** A newline-free URL that begins with a scheme is matched from index 0, after the scheme. */
  lemma ExtractFromStart(url: string)
    requires SchemeLength(url, 0) > 0
    requires MatchAfterScheme(url, SchemeLength(url, 0)).Some?
    ensures Extract(url) == MatchAfterScheme(url, SchemeLength(url, 0))
  {
    assert MatchAt(url, 0) == MatchAfterScheme(url, SchemeLength(url, 0));
  }

  /**
   * For a newline-free URL that begins with a scheme: the path starts at the
   * first `/` after `://` (index `p`) and ends before the first `?` after it
   * (index `q`); the query is everything after that `?`.
   */
  lemma ExtractPathAndQuery(url: string, p: nat, q: nat)
    requires '\n' !in url
    requires SchemeLength(url, 0) > 0
    requires SchemeLength(url, 0) <= p < q < |url|
    requires url[p] == '/' && '/' !in url[SchemeLength(url, 0)..p]
    requires url[q] == '?' && '?' !in url[p..q]
    ensures Extract(url) == Some(Target(url[p..q], url[q + 1..]))
  {
    var k := SchemeLength(url, 0);
    assert forall j :: k <= j < p ==> url[j] == url[k..p][j - k];
    assert forall j :: p <= j < q ==> url[j] == url[p..q][j - p];
    FindIs(url, {'/'}, k, p);
    FindIs(url, {'\n'}, k, |url|);
    FindIs(url, {'?', '\n'}, p + 1, q);
    FindIs(url, {'\n'}, q + 1, |url|);
    MatchPathQuery(url, p, q);
    assert url[q + 1..Find(url, {'\n'}, q + 1)] == url[q + 1..];
    assert MatchAfterScheme(url, k) == MatchPath(url, p);
    ExtractFromStart(url);
  }

  /** For a newline-free URL that begins with a scheme and has no `?` after the path's `/`: the query is "". */
  lemma ExtractPathOnly(url: string, p: nat)
    requires '\n' !in url
    requires SchemeLength(url, 0) > 0
    requires SchemeLength(url, 0) <= p < |url|
    requires url[p] == '/' && '/' !in url[SchemeLength(url, 0)..p]
    requires '?' !in url[p..]
    ensures Extract(url) == Some(Target(url[p..], ""))
  {
    var k := SchemeLength(url, 0);
    assert forall j :: k <= j < p ==> url[j] == url[k..p][j - k];
    assert forall j :: p <= j < |url| ==> url[j] == url[p..][j - p];
    FindIs(url, {'/'}, k, p);
    FindIs(url, {'\n'}, k, |url|);
    FindIs(url, {'?', '\n'}, p + 1, |url|);
    assert MatchPath(url, p) == Some(Target(url[p..], ""));
    assert MatchAfterScheme(url, k) == MatchPath(url, p);
    ExtractFromStart(url);
  }

  /** A URL written as scheme, host and path, with no `/` in the host and no `?` in the path, is signed over that path. */
  lemma ExtractComposed(scheme: string, host: string, path: string)
    requires scheme == "https://" || scheme == "http://"
    requires '/' !in host && '\n' !in host
    requires |path| > 0 && path[0] == '/' && '?' !in path && '\n' !in path
    ensures Extract(scheme + host + path) == Some(Target(path, ""))
  {
    var u := scheme + host + path;
    var k, p := |scheme|, |scheme| + |host|;
    assert u[0..] == u;
    assert SchemeLength(u, 0) == k by {
      assert u[..k] == scheme;
      if scheme == "http://" {
        assert u[4] != ("https://")[4];
      }
    }
    assert u[k..p] == host;
    assert u[p..] == path;
    assert '\n' !in u by {
      assert forall j :: 0 <= j < |u| ==> u[j] == (if j < k then scheme[j] else if j < p then host[j - k] else path[j - p]);
    }
    ExtractPathOnly(u, p);
  }
}

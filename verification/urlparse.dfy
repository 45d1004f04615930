/** The part of Python's `urllib.parse.urlparse` the redirect code relies on,
    written out for URLs without a scheme and without an authority (`//host`).
    `Relative` names that class of inputs. */
module UrlParse {
  import opened Wrappers
  import Strings

  /** Components 2..5 of `urlparse`'s result: path, `;params`, query and fragment.
      Scheme and netloc are always empty for the inputs modelled here. */
  datatype Parts = Parts(path: string, params: string, query: string, fragment: string)

  /** Python's `s.find(c, from)`: the first index at or after `from` holding `c`. */
  function FindFrom(s: string, c: char, from: nat): (r: Option<nat>)
    ensures r.Some? ==> from <= r.value < |s| && s[r.value] == c
    ensures r.Some? ==> forall j :: from <= j < r.value ==> s[j] != c
    ensures r.None? ==> forall j :: from <= j < |s| ==> s[j] != c
    decreases |s| - from
  {
    if from >= |s| then None
    else if s[from] == c then Some(from)
    else FindFrom(s, c, from + 1)
  }

  /** Python's `s.rfind(c)`: the last index holding `c`. */
  function FindLast(s: string, c: char): (r: Option<nat>)
    ensures r.Some? ==> r.value < |s| && s[r.value] == c
    ensures r.Some? ==> forall j :: r.value < j < |s| ==> s[j] != c
    ensures r.None? ==> c !in s
    decreases |s|
  {
    if |s| == 0 then None
    else if s[|s| - 1] == c then Some(|s| - 1)
    else
      var r := FindLast(s[..|s| - 1], c);
      assert forall j :: 0 <= j < |s| - 1 ==> s[..|s| - 1][j] == s[j];
      r
  }

  /** Python's `s.split(c, 1)` read as a pair: text before the first `c` and text after it. */
  function SplitOnce(s: string, c: char): (r: (string, string))
    ensures c !in r.0
    ensures c in s ==> s == r.0 + [c] + r.1
    ensures c !in s ==> r == (s, "")
  {
    match FindFrom(s, c, 0)
    case None => (s, "")
    case Some(i) =>
      assert s == s[..i] + [c] + s[i + 1..];
      (s[..i], s[i + 1..])
  }

  /** `_splitparams`: the params start at the first `;` at or after the last `/`,
      or at the first `;` when there is no `/`. */
  function SplitParams(url: string): (r: (string, string))
    ensures '/' !in r.1
    ensures r.0 + r.1 == url || r.0 + [';'] + r.1 == url
  {
    if ';' !in url then (url, "")
    else
      match FindLast(url, '/')
      case Some(k) =>
        (match FindFrom(url, ';', k)
         case None => (url, "")
         case Some(i) =>
           assert url == url[..i] + [';'] + url[i + 1..];
           (url[..i], url[i + 1..]))
      case None =>
        var i := FindFrom(url, ';', 0).value;
        assert url == url[..i] + [';'] + url[i + 1..];
        (url[..i], url[i + 1..])
  }

  /** `urlparse(url)[2:6]` for a URL of the `Relative` class. The path is a prefix
      of the URL; no component but the fragment holds a `#`, neither path nor
      params a `?`, the params no `/`; and without a `#` there is no fragment. */
  function Parse(url: string): (r: Parts)
    ensures r.path <= url
    ensures '#' !in r.path && '#' !in r.params && '#' !in r.query
    ensures '?' !in r.path && '?' !in r.params
    ensures '/' !in r.params
    ensures '#' !in url ==> r.fragment == ""
  {
    var (beforeFragment, fragment) := SplitOnce(url, '#');
    var (beforeQuery, query) := SplitOnce(beforeFragment, '?');
    var (path, params) := SplitParams(beforeQuery);
    Parts(path, params, query, fragment)
  }

  /** The three components `Parse` returns are made of the URL's own characters. */
  lemma ParseAvoids(url: string, bad: set<char>)
    requires Strings.Avoids(url, bad)
    ensures Strings.Avoids(Parse(url).path, bad)
    ensures Strings.Avoids(Parse(url).params, bad)
    ensures Strings.Avoids(Parse(url).query, bad)
  {
    var (beforeFragment, fragment) := SplitOnce(url, '#');
    SplitOnceAvoids(url, '#', bad);
    var (beforeQuery, query) := SplitOnce(beforeFragment, '?');
    SplitOnceAvoids(beforeFragment, '?', bad);
    SplitParamsAvoids(beforeQuery, bad);
  }

  lemma SplitParamsAvoids(s: string, bad: set<char>)
    requires Strings.Avoids(s, bad)
    ensures Strings.Avoids(SplitParams(s).0, bad) && Strings.Avoids(SplitParams(s).1, bad)
  {
    var (path, params) := SplitParams(s);
    if path + params == s {
      ConcatAvoids(path, params, bad);
    } else {
      ConcatAvoids(path + [';'], params, bad);
      ConcatAvoids(path, [';'], bad);
    }
  }

  /** Both halves of a string avoid what the whole avoids. */
  lemma ConcatAvoids(a: string, b: string, bad: set<char>)
    requires Strings.Avoids(a + b, bad)
    ensures Strings.Avoids(a, bad) && Strings.Avoids(b, bad)
  {
    assert forall i :: 0 <= i < |a| ==> a[i] == (a + b)[i];
    assert forall i :: 0 <= i < |b| ==> b[i] == (a + b)[|a| + i];
  }

  lemma SplitOnceAvoids(s: string, c: char, bad: set<char>)
    requires Strings.Avoids(s, bad)
    ensures Strings.Avoids(SplitOnce(s, c).0, bad) && Strings.Avoids(SplitOnce(s, c).1, bad)
  {
    var (a, b) := SplitOnce(s, c);
    if c in s {
      assert forall i :: 0 <= i < |a| ==> a[i] == s[i];
      assert forall i :: 0 <= i < |b| ==> b[i] == s[|a| + 1 + i];
    }
  }

  /** Python's scheme characters: ASCII letters, digits, `+`, `-` and `.`. */
  predicate IsSchemeChar(ch: char) {
    ('a' <= ch <= 'z') || ('A' <= ch <= 'Z') || ('0' <= ch <= '9') || ch == '+' || ch == '-' || ch == '.'
  }

  /** The text before the first `:` is non-empty and made of scheme characters.
      Every release of `urlsplit` reads a scheme only in such a URL: current
      releases when its first character is a letter, older ones whatever that
      character is. A URL that is not `SchemeLike` has no scheme under either rule. */
  predicate SchemeLike(url: string) {
    match FindFrom(url, ':', 0)
    case None => false
    case Some(i) =>
      && i > 0
      && forall j :: 0 <= j < i ==> IsSchemeChar(url[j])
  }

  /** The inputs on which `Parse` agrees with `urlparse`: nothing that any release
      could read as a scheme, no `//` authority,
      no tab, CR or LF (which recent `urlsplit` deletes) and no leading control
      character or space (which it strips). */
  predicate Relative(url: string) {
    && !SchemeLike(url)
    && !(|url| >= 2 && url[0] == '/' && url[1] == '/')
    && Strings.Avoids(url, {'\t', '\r', '\n'})
    && (|url| == 0 || url[0] > ' ')
  }

  /** The reassembly at the end of `normalise_path`: `;params` and `?query` are
      appended to the path only when non-empty. The path comes first, and it is
      the whole result exactly when there is nothing to append. */
  function Unparse(path: string, params: string, query: string): (r: string)
    ensures path <= r && (|r| == |path| || r[|path|] == ';' || r[|path|] == '?')
    ensures r == path <==> params == "" && query == ""
  {
    path + (if params != "" then ";" + params else "") + (if query != "" then "?" + query else "")
  }

  /** A rooted path that does not begin with `//` and has no tab, CR or LF is relative. */
  lemma RootedIsRelative(url: string)
    requires |url| > 0 && url[0] == '/' && (|url| >= 2 ==> url[1] != '/')
    requires Strings.Avoids(url, {'\t', '\r', '\n'})
    ensures Relative(url)
  {
  }

  /** `Unparse` of a path not beginning with `//` does not begin with `//`. */
  lemma UnparseNoDoubleSlash(path: string, params: string, query: string)
    requires |path| > 0 && path[0] == '/' && (|path| < 2 || path[1] != '/')
    ensures var url := Unparse(path, params, query); url[0] == '/' && (|url| < 2 || url[1] != '/')
  {
  }

  /** `Unparse` adds no character other than `;` and `?`. */
  lemma UnparseAvoids(path: string, params: string, query: string, bad: set<char>)
    requires Strings.Avoids(path, bad) && Strings.Avoids(params, bad) && Strings.Avoids(query, bad)
    requires ';' !in bad && '?' !in bad
    ensures Strings.Avoids(Unparse(path, params, query), bad)
  {
    var ps := if params != "" then ";" + params else "";
    var qs := if query != "" then "?" + query else "";
    assert Strings.Avoids(ps, bad) && Strings.Avoids(qs, bad);
    assert Unparse(path, params, query) == path + ps + qs;
  }

  /** `Parse` reads back the pieces `Unparse` wrote, when the path has no `;`, `?` or
      `#`, the params no `/`, `?` or `#`, and the query no `#`. */
  lemma ParseUnparse(path: string, params: string, query: string)
    requires ';' !in path && '?' !in path && '#' !in path
    requires '/' !in params && '?' !in params && '#' !in params
    requires '#' !in query
    ensures Parse(Unparse(path, params, query)) == Parts(path, params, query, "")
  {
    var withParams := path + (if params != "" then ";" + params else "");
    ParamsSplit(path, params);
    QuerySplit(withParams, query);
    assert Unparse(path, params, query) == withParams + (if query != "" then "?" + query else "");
  }

  /** A `?query` suffix is split off again, with no fragment. */
  lemma QuerySplit(before: string, query: string)
    requires '?' !in before && '#' !in before && '#' !in query
    ensures var url := before + (if query != "" then "?" + query else "");
      SplitOnce(url, '#') == (url, "") && SplitOnce(url, '?') == (before, query)
  {
    var url := before + (if query != "" then "?" + query else "");
    if query != "" {
      assert url == before + ['?'] + query;
      SplitOnceFirst(before, '?', query);
    } else {
      assert url == before;
    }
    assert '#' !in url;
  }

  /** A `;params` suffix is split off again; the path is written alone without one. */
  lemma ParamsSplit(path: string, params: string)
    requires ';' !in path && '?' !in path && '#' !in path
    requires '/' !in params && '?' !in params && '#' !in params
    ensures var withParams := path + (if params != "" then ";" + params else "");
      && SplitParams(withParams) == (path, params)
      && '?' !in withParams && '#' !in withParams
  {
    var withParams := path + (if params != "" then ";" + params else "");
    if params != "" {
      SplitParamsAt(path, params);
      assert withParams == path + ";" + params;
    } else {
      assert withParams == path;
    }
  }

  /** A `?` ends the part of the URL that holds path and params. */
  lemma ParseQuery(path: string, query: string)
    requires '?' !in path && '#' !in path && '#' !in query
    ensures Parse(path + "?" + query) == Parts(SplitParams(path).0, SplitParams(path).1, query, "")
  {
    var url := path + "?" + query;
    assert '#' !in url;
    assert SplitOnce(url, '#') == (url, "");
    assert url == path + ['?'] + query;
    SplitOnceFirst(path, '?', query);
  }

  /** The first `;` of a path-and-params part without `/` after it starts the params. */
  lemma ParseParams(path: string, params: string)
    requires ';' !in path && '?' !in path && '#' !in path
    requires '/' !in params && '?' !in params && '#' !in params
    ensures Parse(path + ";" + params) == Parts(path, params, "", "")
  {
    var url := path + ";" + params;
    assert '#' !in url && '?' !in url;
    assert SplitOnce(url, '#') == (url, "");
    assert SplitOnce(url, '?') == (url, "");
    SplitParamsAt(path, params);
  }

  /** Everything after the first `#` is the fragment and nothing else. */
  lemma ParseFragment(url: string, fragment: string)
    requires '#' !in url
    ensures Parse(url + "#" + fragment) == Parse(url).(fragment := fragment)
  {
    assert url + "#" + fragment == url + ['#'] + fragment;
    SplitOnceFirst(url, '#', fragment);
    assert SplitOnce(url, '#') == (url, "");
  }

  /** Splitting at the first `c` of `a + [c] + b` when `a` has no `c`. */
  lemma SplitOnceFirst(a: string, c: char, b: string)
    requires c !in a
    ensures SplitOnce(a + [c] + b, c) == (a, b)
  {
    var s := a + [c] + b;
    assert s[|a|] == c;
    assert FindFrom(s, c, 0).Some?;
    var i := FindFrom(s, c, 0).value;
    assert i == |a|;
    assert s[..i] == a && s[i + 1..] == b;
  }

  /** The params start right after the path when the path has no `;` and the params no `/`. */
  lemma SplitParamsAt(path: string, params: string)
    requires ';' !in path && '/' !in params
    ensures SplitParams(path + ";" + params) == (path, params)
  {
    var url := path + ";" + params;
    assert url[|path|] == ';';
    assert url[..|path|] == path && url[|path| + 1..] == params;
    match FindLast(url, '/')
    case Some(k) =>
      assert k < |path|;
      var i := FindFrom(url, ';', k).value;
      assert i == |path|;
    case None =>
      var i := FindFrom(url, ';', 0).value;
      assert i == |path|;
  }
}

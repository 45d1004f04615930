/** `normalise_path` of static_redirects/utils.py: the canonical key redirect
    sources and request paths are compared on. */
module Normalise {
  import Strings
  import Ordering
  import UrlParse

  /** The path a request or source is matched on: a leading `/` forced and one
      trailing `/` removed, except that the root `/` stays. */
  function AdjustPath(p: string): (r: string)
    ensures |r| > 0 && r[0] == '/'
  {
    var rooted := if |p| > 0 && p[0] == '/' then p else "/" + p;
    if |rooted| > 1 && rooted[|rooted| - 1] == '/' then rooted[..|rooted| - 1] else rooted
  }

  /** What `AdjustPath` does to each shape of path. */
  lemma AdjustPathShape(p: string)
    ensures var r := AdjustPath(p);
      // at most a `/` added in front and at most one `/` taken off the end
      && (r == p || r == "/" + p || r + "/" == p || r + "/" == "/" + p)
      // a path that already starts, and does not end, with `/` is kept verbatim
      && (|p| > 0 && p[0] == '/' && (|p| == 1 || p[|p| - 1] != '/') ==> r == p)
      // a path without a leading `/` and not ending in `/` only gains the `/`
      && ((|p| == 0 || (p[0] != '/' && p[|p| - 1] != '/')) ==> r == "/" + p)
      // a path ending in `/`, other than the root, loses exactly that one `/`
      && (|p| > 1 && p[0] == '/' && p[|p| - 1] == '/' ==> r + "/" == p)
      && (|p| > 0 && p[0] != '/' && p[|p| - 1] == '/' ==> r + "/" == "/" + p)
  {
  }

  /** Adjusting a path adds no character other than `/`. */
  lemma AdjustPathAvoids(p: string, bad: set<char>)
    requires Strings.Avoids(p, bad) && '/' !in bad
    ensures Strings.Avoids(AdjustPath(p), bad)
  {
    var rooted := if |p| > 0 && p[0] == '/' then p else "/" + p;
    assert Strings.Avoids(rooted, bad);
  }

  /** An adjusted path begins with `//` only if the path itself does. */
  lemma AdjustPathNoDoubleSlash(p: string)
    requires !(|p| >= 2 && p[0] == '/' && p[1] == '/')
    ensures |AdjustPath(p)| < 2 || AdjustPath(p)[1] != '/'
  {
  }

  /** The `sep`-separated components of `s` sorted and joined back together:
      lines 53-55 for `;` and 58-60 for `&`. The components come back sorted, none
      lost or added, and only the empty string gives the empty string. */
  function SortedComponents(s: string, sep: char): (r: string)
    ensures Ordering.Sorted(Strings.Split(r, sep))
    ensures multiset(Strings.Split(r, sep)) == multiset(Strings.Split(s, sep))
    ensures r == "" <==> s == ""
  {
    SortedRejoin(s, sep);
    Strings.Join(Ordering.Sort(Strings.Split(s, sep)), sep)
  }

  /** The sorted components of `s`, joined, split back into themselves, and are
      empty only when `s` is. */
  lemma SortedRejoin(s: string, sep: char)
    ensures var sorted := Ordering.Sort(Strings.Split(s, sep));
      && Strings.Split(Strings.Join(sorted, sep), sep) == sorted
      && (Strings.Join(sorted, sep) == "" <==> s == "")
  {
    var pieces := Strings.Split(s, sep);
    var sorted := Ordering.Sort(pieces);
    forall i | 0 <= i < |sorted| ensures sep !in sorted[i] {
      assert sorted[i] in multiset(pieces);
    }
    Strings.SplitJoin(sorted, sep);
    assert s != "" ==> Strings.Join(sorted, sep) != "" by {
      if |pieces| == 1 {
        Ordering.SortSorted(pieces);
      }
    }
  }


  /** Reordering the components does not change the sorted form: only the
      multiset of components matters. */
  lemma SortedComponentsPermutation(s: string, t: string, sep: char)
    requires multiset(Strings.Split(s, sep)) == multiset(Strings.Split(t, sep))
    ensures SortedComponents(s, sep) == SortedComponents(t, sep)
  {
    var rs, rt := SortedComponents(s, sep), SortedComponents(t, sep);
    Ordering.SortedUnique(Strings.Split(rs, sep), Strings.Split(rt, sep));
  }

  /** Sorting components adds no character other than the separator. */
  lemma SortedComponentsAvoids(s: string, sep: char, bad: set<char>)
    requires Strings.Avoids(s, bad) && sep !in bad
    ensures Strings.Avoids(SortedComponents(s, sep), bad)
  {
    var pieces := Strings.Split(s, sep);
    var sorted := Ordering.Sort(pieces);
    Strings.SplitAvoids(s, sep, bad);
    forall i | 0 <= i < |sorted| ensures Strings.Avoids(sorted[i], bad) {
      assert sorted[i] in multiset(pieces);
    }
    Strings.JoinAvoids(sorted, sep, bad);
  }

  /** `normalise_path`: the canonical key a source or a request path is matched on. */
  function NormalisePath(url: string): (r: string)
    ensures |r| > 0 && r[0] == '/'
  {
    var parts := UrlParse.Parse(Strings.Strip(url));
    var path := AdjustPath(parts.path);
    var params := SortedComponents(parts.params, ';');
    var query := SortedComponents(parts.query, '&');
    UrlParse.Unparse(path, params, query)
  }
}

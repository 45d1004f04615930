/** What `normalise_path` promises its callers, stated over all inputs. */
module NormaliseFacts {
  import Strings
  import UrlParse
  import opened Normalise

  /** White space around a source or request path is ignored. */
  lemma IgnoresPadding(w1: string, s: string, w2: string)
    requires Strings.AllSpace(w1) && Strings.AllSpace(w2)
    ensures NormalisePath(w1 + s + w2) == NormalisePath(s)
  {
    Strings.StripPadding(w1, s, w2);
  }

  /** The output is exactly the adjusted path if and only if the input has neither
      `;params` nor a query; otherwise they follow it, params first. */
  lemma OnlyPathWithoutParamsOrQuery(s: string)
    ensures var u := UrlParse.Parse(Strings.Strip(s));
      (u.params == "" && u.query == "") <==> NormalisePath(s) == AdjustPath(u.path)
  {
    var u := UrlParse.Parse(Strings.Strip(s));
    var sp, sq := SortedComponents(u.params, ';'), SortedComponents(u.query, '&');
    assert NormalisePath(s) == UrlParse.Unparse(AdjustPath(u.path), sp, sq);
    assert |UrlParse.Unparse(AdjustPath(u.path), sp, sq)| ==
      |AdjustPath(u.path)| + (if sp != "" then 1 + |sp| else 0) + (if sq != "" then 1 + |sq| else 0);
  }

  /** The key begins with the input's path, adjusted, and whatever follows starts
      with `;` or `?`: letter case and every other character of the path are kept. */
  lemma PathComesFirst(s: string)
    ensures var a := AdjustPath(UrlParse.Parse(Strings.Strip(s)).path);
      var r := NormalisePath(s);
      a <= r && (|r| == |a| || r[|a|] == ';' || r[|a|] == '?')
  {
    var u := UrlParse.Parse(Strings.Strip(s));
    var sp, sq := SortedComponents(u.params, ';'), SortedComponents(u.query, '&');
    assert NormalisePath(s) == UrlParse.Unparse(AdjustPath(u.path), sp, sq);
  }

  /** A trimmed input made of a path alone normalises to its adjusted path. */
  lemma PlainPath(s: string)
    requires Strings.Trimmed(s)
    requires '#' !in s && '?' !in s && ';' !in s
    ensures NormalisePath(s) == AdjustPath(s)
  {
    PlainParse(s);
    PathOnlyKey(s);
  }

  /** A trimmed input made of a path alone has key `k` when its adjusted path is `k`. */
  lemma PlainKey(s: string, k: string)
    requires Strings.Trimmed(s)
    requires '#' !in s && '?' !in s && ';' !in s
    requires AdjustPath(s) == k
    ensures NormalisePath(s) == k
  {
    PlainPath(s);
  }

  /** A trimmed input made of a path alone parses as that path. */
  lemma PlainParse(s: string)
    requires Strings.Trimmed(s)
    requires '#' !in s && '?' !in s && ';' !in s
    ensures UrlParse.Parse(Strings.Strip(s)) == UrlParse.Parts(s, "", "", "")
  {
    Strings.StripTrimmed(s);
    UrlParse.ParseUnparse(s, "", "");
  }

  /** An input that parses as its own path alone has the adjusted path as key. */
  lemma PathOnlyKey(s: string)
    requires UrlParse.Parse(Strings.Strip(s)) == UrlParse.Parts(s, "", "", "")
    ensures NormalisePath(s) == AdjustPath(s)
  {
    assert SortedComponents("", ';') == "" && SortedComponents("", '&') == "";
  }

  /** Reordering the `&`-separated components of the query does not change the key. */
  lemma QueryOrderIrrelevant(path: string, qs: seq<string>, qs': seq<string>)
    requires '?' !in path && '#' !in path
    requires |qs| > 0
    requires forall i :: 0 <= i < |qs| ==> '&' !in qs[i] && '#' !in qs[i]
    requires multiset(qs) == multiset(qs')
    requires Strings.Trimmed(path + "?" + Strings.Join(qs, '&'))
    requires Strings.Trimmed(path + "?" + Strings.Join(qs', '&'))
    ensures NormalisePath(path + "?" + Strings.Join(qs, '&')) == NormalisePath(path + "?" + Strings.Join(qs', '&'))
  {
    assert |qs'| == |multiset(qs')| == |qs|;
    forall i | 0 <= i < |qs'| ensures '&' !in qs'[i] && '#' !in qs'[i] {
      assert qs'[i] in multiset(qs);
    }
    QueryPart(path, qs);
    QueryPart(path, qs');
    SortedComponentsPermutation(Strings.Join(qs, '&'), Strings.Join(qs', '&'), '&');
  }

  /** The query of `path?q1&...&qn` is read back as exactly `q1`, ..., `qn`. */
  lemma QueryPart(path: string, qs: seq<string>)
    requires '?' !in path && '#' !in path
    requires |qs| > 0
    requires forall i :: 0 <= i < |qs| ==> '&' !in qs[i] && '#' !in qs[i]
    requires Strings.Trimmed(path + "?" + Strings.Join(qs, '&'))
    ensures var u := UrlParse.Parse(Strings.Strip(path + "?" + Strings.Join(qs, '&')));
      u.path == UrlParse.SplitParams(path).0 && u.params == UrlParse.SplitParams(path).1
      && Strings.Split(u.query, '&') == qs
  {
    var q := Strings.Join(qs, '&');
    var url := path + "?" + q;
    assert Strings.Strip(url) == url by { Strings.StripTrimmed(url); }
    assert '#' !in q by { Strings.JoinLacks(qs, '&', '#'); }
    assert UrlParse.Parse(url) == UrlParse.Parts(UrlParse.SplitParams(path).0, UrlParse.SplitParams(path).1, q, "") by {
      UrlParse.ParseQuery(path, q);
    }
    assert Strings.Split(q, '&') == qs by { Strings.SplitJoin(qs, '&'); }
  }

  /** Reordering the `;`-separated params does not change the key, whether or not
      a query follows them. */
  lemma ParamOrderIrrelevant(path: string, ps: seq<string>, ps': seq<string>, q: string)
    requires ';' !in path && '?' !in path && '#' !in path
    requires |ps| > 0
    requires forall i :: 0 <= i < |ps| ==> ';' !in ps[i] && '/' !in ps[i] && '?' !in ps[i] && '#' !in ps[i]
    requires multiset(ps) == multiset(ps')
    requires '#' !in q
    requires Strings.Trimmed(path + ";" + Strings.Join(ps, ';') + (if q != "" then "?" + q else ""))
    requires Strings.Trimmed(path + ";" + Strings.Join(ps', ';') + (if q != "" then "?" + q else ""))
    ensures NormalisePath(path + ";" + Strings.Join(ps, ';') + (if q != "" then "?" + q else ""))
      == NormalisePath(path + ";" + Strings.Join(ps', ';') + (if q != "" then "?" + q else ""))
  {
    assert |ps'| == |multiset(ps')| == |ps|;
    forall i | 0 <= i < |ps'| ensures ';' !in ps'[i] && '/' !in ps'[i] && '?' !in ps'[i] && '#' !in ps'[i] {
      assert ps'[i] in multiset(ps);
    }
    ParamsPart(path, ps, q);
    ParamsPart(path, ps', q);
    SortedComponentsPermutation(Strings.Join(ps, ';'), Strings.Join(ps', ';'), ';');
  }

  /** The params of `path;p1;...;pn[?q]` are read back as exactly `p1`, ..., `pn`,
      with the path and the query unchanged. */
  lemma ParamsPart(path: string, ps: seq<string>, q: string)
    requires ';' !in path && '?' !in path && '#' !in path
    requires |ps| > 0
    requires forall i :: 0 <= i < |ps| ==> ';' !in ps[i] && '/' !in ps[i] && '?' !in ps[i] && '#' !in ps[i]
    requires '#' !in q
    requires Strings.Trimmed(path + ";" + Strings.Join(ps, ';') + (if q != "" then "?" + q else ""))
    ensures var u := UrlParse.Parse(Strings.Strip(path + ";" + Strings.Join(ps, ';') + (if q != "" then "?" + q else "")));
      u.path == path && u.query == q && Strings.Split(u.params, ';') == ps
  {
    var p := Strings.Join(ps, ';');
    var url := path + ";" + p + (if q != "" then "?" + q else "");
    assert Strings.Strip(url) == url by { Strings.StripTrimmed(url); }
    assert '/' !in p && '?' !in p && '#' !in p by {
      Strings.JoinLacks(ps, ';', '/');
      Strings.JoinLacks(ps, ';', '?');
      Strings.JoinLacks(ps, ';', '#');
    }
    ParamsQueryParse(path, p, q);
    assert Strings.Split(p, ';') == ps by { Strings.SplitJoin(ps, ';'); }
  }

  /** `path;p` followed by an optional `?q` parses as path `path`, params `p` and
      query `q`. */
  lemma ParamsQueryParse(path: string, p: string, q: string)
    requires ';' !in path && '?' !in path && '#' !in path
    requires '/' !in p && '?' !in p && '#' !in p && '#' !in q
    ensures UrlParse.Parse(path + ";" + p + (if q != "" then "?" + q else "")) == UrlParse.Parts(path, p, q, "")
  {
    var head := path + ";" + p;
    assert '?' !in head && '#' !in head;
    UrlParse.QuerySplit(head, q);
    UrlParse.SplitParamsAt(path, p);
  }

  /** The key of `path?q1&...&qn`, for a path free of `;`: the adjusted path, then
      the sorted query components. */
  lemma QueryKeyIs(path: string, qs: seq<string>, k: string)
    requires ';' !in path && '?' !in path && '#' !in path
    requires |qs| > 0
    requires forall i :: 0 <= i < |qs| ==> '&' !in qs[i] && '#' !in qs[i]
    requires Strings.Trimmed(path + "?" + Strings.Join(qs, '&'))
    requires UrlParse.Unparse(AdjustPath(path), "", Strings.Join(Ordering.Sort(qs), '&')) == k
    ensures NormalisePath(path + "?" + Strings.Join(qs, '&')) == k
  {
    QueryPart(path, qs);
    assert UrlParse.SplitParams(path) == (path, "");
  }

  /** The key of `path;p1;...;pn`: the adjusted path, then the sorted params. */
  lemma ParamsKeyIs(path: string, ps: seq<string>, k: string)
    requires ';' !in path && '?' !in path && '#' !in path
    requires |ps| > 0
    requires forall i :: 0 <= i < |ps| ==> ';' !in ps[i] && '/' !in ps[i] && '?' !in ps[i] && '#' !in ps[i]
    requires Strings.Trimmed(path + ";" + Strings.Join(ps, ';'))
    requires UrlParse.Unparse(AdjustPath(path), Strings.Join(Ordering.Sort(ps), ';'), "") == k
    ensures NormalisePath(path + ";" + Strings.Join(ps, ';')) == k
  {
    var url := path + ";" + Strings.Join(ps, ';');
    assert url + "" == url;
    ParamsPart(path, ps, "");
  }

  /** On trimmed input the fragment never reaches the key. */
  lemma FragmentIgnored(s: string, f: string)
    requires Strings.Trimmed(s) && '#' !in s
    ensures NormalisePath(s + "#" + f) == NormalisePath(s)
  {
    var a := s + "#";
    assert !Strings.IsSpace(a[0]) by {
      if |s| > 0 { assert a[0] == s[0]; }
    }
    assert a[|a| - 1] == '#';
    Strings.StripTail(a, f);
    var f' :| Strings.Strip(a + f) == a + f';
    assert s + "#" + f == a + f && a + f' == s + "#" + f';
    Strings.StripTrimmed(s);
    UrlParse.ParseFragment(s, f');
  }

  /** One trailing `/` is removed. */
  lemma TrailingSlashRemoved()
    ensures NormalisePath("/a/") == "/a"
  {
    PlainKey("/a/", "/a");
  }

  /** The root is kept as it is. */
  lemma RootKept()
    ensures NormalisePath("/") == "/"
  {
    PlainKey("/", "/");
  }

  /** The empty string becomes the root. */
  lemma EmptyIsRoot()
    ensures NormalisePath("") == "/"
  {
    PlainKey("", "/");
  }

  /** Only one of several trailing `/` goes per pass. */
  lemma OneSlashPerPass()
    ensures NormalisePath("/a//") == "/a/"
  {
    PlainKey("/a//", "/a/");
  }

  /** A missing leading `/` is added. */
  lemma LeadingSlashAdded()
    ensures NormalisePath("a/b") == "/a/b"
  {
    PlainKey("a/b", "/a/b");
  }

  /** A path and the same path with a trailing `/` are the same key. */
  lemma {:induction false} TrailingSlashCollides(p: string)
    requires |p| > 0 && p[0] == '/' && p[|p| - 1] != '/'
    requires Strings.Trimmed(p) && '#' !in p && '?' !in p && ';' !in p
    ensures NormalisePath(p + "/") == NormalisePath(p) == p
  {
    var q := p + "/";
    assert q[0] == '/' && q[|q| - 1] == '/';
    PlainPath(p);
    PlainPath(q);
    assert AdjustPath(q) + "/" == q;
  }

  /** Normalising twice can differ from normalising once: only one trailing `/` goes
      per pass. */
  lemma NotIdempotent()
    ensures NormalisePath(NormalisePath("/a//")) != NormalisePath("/a//")
  {
    OneSlashPerPass();
    TrailingSlashRemoved();
  }

  /** Reordering the query components of an input that is not trimmed can change
      its key: in `/a?x& ` the trailing space is stripped, leaving the components
      `x` and the empty string, while `/a? &x` keeps ` ` and `x`. */
  lemma QueryOrderNeedsTrim()
    ensures NormalisePath("/a?" + Strings.Join(["x", " "], '&')) != NormalisePath("/a?" + Strings.Join([" ", "x"], '&'))
  {
    UntrimmedQueryKey();
    TrimmedQueryKey();
    DifferentKeys("/a?" + Strings.Join(["x", " "], '&'), "/a?" + Strings.Join([" ", "x"], '&'), "/a?&x", "/a? &x");
  }

  /** The fragment can change the key of an input that is not trimmed: white
      space before `#` is inside the string that is stripped, so `/a #f` keeps it
      and normalises to `/a `, while `/a ` loses it and normalises to `/a`. */
  lemma FragmentNeedsTrim()
    ensures NormalisePath("/a " + "#" + "f") != NormalisePath("/a ")
  {
    FragmentedKey();
    PaddedPathKey();
    DifferentKeys("/a " + "#" + "f", "/a ", "/a ", "/a");
  }

  /** `/a #f` normalises to `/a `. */
  lemma FragmentedKey()
    ensures NormalisePath("/a " + "#" + "f") == "/a "
  {
    FragmentedFacts();
    FragmentKey("/a ", "f", "/a ");
  }

  lemma FragmentedFacts()
    ensures Strings.Trimmed("/a " + "#" + "f")
    ensures AdjustPath("/a ") == "/a "
  {
  }

  /** `/a ` normalises to `/a`. */
  lemma PaddedPathKey()
    ensures NormalisePath("/a ") == "/a"
  {
    PaddedPathFacts();
    PlainKey("/a", "/a");
    PaddedKey("/a ", "/a", " ", "/a");
  }

  lemma PaddedPathFacts()
    ensures "/a " == "/a" + " " && Strings.AllSpace(" ")
    ensures Strings.Trimmed("/a") && AdjustPath("/a") == "/a"
  {
  }

  /** A path followed by a fragment, trimmed as a whole, has the adjusted path as
      key, whatever white space the path ends with. */
  lemma FragmentKey(s: string, f: string, k: string)
    requires '#' !in s && '?' !in s && ';' !in s
    requires Strings.Trimmed(s + "#" + f)
    requires AdjustPath(s) == k
    ensures NormalisePath(s + "#" + f) == k
  {
    Strings.StripTrimmed(s + "#" + f);
    UrlParse.ParseFragment(s, f);
    UrlParse.ParseUnparse(s, "", "");
    assert UrlParse.Unparse(s, "", "") == s;
    assert SortedComponents("", ';') == "" && SortedComponents("", '&') == "";
  }

  /** `/a?x& ` normalises to `/a?&x`: the trailing space is stripped first. */
  lemma UntrimmedQueryKey()
    ensures NormalisePath("/a?" + Strings.Join(["x", " "], '&')) == "/a?&x"
  {
    UntrimmedQuerySplit();
    StrippedQueryKey();
    PaddedKey("/a?" + Strings.Join(["x", " "], '&'), "/a" + "?" + Strings.Join(["x", ""], '&'), " ", "/a?&x");
  }

  lemma UntrimmedQuerySplit()
    ensures "/a?" + Strings.Join(["x", " "], '&') == "/a" + "?" + Strings.Join(["x", ""], '&') + " "
    ensures Strings.AllSpace(" ")
  {
    assert Strings.Join(["x", " "], '&') == "x& " && Strings.Join(["x", ""], '&') == "x&";
  }

  /** `/a?x&` normalises to `/a?&x`. */
  lemma StrippedQueryKey()
    ensures NormalisePath("/a" + "?" + Strings.Join(["x", ""], '&')) == "/a?&x"
  {
    StrippedQueryComponents();
    StrippedQueryTrimmed();
    StrippedQuerySorted();
    QueryKeyIs("/a", ["x", ""], "/a?&x");
  }

  lemma StrippedQueryComponents()
    ensures forall i :: 0 <= i < |["x", ""]| ==> '&' !in ["x", ""][i] && '#' !in ["x", ""][i]
  {
  }

  lemma StrippedQueryTrimmed()
    ensures Strings.Trimmed("/a" + "?" + Strings.Join(["x", ""], '&'))
  {
    assert Strings.Join(["x", ""], '&') == "x&";
  }

  lemma StrippedQuerySorted()
    ensures UrlParse.Unparse(AdjustPath("/a"), "", Strings.Join(Ordering.Sort(["x", ""]), '&')) == "/a?&x"
  {
    SortTwo();
  }

  /** `/a? &x` is its own key. */
  lemma TrimmedQueryKey()
    ensures NormalisePath("/a?" + Strings.Join([" ", "x"], '&')) == "/a? &x"
  {
    TrimmedQuerySplit();
    SpacedQueryKey();
  }

  lemma TrimmedQuerySplit()
    ensures "/a?" + Strings.Join([" ", "x"], '&') == "/a" + "?" + Strings.Join([" ", "x"], '&')
  {
  }

  /** `/a? &x` is its own key. */
  lemma SpacedQueryKey()
    ensures NormalisePath("/a" + "?" + Strings.Join([" ", "x"], '&')) == "/a? &x"
  {
    SpacedQueryComponents();
    SpacedQueryTrimmed();
    SpacedQuerySorted();
    QueryKeyIs("/a", [" ", "x"], "/a? &x");
  }

  lemma SpacedQueryComponents()
    ensures forall i :: 0 <= i < |[" ", "x"]| ==> '&' !in [" ", "x"][i] && '#' !in [" ", "x"][i]
  {
  }

  lemma SpacedQueryTrimmed()
    ensures Strings.Trimmed("/a" + "?" + Strings.Join([" ", "x"], '&'))
  {
    assert Strings.Join([" ", "x"], '&') == " &x";
  }

  lemma SpacedQuerySorted()
    ensures UrlParse.Unparse(AdjustPath("/a"), "", Strings.Join(Ordering.Sort([" ", "x"]), '&')) == "/a? &x"
  {
    SortTwo();
  }

  /** Reordering the params of an input that is not trimmed can change its key:
      `/a;x; ` and `/a; ;x` normalise to `/a;;x` and `/a; ;x`. */
  lemma ParamOrderNeedsTrim()
    ensures NormalisePath("/a;" + Strings.Join(["x", " "], ';')) != NormalisePath("/a;" + Strings.Join([" ", "x"], ';'))
  {
    UntrimmedParamsKey();
    TrimmedParamsKey();
    DifferentKeys("/a;" + Strings.Join(["x", " "], ';'), "/a;" + Strings.Join([" ", "x"], ';'), "/a;;x", "/a; ;x");
  }

  /** `/a;x; ` normalises to `/a;;x`: the trailing space is stripped first. */
  lemma UntrimmedParamsKey()
    ensures NormalisePath("/a;" + Strings.Join(["x", " "], ';')) == "/a;;x"
  {
    UntrimmedParamsSplit();
    StrippedParamsKey();
    PaddedKey("/a;" + Strings.Join(["x", " "], ';'), "/a" + ";" + Strings.Join(["x", ""], ';'), " ", "/a;;x");
  }

  lemma UntrimmedParamsSplit()
    ensures "/a;" + Strings.Join(["x", " "], ';') == "/a" + ";" + Strings.Join(["x", ""], ';') + " "
    ensures Strings.AllSpace(" ")
  {
    assert Strings.Join(["x", " "], ';') == "x; " && Strings.Join(["x", ""], ';') == "x;";
  }

  /** `/a;x;` normalises to `/a;;x`. */
  lemma StrippedParamsKey()
    ensures NormalisePath("/a" + ";" + Strings.Join(["x", ""], ';')) == "/a;;x"
  {
    StrippedParamsComponents();
    StrippedParamsTrimmed();
    StrippedParamsSorted();
    ParamsKeyIs("/a", ["x", ""], "/a;;x");
  }

  lemma StrippedParamsComponents()
    ensures forall i :: 0 <= i < |["x", ""]| ==> ';' !in ["x", ""][i] && '/' !in ["x", ""][i] && '?' !in ["x", ""][i] && '#' !in ["x", ""][i]
  {
  }

  lemma StrippedParamsTrimmed()
    ensures Strings.Trimmed("/a" + ";" + Strings.Join(["x", ""], ';'))
  {
    assert Strings.Join(["x", ""], ';') == "x;";
  }

  lemma StrippedParamsSorted()
    ensures UrlParse.Unparse(AdjustPath("/a"), Strings.Join(Ordering.Sort(["x", ""]), ';'), "") == "/a;;x"
  {
    SortTwo();
  }

  /** `/a; ;x` is its own key. */
  lemma TrimmedParamsKey()
    ensures NormalisePath("/a;" + Strings.Join([" ", "x"], ';')) == "/a; ;x"
  {
    TrimmedParamsSplit();
    SpacedParamsKey();
  }

  lemma TrimmedParamsSplit()
    ensures "/a;" + Strings.Join([" ", "x"], ';') == "/a" + ";" + Strings.Join([" ", "x"], ';')
  {
  }

  /** `/a; ;x` is its own key. */
  lemma SpacedParamsKey()
    ensures NormalisePath("/a" + ";" + Strings.Join([" ", "x"], ';')) == "/a; ;x"
  {
    SpacedParamsComponents();
    SpacedParamsTrimmed();
    SpacedParamsSorted();
    ParamsKeyIs("/a", [" ", "x"], "/a; ;x");
  }

  lemma SpacedParamsComponents()
    ensures forall i :: 0 <= i < |[" ", "x"]| ==> ';' !in [" ", "x"][i] && '/' !in [" ", "x"][i] && '?' !in [" ", "x"][i] && '#' !in [" ", "x"][i]
  {
  }

  lemma SpacedParamsTrimmed()
    ensures Strings.Trimmed("/a" + ";" + Strings.Join([" ", "x"], ';'))
  {
    assert Strings.Join([" ", "x"], ';') == " ;x";
  }

  lemma SpacedParamsSorted()
    ensures UrlParse.Unparse(AdjustPath("/a"), Strings.Join(Ordering.Sort([" ", "x"]), ';'), "") == "/a; ;x"
  {
    SortTwo();
  }

  /** White space after an input does not change its key. Stated for any inputs,
      so the solver need not unfold `NormalisePath` on literals. */
  lemma PaddedKey(u: string, s: string, w: string, k: string)
    requires u == s + w && Strings.AllSpace(w) && NormalisePath(s) == k
    ensures NormalisePath(u) == k
  {
    assert "" + s == s;
    IgnoresPadding("", s, w);
  }

  /** The two orders of `x` and the empty string sort alike, and ` ` comes before `x`. */
  lemma SortTwo()
    ensures Ordering.Sort(["x", ""]) == ["", "x"]
    ensures Ordering.Sort([" ", "x"]) == [" ", "x"]
  {
    assert Ordering.Below(" ", "x");
    assert Ordering.Sorted(["", "x"]) && Ordering.Sorted([" ", "x"]);
    assert multiset(["x", ""]) == multiset(["", "x"]);
    Ordering.SortPermutationInvariant(["x", ""], ["", "x"]);
    Ordering.SortSorted(["", "x"]);
    Ordering.SortSorted([" ", "x"]);
  }

  /** Inputs with known, different keys have different keys. Stated for any
      inputs, so the solver need not unfold `NormalisePath` on literals. */
  lemma DifferentKeys(x: string, y: string, kx: string, ky: string)
    requires NormalisePath(x) == kx && NormalisePath(y) == ky && kx != ky
    ensures NormalisePath(x) != NormalisePath(y)
  {
  }

  /** A capitalised path is kept verbatim. */
  lemma UpperKept()
    ensures NormalisePath("/Hello") == "/Hello"
  {
    PlainKey("/Hello", "/Hello");
  }

  /** A lower-case path is kept verbatim. */
  lemma LowerKept()
    ensures NormalisePath("/hello") == "/hello"
  {
    PlainKey("/hello", "/hello");
  }

  /** Letter case is kept: keys differing only in case are different keys. */
  lemma CaseKept()
    ensures NormalisePath("/Hello") != NormalisePath("/hello")
  {
    UpperKept();
    LowerKept();
    DifferentKeys("/Hello", "/hello", "/Hello", "/hello");
  }

  /** Non-ASCII characters are kept as they are, neither escaped nor decoded. */
  lemma NonAsciiKept()
    ensures NormalisePath("/t\U{00E9}sting") == "/t\U{00E9}sting"
  {
    PlainKey("/t\U{00E9}sting", "/t\U{00E9}sting");
  }

  /** Parsing a key again yields the adjusted path of the input, provided the
      input's path has no `;` of its own. */
  lemma ReparsedKey(s: string)
    requires ';' !in UrlParse.Parse(Strings.Strip(s)).path
    ensures UrlParse.Parse(NormalisePath(s)).path == AdjustPath(UrlParse.Parse(Strings.Strip(s)).path)
  {
    var u := UrlParse.Parse(Strings.Strip(s));
    ReparseParts(u.path, u.params, u.query);
  }

  /** `Unparse` of an adjusted path and sorted components parses back to that path. */
  lemma ReparseParts(p: string, params: string, query: string)
    requires ';' !in p && '?' !in p && '#' !in p
    requires '/' !in params && '?' !in params && '#' !in params
    requires '#' !in query
    ensures UrlParse.Parse(UrlParse.Unparse(AdjustPath(p), SortedComponents(params, ';'), SortedComponents(query, '&'))).path == AdjustPath(p)
  {
    AdjustedPathLacks(p);
    SortedParamsLack(params);
    SortedQueryLacks(query);
    UrlParse.ParseUnparse(AdjustPath(p), SortedComponents(params, ';'), SortedComponents(query, '&'));
  }

  lemma AdjustedPathLacks(p: string)
    requires ';' !in p && '?' !in p && '#' !in p
    ensures var a := AdjustPath(p); ';' !in a && '?' !in a && '#' !in a
  {
    assert Strings.Avoids(p, {';', '?', '#'});
    AdjustPathAvoids(p, {';', '?', '#'});
  }

  lemma SortedParamsLack(params: string)
    requires '/' !in params && '?' !in params && '#' !in params
    ensures var sp := SortedComponents(params, ';'); '/' !in sp && '?' !in sp && '#' !in sp
  {
    assert Strings.Avoids(params, {'/', '?', '#'});
    SortedComponentsAvoids(params, ';', {'/', '?', '#'});
  }

  lemma SortedQueryLacks(query: string)
    requires '#' !in query
    ensures '#' !in SortedComponents(query, '&')
  {
    assert Strings.Avoids(query, {'#'});
    SortedComponentsAvoids(query, '&', {'#'});
  }

  /** Keys stay inside the class of inputs the parser models, so re-parsing a key,
      as the resolver does, is modelled faithfully too. */
  lemma KeepsRelative(s: string)
    requires UrlParse.Relative(Strings.Strip(s))
    ensures UrlParse.Relative(NormalisePath(s))
  {
    KeyShape(s);
    UrlParse.RootedIsRelative(NormalisePath(s));
  }

  /** A key does not begin with `//` unless the stripped input does, and has no tab,
      CR or LF unless the stripped input has. */
  lemma KeyShape(s: string)
    requires var t := Strings.Strip(s); !(|t| >= 2 && t[0] == '/' && t[1] == '/')
    requires Strings.Avoids(Strings.Strip(s), {'\t', '\r', '\n'})
    ensures var r := NormalisePath(s); |r| >= 2 ==> r[1] != '/'
    ensures Strings.Avoids(NormalisePath(s), {'\t', '\r', '\n'})
  {
    KeyAvoids(s, {'\t', '\r', '\n'});
    KeySecondChar(s);
  }

  /** A key has no character the stripped input lacks, other than `/`, `;`, `&` and `?`. */
  lemma KeyAvoids(s: string, bad: set<char>)
    requires Strings.Avoids(Strings.Strip(s), bad)
    requires '/' !in bad && ';' !in bad && '&' !in bad && '?' !in bad
    ensures Strings.Avoids(NormalisePath(s), bad)
  {
    var t := Strings.Strip(s);
    var u := UrlParse.Parse(t);
    var a := AdjustPath(u.path);
    var sp, sq := SortedComponents(u.params, ';'), SortedComponents(u.query, '&');
    assert NormalisePath(s) == UrlParse.Unparse(a, sp, sq);
    UrlParse.ParseAvoids(t, bad);
    SortedComponentsAvoids(u.params, ';', bad);
    SortedComponentsAvoids(u.query, '&', bad);
    AdjustPathAvoids(u.path, bad);
    UrlParse.UnparseAvoids(a, sp, sq, bad);
  }

  /** A key begins with `//` only if the stripped input does. */
  lemma KeySecondChar(s: string)
    requires var t := Strings.Strip(s); !(|t| >= 2 && t[0] == '/' && t[1] == '/')
    ensures var r := NormalisePath(s); |r| >= 2 ==> r[1] != '/'
  {
    var t := Strings.Strip(s);
    var u := UrlParse.Parse(t);
    var a := AdjustPath(u.path);
    var sp, sq := SortedComponents(u.params, ';'), SortedComponents(u.query, '&');
    assert |a| < 2 || a[1] != '/' by {
      assert !(|u.path| >= 2 && u.path[0] == '/' && u.path[1] == '/') by {
        if |u.path| >= 2 {
          assert u.path[0] == t[0] && u.path[1] == t[1];
        }
      }
      AdjustPathNoDoubleSlash(u.path);
    }
    UrlParse.UnparseNoDoubleSlash(a, sp, sq);
  }
}

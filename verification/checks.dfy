/** static_redirects/checks.py: the system check that warns when two redirects
    share a source once sources are normalised. */
module Checks {
  import opened Wrappers
  import opened Entries
  import Ordering
  import Strings
  import Normalise
  import NormaliseFacts

  const Message := "Static redirect sources must be unique"
  const Id := "static_redirects.W001"

  /** A Django system-check warning. `duplicates` is the list that the hint renders
      after "Some redirect sources are duplicated: ". */
  datatype Warning = Warning(message: string, duplicates: seq<string>, id: string)

  /** `x` occurs at two different positions of `s`. */
  predicate Twice(s: seq<string>, x: string) {
    exists i, j :: 0 <= i < j < |s| && s[i] == x && s[j] == x
  }

  /** Occurring more than once is occurring at two positions. */
  lemma {:induction false} CountTwice(s: seq<string>, x: string)
    ensures multiset(s)[x] > 1 <==> Twice(s, x)
    decreases |s|
  {
    if |s| > 0 {
      var init, last := s[..|s| - 1], s[|s| - 1];
      assert s == init + [last];
      assert multiset(s)[x] == multiset(init)[x] + (if last == x then 1 else 0);
      CountTwice(init, x);
      if Twice(init, x) {
        var i, j :| 0 <= i < j < |init| && init[i] == x && init[j] == x;
        assert s[i] == x && s[j] == x;
      }
      if Twice(s, x) {
        var i, j :| 0 <= i < j < |s| && s[i] == x && s[j] == x;
        assert init[i] == x;
        if j < |s| - 1 {
          assert init[j] == x;
        }
      }
      if last == x && x in init {
        var i :| 0 <= i < |init| && init[i] == x;
        assert s[i] == x && s[|s| - 1] == x;
      }
    }
  }

  /** The keys of `Counter(s)`: every element of `s` once, in order of first
      occurrence. */
  function Distinct(s: seq<string>): (r: seq<string>)
    ensures forall x :: multiset(r)[x] == (if x in s then 1 else 0)
    decreases |s|
  {
    if |s| == 0 then []
    else
      var init, last := s[..|s| - 1], s[|s| - 1];
      var d := Distinct(init);
      assert s == init + [last];
      assert forall x :: x in s <==> x in init || x == last;
      if last in d then d else d + [last]
  }

  /** The elements of `d` that occur more than once in `s`, in the order of `d`. */
  function Repeated(d: seq<string>, s: seq<string>): (r: seq<string>)
    ensures forall x :: multiset(r)[x] == (if multiset(s)[x] > 1 then multiset(d)[x] else 0)
    decreases |d|
  {
    if |d| == 0 then []
    else
      var rest := Repeated(d[1..], s);
      assert d == [d[0]] + d[1..];
      if multiset(s)[d[0]] > 1 then [d[0]] + rest else rest
  }

  /** `sorted(k for k, v in Counter(s).items() if v > 1)`: every repeated element
      once, in ascending order. */
  function DuplicateSources(s: seq<string>): (r: seq<string>)
    ensures Ordering.Sorted(r)
    ensures forall x :: multiset(r)[x] == (if multiset(s)[x] > 1 then 1 else 0)
  {
    var repeated := Repeated(Distinct(s), s);
    var r := Ordering.Sort(repeated);
    assert forall x :: multiset(s)[x] > 1 ==> x in s;
    r
  }

  /** The sources of the redirects, in order. */
  function SourceList(rs: seq<Redirect>): (r: seq<string>)
    ensures |r| == |rs| && forall i :: 0 <= i < |rs| ==> r[i] == rs[i].source
  {
    seq(|rs|, i requires 0 <= i < |rs| => rs[i].source)
  }

  /** The body of `duplicate_redirects_check` once the redirects are read: one
      warning naming the duplicated sources, or none. */
  function Warnings(rs: seq<Redirect>): (ws: seq<Warning>)
    ensures |ws| <= 1
    ensures |ws| == 1 ==> ws[0].message == Message && ws[0].id == Id
  {
    var duplicates := DuplicateSources(SourceList(rs));
    if |duplicates| > 0 then [Warning(Message, duplicates, Id)] else []
  }

  /** `duplicate_redirects_check`: the warnings for the redirects of all files, or
      the error of the first entry that cannot be converted, which escapes the
      check. */
  function DuplicateRedirectsCheck(entries: seq<RawEntry>): (r: Result<seq<Warning>, EntryError>)
    ensures r.Success? <==> forall i :: 0 <= i < |entries| ==> ToRedirect(entries[i]).Success?
    ensures r.Success? ==> r.value == Warnings(GetRedirects(entries).value)
  {
    match GetRedirects(entries)
    case Failure(err) => Failure(err)
    case Success(rs) => Success(Warnings(rs))
  }

  /** The check warns exactly when two redirects have the same source, and its
      warning names each such source once, in ascending order. */
  lemma {:induction false} WarningNamesDuplicates(rs: seq<Redirect>)
    ensures var ws := Warnings(rs);
      && (|ws| == 0 <==> forall x :: !Twice(SourceList(rs), x))
      && (|ws| == 1 ==> Ordering.Sorted(ws[0].duplicates))
      && (|ws| == 1 ==> forall x :: multiset(ws[0].duplicates)[x] == (if Twice(SourceList(rs), x) then 1 else 0))
  {
    var sources := SourceList(rs);
    var duplicates := DuplicateSources(sources);
    forall x ensures multiset(duplicates)[x] == (if Twice(sources, x) then 1 else 0) {
      CountTwice(sources, x);
    }
    if |duplicates| > 0 {
      assert multiset(duplicates)[duplicates[0]] > 0;
    } else {
      forall x ensures !Twice(sources, x) {
        assert multiset(duplicates)[x] == 0;
      }
    }
  }

  /** No two redirects share a source exactly when there is no warning. */
  lemma {:induction false} UniqueSourcesNoWarning(rs: seq<Redirect>)
    ensures Warnings(rs) == [] <==> forall i, j :: 0 <= i < j < |rs| ==> rs[i].source != rs[j].source
  {
    var sources := SourceList(rs);
    assert Warnings(rs) == [] <==> forall x :: !Twice(sources, x) by {
      WarningNamesDuplicates(rs);
    }
    NoTwiceDistinct(sources);
  }

  /** No element occurs twice exactly when the elements at different positions
      differ. */
  lemma NoTwiceDistinct(s: seq<string>)
    ensures (forall x :: !Twice(s, x)) <==> forall i, j :: 0 <= i < j < |s| ==> s[i] != s[j]
  {
    if exists i, j :: 0 <= i < j < |s| && s[i] == s[j] {
      var i, j :| 0 <= i < j < |s| && s[i] == s[j];
      assert Twice(s, s[i]);
    }
  }

  /** A source configured both with and without a trailing `/` is reported as a
      duplicate, under its normalised form. */
  lemma {:induction false} TrailingSlashDuplicate(p: string, d1: string, d2: string)
    requires |p| > 0 && p[0] == '/' && p[|p| - 1] != '/'
    requires Strings.Trimmed(p) && '#' !in p && '?' !in p && ';' !in p
    ensures DuplicateRedirectsCheck([CsvRow([p + "/", d1]), CsvRow([p, d2])]) == Success([Warning(Message, [p], Id)])
  {
    var rs := [Redirect(p, d1, false), Redirect(p, d2, false)];
    SlashVariantRedirects(p, d1, d2);
    SameSourceTwice(rs[0], rs[1]);
  }

  /** Both rows of a source with and without its trailing `/` read as redirects
      from the same key. */
  lemma SlashVariantRedirects(p: string, d1: string, d2: string)
    requires |p| > 0 && p[0] == '/' && p[|p| - 1] != '/'
    requires Strings.Trimmed(p) && '#' !in p && '?' !in p && ';' !in p
    ensures GetRedirects([CsvRow([p + "/", d1]), CsvRow([p, d2])]) == Success([Redirect(p, d1, false), Redirect(p, d2, false)])
  {
    var entries := [CsvRow([p + "/", d1]), CsvRow([p, d2])];
    var rs := [Redirect(p, d1, false), Redirect(p, d2, false)];
    NormaliseFacts.TrailingSlashCollides(p);
    PlainRow(p + "/", d1, p);
    PlainRow(p, d2, p);
    TwoRows(entries[0], entries[1], rs[0], rs[1]);
  }

  /** Two entries that convert give the two redirects, in order. */
  lemma TwoRows(e0: RawEntry, e1: RawEntry, r0: Redirect, r1: Redirect)
    requires ToRedirect(e0) == Success(r0) && ToRedirect(e1) == Success(r1)
    ensures GetRedirects([e0, e1]) == Success([r0, r1])
  {
    ConvertPair(e0, e1, r0, r1, ToRedirect);
  }

  /** A two-column row reads as a temporary redirect from its source's key. */
  lemma PlainRow(source: string, destination: string, key: string)
    requires Normalise.NormalisePath(source) == key
    ensures ToRedirect(CsvRow([source, destination])) == Success(Redirect(key, destination, false))
  {
  }

  /** Two redirects with the same source give one warning naming that source. */
  lemma SameSourceTwice(a: Redirect, b: Redirect)
    requires a.source == b.source
    ensures Warnings([a, b]) == [Warning(Message, [a.source], Id)]
  {
    assert SourceList([a, b]) == [a.source, a.source];
    PairDuplicates(a.source);
  }

  /** A list of one element twice has that element as its only duplicate. */
  lemma PairDuplicates(p: string)
    ensures DuplicateSources([p, p]) == [p]
  {
    var duplicates := DuplicateSources([p, p]);
    assert multiset([p, p])[p] == 2;
    assert forall x :: x != p ==> multiset([p, p])[x] == 0;
    assert multiset(duplicates) == multiset{p};
    OneElement(duplicates, p);
  }

  /** The only sequence with the multiset `{x}` is `[x]`. */
  lemma OneElement(s: seq<string>, x: string)
    requires multiset(s) == multiset{x}
    ensures s == [x]
  {
    assert |s| == |multiset(s)| == 1;
    assert s[0] in multiset(s);
  }

}

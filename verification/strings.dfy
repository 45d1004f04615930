/** String helpers with Python's semantics: `str.strip`, `str.split`, `str.join`, `str.lower`. */
module Strings {

  /** The characters Python's `str.isspace` accepts, which `str.strip()` removes. */
  predicate IsSpace(ch: char) {
    || ('\U{0009}' <= ch <= '\U{000D}')
    || ('\U{001C}' <= ch <= '\U{0020}')
    || ch == '\U{0085}' || ch == '\U{00A0}' || ch == '\U{1680}'
    || ('\U{2000}' <= ch <= '\U{200A}')
    || ch == '\U{2028}' || ch == '\U{2029}' || ch == '\U{202F}'
    || ch == '\U{205F}' || ch == '\U{3000}'
  }

  predicate AllSpace(s: string) {
    forall i :: 0 <= i < |s| ==> IsSpace(s[i])
  }

  /** No character of `s` is one of `bad`. */
  predicate Avoids(s: string, bad: set<char>) {
    forall i :: 0 <= i < |s| ==> s[i] !in bad
  }

  /** `s` neither begins nor ends with white space. */
  predicate Trimmed(s: string) {
    |s| == 0 || (!IsSpace(s[0]) && !IsSpace(s[|s| - 1]))
  }

  /** The index of the first character at or after `i` that is not white space,
      or `|s|` when there is none. */
  function SkipSpace(s: string, i: nat): (r: nat)
    requires i <= |s|
    ensures i <= r <= |s|
    ensures forall k :: i <= k < r ==> IsSpace(s[k])
    ensures r < |s| ==> !IsSpace(s[r])
    decreases |s| - i
  {
    if i < |s| && IsSpace(s[i]) then SkipSpace(s, i + 1) else i
  }

  /** The index just past the last character before `j`, at or after `lo`, that is
      not white space, or `lo` when there is none. */
  function SkipSpaceBack(s: string, lo: nat, j: nat): (r: nat)
    requires lo <= j <= |s|
    ensures lo <= r <= j
    ensures forall k :: r <= k < j ==> IsSpace(s[k])
    ensures r > lo ==> !IsSpace(s[r - 1])
    decreases j
  {
    if j > lo && IsSpace(s[j - 1]) then SkipSpaceBack(s, lo, j - 1) else j
  }

  /** Python's `s.strip()`: white space removed from both ends. */
  function Strip(s: string): (r: string)
    ensures Trimmed(r)
  {
    var start := SkipSpace(s, 0);
    s[start..SkipSpaceBack(s, start, |s|)]
  }

  /** What `Strip` keeps is trimmed, and what it removes on either side is white
      space. */
  lemma StripShape(s: string)
    ensures Trimmed(Strip(s))
    ensures exists pre, post :: AllSpace(pre) && AllSpace(post) && s == pre + Strip(s) + post
  {
    StripSides(s);
    var start := SkipSpace(s, 0);
    var end := SkipSpaceBack(s, start, |s|);
    assert AllSpace(s[..start]) && AllSpace(s[end..]) && s == s[..start] + Strip(s) + s[end..];
  }

  lemma StripSides(s: string)
    ensures var start := SkipSpace(s, 0);
      var end := SkipSpaceBack(s, start, |s|);
      AllSpace(s[..start]) && AllSpace(s[end..]) && s == s[..start] + Strip(s) + s[end..]
  {
    var start := SkipSpace(s, 0);
    Slices(s, start, SkipSpaceBack(s, start, |s|));
  }

  lemma Slices(s: string, i: int, j: int)
    requires 0 <= i <= j <= |s|
    ensures s == s[..i] + s[i..j] + s[j..]
  {
    assert s[..j] == s[..i] + s[i..j];
    assert s == s[..j] + s[j..];
  }

  /** `Strip` is determined by its shape: a trimmed middle between two runs of
      white space is what stripping keeps. */
  lemma StripUnique(s: string, pre: string, r: string, post: string)
    requires s == pre + r + post
    requires AllSpace(pre) && AllSpace(post) && Trimmed(r)
    ensures Strip(s) == r
  {
    var start := SkipSpace(s, 0);
    if |r| == 0 {
      assert AllSpace(s) by {
        forall k | 0 <= k < |s| ensures IsSpace(s[k]) {
          if k < |pre| { assert s[k] == pre[k]; } else { assert s[k] == post[k - |pre|]; }
        }
      }
      assert start == |s|;
    } else {
      assert s[|pre|] == r[0];
      assert start == |pre|;
      var end := SkipSpaceBack(s, start, |s|);
      assert s[|pre| + |r| - 1] == r[|r| - 1];
      assert end == |pre| + |r|;
      assert s[start..end] == r;
    }
  }

  /** Python's `(w1 + s + w2).strip() == s.strip()` for white-space padding `w1`, `w2`. */
  lemma StripPadding(w1: string, s: string, w2: string)
    requires AllSpace(w1) && AllSpace(w2)
    ensures Strip(w1 + s + w2) == Strip(s)
  {
    StripShape(s);
    var pre, post :| AllSpace(pre) && AllSpace(post) && s == pre + Strip(s) + post;
    assert AllSpace(w1 + pre) && AllSpace(post + w2);
    Regroup(w1, pre, Strip(s), post, w2);
    StripUnique(w1 + s + w2, w1 + pre, Strip(s), post + w2);
  }

  lemma Regroup(a: string, b: string, c: string, d: string, e: string)
    ensures a + (b + c + d) + e == (a + b) + c + (d + e)
  {
    assert a + (b + c + d) + e == a + b + c + d + e;
  }

  /** A string that already has no white space at its ends is its own strip. */
  lemma StripTrimmed(s: string)
    requires Trimmed(s)
    ensures Strip(s) == s
  {
    assert s == "" + s + "";
    StripUnique(s, "", s, "");
  }

  /** Trailing white space is all that stripping removes from a string that starts
      with a non-space character. */
  lemma StripTail(a: string, b: string)
    requires |a| > 0 && !IsSpace(a[0]) && !IsSpace(a[|a| - 1])
    ensures exists b' :: Strip(a + b) == a + b'
  {
    var end := SkipSpaceBack(b, 0, |b|);
    var b', post := b[..end], b[end..];
    var r := a + b';
    assert r[0] == a[0];
    assert Trimmed(r) by {
      if |b'| > 0 { assert r[|r| - 1] == b'[|b'| - 1]; } else { assert r == a; }
    }
    assert AllSpace(post);
    assert a + b == "" + r + post;
    StripUnique(a + b, "", r, post);
  }

  /** ASCII `str.lower` on one character. */
  function LowerChar(ch: char): (r: char)
    ensures 'A' <= ch <= 'Z' ==> r as int == ch as int + 32
    ensures !('A' <= ch <= 'Z') ==> r == ch
  {
    if 'A' <= ch <= 'Z' then (ch as int + 32) as char else ch
  }

  /** ASCII `str.lower`. */
  function Lower(s: string): (r: string)
    ensures |r| == |s|
    ensures forall i :: 0 <= i < |s| ==> r[i] == LowerChar(s[i])
  {
    seq(|s|, i requires 0 <= i < |s| => LowerChar(s[i]))
  }

  /** Python's `sep.join(xs)` for a one-character separator. */
  function Join(xs: seq<string>, sep: char): string
    decreases |xs|
  {
    if |xs| == 0 then ""
    else if |xs| == 1 then xs[0]
    else xs[0] + [sep] + Join(xs[1..], sep)
  }

  /** Python's `s.split(sep)` for a one-character separator: the unique
      sequence of `sep`-free pieces, at least one, that `Join` reassembles to `s`. */
  function Split(s: string, sep: char): (r: seq<string>)
    ensures |r| >= 1
    ensures forall i :: 0 <= i < |r| ==> sep !in r[i]
    ensures Join(r, sep) == s
    decreases |s|
  {
    if |s| == 0 then [""]
    else
      var rest := Split(s[1..], sep);
      if s[0] == sep then
        assert Join([""] + rest, sep) == "" + [sep] + Join(rest, sep) by {
          assert ([""] + rest)[1..] == rest;
        }
        assert s == [sep] + s[1..];
        [""] + rest
      else
        var head := [s[0]] + rest[0];
        var r := [head] + rest[1..];
        assert r[1..] == rest[1..];
        assert Join(r, sep) == s by {
          if |rest| == 1 {
            assert s == [s[0]] + s[1..];
          } else {
            assert Join(rest, sep) == rest[0] + [sep] + Join(rest[1..], sep);
            assert s == [s[0]] + s[1..];
          }
        }
        r
  }

  /** Splitting a piece free of the separator gives back just that piece. */
  lemma {:induction false} SplitPlain(a: string, sep: char)
    requires sep !in a
    ensures Split(a, sep) == [a]
    decreases |a|
  {
    if |a| > 0 {
      assert sep !in a[1..];
      SplitPlain(a[1..], sep);
      assert [a[0]] + a[1..] == a;
    }
  }

  /** The first separator ends the first piece. */
  lemma {:induction false} SplitFirst(a: string, sep: char, b: string)
    requires sep !in a
    ensures Split(a + [sep] + b, sep) == [a] + Split(b, sep)
    decreases |a|
  {
    var s := a + [sep] + b;
    if |a| == 0 {
      assert s[1..] == b;
    } else {
      assert s[1..] == a[1..] + [sep] + b;
      assert sep !in a[1..];
      SplitFirst(a[1..], sep, b);
      assert [a[0]] + a[1..] == a;
    }
  }

  /** `split` undoes `join` when no piece contains the separator. */
  lemma {:induction false} SplitJoin(xs: seq<string>, sep: char)
    requires |xs| >= 1
    requires forall i :: 0 <= i < |xs| ==> sep !in xs[i]
    ensures Split(Join(xs, sep), sep) == xs
    decreases |xs|
  {
    if |xs| == 1 {
      SplitPlain(xs[0], sep);
    } else {
      SplitJoin(xs[1..], sep);
      SplitFirst(xs[0], sep, Join(xs[1..], sep));
      assert [xs[0]] + xs[1..] == xs;
    }
  }

  /** Every character of a joined string is the separator or comes from a piece. */
  lemma {:induction false} JoinAvoids(xs: seq<string>, sep: char, bad: set<char>)
    requires sep !in bad
    requires forall i :: 0 <= i < |xs| ==> Avoids(xs[i], bad)
    ensures Avoids(Join(xs, sep), bad)
    decreases |xs|
  {
    if |xs| > 1 {
      JoinAvoids(xs[1..], sep, bad);
    }
  }

  /** A character that is not the separator and in no piece is not in the joined string. */
  lemma {:induction false} JoinLacks(xs: seq<string>, sep: char, c: char)
    requires c != sep
    requires forall i :: 0 <= i < |xs| ==> c !in xs[i]
    ensures c !in Join(xs, sep)
    decreases |xs|
  {
    if |xs| > 1 {
      JoinLacks(xs[1..], sep, c);
    }
  }

  /** Every piece of a split string is made of the string's own characters. */
  lemma {:induction false} SplitAvoids(s: string, sep: char, bad: set<char>)
    requires Avoids(s, bad)
    ensures forall i :: 0 <= i < |Split(s, sep)| ==> Avoids(Split(s, sep)[i], bad)
    decreases |s|
  {
    if |s| > 0 {
      SplitAvoids(s[1..], sep, bad);
    }
  }
}

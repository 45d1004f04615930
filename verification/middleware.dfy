/** static_redirects/middleware.py: `StaticRedirectsMiddleware`. It builds its table
    from the normalised redirects and looks a request up by its normalised full
    path, then by that key with the parameters and query string dropped. */
module Middleware {
  import opened Wrappers
  import opened Entries
  import opened RedirectTable
  import Strings
  import UrlParse
  import Normalise
  import NormaliseFacts

  /** `__init__`: every entry converted, or the error of the first one that cannot
      be; then the table, or `MiddlewareNotUsed` when there is nothing in it. */
  function Init(entries: seq<RawEntry>): (r: Result<Table, InitError>)
    ensures r == Failure(MiddlewareNotUsed) <==> |entries| == 0
    ensures (r.Failure? && r.error.BadEntry?) <==> exists i :: 0 <= i < |entries| && ToRedirect(entries[i]).Failure?
    ensures r.Failure? && r.error.BadEntry? ==> exists i :: (0 <= i < |entries| && ToRedirect(entries[i]) == Failure(r.error.error)
      && forall j :: 0 <= j < i ==> ToRedirect(entries[j]).Success?)
  {
    match GetRedirects(entries)
    case Failure(err) => Failure(BadEntry(err))
    case Success(rs) => Load(rs)
  }

  /** The table's keys are exactly the normalised sources of the entries. */
  lemma InitKeys(entries: seq<RawEntry>, k: string)
    requires Init(entries).Success?
    ensures k in Init(entries).value <==> exists i :: 0 <= i < |entries| && ToRedirect(entries[i]).value.source == k
  {
    ConvertedKeys(entries, ToRedirect, k);
  }

  /** The redirect of the last entry for a key is the one in the table. */
  lemma InitLastWins(entries: seq<RawEntry>, i: int)
    requires Init(entries).Success? && 0 <= i < |entries|
    requires forall j :: i < j < |entries| ==> ToRedirect(entries[j]).value.source != ToRedirect(entries[i]).value.source
    ensures var rd := ToRedirect(entries[i]).value;
      rd.source in Init(entries).value && Init(entries).value[rd.source] == Destination(rd.destination, rd.isPermanent)
  {
    ConvertedLastWins(entries, ToRedirect, i);
  }

  /** `urlparse(path).path`: a key with its parameters, query and fragment dropped. */
  function StrippedKey(key: string): (r: string)
    ensures r <= key && '?' !in r && '#' !in r
  {
    UrlParse.Parse(key).path
  }

  /** The two lookups of `__call__` for a key: the destination stored under the
      key, else the one stored under the key with its parameters and query string
      dropped, else none. */
  function Lookup(t: Table, path: string): (r: Option<Destination>)
    ensures r.None? <==> path !in t && StrippedKey(path) !in t
    ensures path in t ==> r == Some(t[path])
    ensures r.Some? ==> r.value in t.Values
  {
    if path in t then Some(t[path])
    else
      var pathWithoutQuery := StrippedKey(path);
      if path != pathWithoutQuery && pathWithoutQuery in t then Some(t[pathWithoutQuery])
      else None
  }

  /** The `path != path_without_query` guard only saves a second lookup: the
      result is the first of the two keys that the table holds. */
  lemma LookupFirstHit(t: Table, path: string)
    ensures Lookup(t, path) == FirstHit(t, [path, StrippedKey(path)])
  {
    var keys := [path, StrippedKey(path)];
    assert keys[1..] == [StrippedKey(path)];
    assert keys[1..][1..] == [];
  }

  /** `__call__` up to the response: the lookups for the normalised full path; the
      request is passed on when they find nothing. The result depends on the full
      path alone: the host and the bare path are not consulted. */
  function Resolve(t: Table, request: Request): (r: Option<Destination>)
    ensures var key := Normalise.NormalisePath(request.fullPath);
      r == FirstHit(t, [key, StrippedKey(key)])
  {
    var key := Normalise.NormalisePath(request.fullPath);
    LookupFirstHit(t, key);
    Lookup(t, key)
  }

  /** A request reaches the redirect stored under its own key, or else the one
      stored under its path with parameters and query string dropped. */
  lemma {:induction false} QueryFallback(t: Table, request: Request)
    requires ';' !in UrlParse.Parse(Strings.Strip(request.fullPath)).path
    ensures var key := Normalise.NormalisePath(request.fullPath);
      var bare := Normalise.AdjustPath(UrlParse.Parse(Strings.Strip(request.fullPath)).path);
      Resolve(t, request) == FirstHit(t, [key, bare])
  {
    NormaliseFacts.ReparsedKey(request.fullPath);
  }

  /** A request with a query string whose own key is not configured reaches the
      redirect for its path alone, whatever the query string is. */
  lemma {:induction false} QueryDropped(t: Table, host: string, path: string, query: string)
    requires Strings.Trimmed(path + "?" + query)
    requires ';' !in path && '?' !in path && '#' !in path && '#' !in query
    requires Normalise.NormalisePath(path + "?" + query) !in t
    ensures var bare := Normalise.AdjustPath(path);
      Resolve(t, Request(host, path + "?" + query, path)) == (if bare in t then Some(t[bare]) else None)
  {
    var full := path + "?" + query;
    assert UrlParse.Parse(Strings.Strip(full)).path == path by {
      Strings.StripTrimmed(full);
      UrlParse.ParseQuery(path, query);
    }
    var bare := Normalise.AdjustPath(path);
    var keys := [Normalise.NormalisePath(full), bare];
    assert Resolve(t, Request(host, full, path)) == FirstHit(t, keys) by {
      QueryFallback(t, Request(host, full, path));
    }
    SecondKey(t, keys[0], bare);
  }

  /** When the first of two keys is absent, the second decides. */
  lemma SecondKey(t: Table, first: string, second: string)
    requires first !in t
    ensures FirstHit(t, [first, second]) == (if second in t then Some(t[second]) else None)
  {
    var keys := [first, second];
    assert keys[1..] == [second];
    assert keys[1..][1..] == [];
  }

  /** A request for a configured path with a trailing `/` added reaches that
      path's redirect. */
  lemma TrailingSlashMatches(t: Table, host: string, p: string)
    requires |p| > 0 && p[0] == '/' && p[|p| - 1] != '/'
    requires Strings.Trimmed(p) && '#' !in p && '?' !in p && ';' !in p
    requires p in t
    ensures Resolve(t, Request(host, p + "/", p + "/")) == Some(t[p])
  {
    NormaliseFacts.TrailingSlashCollides(p);
  }
}

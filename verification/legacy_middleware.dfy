/** static_redirect/middleware.py: the older `StaticRedirectMiddleware`. It reads the
    same kinds of entries but stores each source verbatim, and looks a request up
    by its full path, then by its path alone. */
module LegacyMiddleware {
  import opened Wrappers
  import opened Entries
  import opened RedirectTable

  /** `__init__`: every entry read with its source verbatim, or the error of the
      first one that cannot be; then the table, or `MiddlewareNotUsed` when there is
      nothing in it. */
  function Init(entries: seq<RawEntry>): (r: Result<Table, InitError>)
    ensures r == Failure(MiddlewareNotUsed) <==> |entries| == 0
    ensures (r.Failure? && r.error.BadEntry?) <==> exists i :: 0 <= i < |entries| && ReadEntry(entries[i]).Failure?
    ensures r.Failure? && r.error.BadEntry? ==> exists i :: (0 <= i < |entries| && ReadEntry(entries[i]) == Failure(r.error.error)
      && forall j :: 0 <= j < i ==> ReadEntry(entries[j]).Success?)
  {
    match ReadAll(entries)
    case Failure(err) => Failure(BadEntry(err))
    case Success(rs) => Load(rs)
  }

  /** The table's keys are exactly the sources of the entries, as written. */
  lemma InitKeys(entries: seq<RawEntry>, k: string)
    requires Init(entries).Success?
    ensures k in Init(entries).value <==> exists i :: 0 <= i < |entries| && ReadEntry(entries[i]).value.source == k
  {
    ConvertedKeys(entries, ReadEntry, k);
  }

  /** The redirect of the last entry for a source is the one in the table. */
  lemma InitLastWins(entries: seq<RawEntry>, i: int)
    requires Init(entries).Success? && 0 <= i < |entries|
    requires forall j :: i < j < |entries| ==> ReadEntry(entries[j]).value.source != ReadEntry(entries[i]).value.source
    ensures var rd := ReadEntry(entries[i]).value;
      rd.source in Init(entries).value && Init(entries).value[rd.source] == Destination(rd.destination, rd.isPermanent)
  {
    ConvertedLastWins(entries, ReadEntry, i);
  }

  /** `__call__` up to the response: the destination stored under the full path,
      else, when the path differs from it, the one stored under the path, else none
      (the request is passed on). */
  function Resolve(t: Table, request: Request): (r: Option<Destination>)
    ensures r.None? <==> request.fullPath !in t && request.path !in t
    ensures request.fullPath in t ==> r == Some(t[request.fullPath])
    ensures r.Some? ==> r.value in t.Values
  {
    if request.fullPath in t then Some(t[request.fullPath])
    else if request.fullPath != request.path && request.path in t then Some(t[request.path])
    else None
  }

  /** The `full_path != request.path` guard only saves a second lookup: the result
      is the first of the two keys that the table holds. */
  lemma ResolveFirstHit(t: Table, request: Request)
    ensures Resolve(t, request) == FirstHit(t, [request.fullPath, request.path])
  {
    var keys := [request.fullPath, request.path];
    assert keys[1..] == [request.path];
    assert keys[1..][1..] == [];
  }

  /** The redirects the test suite relies on: `/foo` to `/bar`, temporarily, also
      with a query string, and `/foo-permanent` to `/bar`, permanently. */
  lemma TestRedirects(host: string)
    ensures var t := Init([CsvRow(["/foo", "/bar"]), CsvRow(["/foo-permanent", "/bar", "true"])]);
      && t.Success?
      && Resolve(t.value, Request(host, "/foo", "/foo")) == Some(Destination("/bar", false))
      && Resolve(t.value, Request(host, "/foo?something=else", "/foo")) == Some(Destination("/bar", false))
      && Resolve(t.value, Request(host, "/foo-permanent", "/foo-permanent")) == Some(Destination("/bar", true))
  {
    var entries := [CsvRow(["/foo", "/bar"]), CsvRow(["/foo-permanent", "/bar", "true"])];
    assert StrToBool("true");
    InitLastWins(entries, 0);
    InitLastWins(entries, 1);
    assert "/foo?something=else" !in Init(entries).value by {
      InitKeys(entries, "/foo?something=else");
    }
  }

  /** Sources are not normalised: a source with a trailing `/` does not match the
      request without it. */
  lemma SourcesVerbatim(host: string)
    ensures var t := Init([CsvRow(["/foo/", "/bar"])]);
      && t.Success?
      && Resolve(t.value, Request(host, "/foo", "/foo")).None?
  {
    var entries := [CsvRow(["/foo/", "/bar"])];
    InitKeys(entries, "/foo");
  }
}

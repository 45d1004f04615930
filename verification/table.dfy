/** The redirect table both middlewares keep: a dictionary from source to
    `RedirectDestination`, filled in iteration order so that the last redirect
    for a source wins, and the request they look paths up for. */
module RedirectTable {
  import opened Wrappers
  import opened Entries

  /** `RedirectDestination`: what a source redirects to and whether permanently. */
  datatype Destination = Destination(destination: string, isPermanent: bool)

  type Table = map<string, Destination>

  /** The part of a Django request the middlewares read: `get_full_path()` (path
      and query string) and `path`. The host is carried but never consulted. */
  datatype Request = Request(host: string, fullPath: string, path: string)

  /** Why a middleware cannot be built: a bad entry, or `MiddlewareNotUsed` for an
      empty table. */
  datatype InitError = BadEntry(error: EntryError) | MiddlewareNotUsed

  function DestinationOf(rd: Redirect): Destination {
    Destination(rd.destination, rd.isPermanent)
  }

  /** No later redirect in `rs` has the source of `rs[i]`. */
  predicate IsLastFor(rs: seq<Redirect>, i: int)
    requires 0 <= i < |rs|
  {
    forall j :: i < j < |rs| ==> rs[j].source != rs[i].source
  }

  /** The sources of `rs`. */
  function Sources(rs: seq<Redirect>): set<string> {
    set i | 0 <= i < |rs| :: rs[i].source
  }

  lemma SourcesSnoc(rs: seq<Redirect>)
    requires |rs| > 0
    ensures Sources(rs) == Sources(rs[..|rs| - 1]) + {rs[|rs| - 1].source}
  {
    var init := rs[..|rs| - 1];
    forall k | k in Sources(rs) ensures k in Sources(init) + {rs[|rs| - 1].source} {
      var i :| 0 <= i < |rs| && rs[i].source == k;
      if i < |init| { assert init[i] == rs[i]; }
    }
    forall k | k in Sources(init) ensures k in Sources(rs) {
      var i :| 0 <= i < |init| && init[i].source == k;
      assert rs[i] == init[i];
    }
  }

  /** An index that is last for its source in `rs` is last for it without the final
      redirect too, and has a different source from it. */
  lemma LastForPrefix(rs: seq<Redirect>, i: int)
    requires 0 <= i < |rs| - 1 && IsLastFor(rs, i)
    ensures IsLastFor(rs[..|rs| - 1], i) && rs[..|rs| - 1][i] == rs[i]
    ensures rs[i].source != rs[|rs| - 1].source
  {
  }

  /** `self.data[redirect.source] = RedirectDestination(...)` for every redirect in
      order: the keys are exactly the sources. */
  function Build(rs: seq<Redirect>): (r: Table)
    ensures r.Keys == Sources(rs)
    decreases |rs|
  {
    if |rs| == 0 then map[]
    else
      SourcesSnoc(rs);
      Build(rs[..|rs| - 1])[rs[|rs| - 1].source := DestinationOf(rs[|rs| - 1])]
  }

  /** The table's keys are exactly the sources, and each maps to the last redirect
      with that source. */
  lemma BuildLastWins(rs: seq<Redirect>)
    ensures Build(rs).Keys == Sources(rs)
    ensures forall i :: 0 <= i < |rs| && IsLastFor(rs, i) ==> rs[i].source in Build(rs) && Build(rs)[rs[i].source] == DestinationOf(rs[i])
  {
    BuildLast(rs);
  }

  lemma {:induction false} BuildLast(rs: seq<Redirect>)
    ensures forall i :: 0 <= i < |rs| && IsLastFor(rs, i) ==> rs[i].source in Build(rs) && Build(rs)[rs[i].source] == DestinationOf(rs[i])
    decreases |rs|
  {
    if |rs| > 0 {
      BuildLast(rs[..|rs| - 1]);
      forall i | 0 <= i < |rs| && IsLastFor(rs, i)
        ensures rs[i].source in Build(rs) && Build(rs)[rs[i].source] == DestinationOf(rs[i])
      {
        BuildLastStep(rs, i);
      }
    }
  }

  /** One step of `BuildLast`: an entry that is last for its source survives the
      final assignment, which either is that entry or writes another key. */
  lemma BuildLastStep(rs: seq<Redirect>, i: int)
    requires 0 <= i < |rs| && IsLastFor(rs, i)
    requires var init := rs[..|rs| - 1];
      forall j :: 0 <= j < |init| && IsLastFor(init, j) ==> init[j].source in Build(init) && Build(init)[init[j].source] == DestinationOf(init[j])
    ensures rs[i].source in Build(rs) && Build(rs)[rs[i].source] == DestinationOf(rs[i])
  {
    if i < |rs| - 1 {
      LastForPrefix(rs, i);
    }
  }

  /** Every destination in the table is that of some redirect for its source. */
  lemma BuildFromRedirects(rs: seq<Redirect>, k: string)
    requires k in Build(rs)
    ensures exists i :: 0 <= i < |rs| && rs[i].source == k && IsLastFor(rs, i) && Build(rs)[k] == DestinationOf(rs[i])
  {
    BuildLastWins(rs);
    var i :| 0 <= i < |rs| && rs[i].source == k;
    var m := i;
    while m + 1 < |rs| && exists j :: m < j < |rs| && rs[j].source == k
      invariant 0 <= m < |rs| && rs[m].source == k
      decreases |rs| - m
    {
      var j :| m < j < |rs| && rs[j].source == k;
      m := j;
    }
    assert IsLastFor(rs, m);
    assert Build(rs)[k] == DestinationOf(rs[m]);
  }

  /** The table of a middleware, or `MiddlewareNotUsed` when there is nothing in it. */
  function Load(rs: seq<Redirect>): (r: Result<Table, InitError>)
    ensures r == Failure(MiddlewareNotUsed) <==> |rs| == 0
    ensures r.Success? ==> r.value == Build(rs)
  {
    var t := Build(rs);
    BuildLastWins(rs);
    assert |rs| > 0 ==> rs[0].source in Sources(rs);
    if |t| == 0 then Failure(MiddlewareNotUsed) else Success(t)
  }

  /** The keys of a table built from converted entries are the converted sources. */
  lemma ConvertedKeys(entries: seq<RawEntry>, convert: RawEntry -> Result<Redirect, EntryError>, k: string)
    requires ConvertAll(entries, convert).Success?
    ensures k in Build(ConvertAll(entries, convert).value) <==>
      exists i :: 0 <= i < |entries| && convert(entries[i]).value.source == k
  {
    var rs := ConvertAll(entries, convert).value;
    if k in Build(rs) {
      var i :| 0 <= i < |rs| && rs[i].source == k;
      assert convert(entries[i]).value.source == k;
    }
    if exists i :: 0 <= i < |entries| && convert(entries[i]).value.source == k {
      var i :| 0 <= i < |entries| && convert(entries[i]).value.source == k;
      assert rs[i].source == k;
      assert k in Sources(rs);
    }
  }

  /** In a table built from converted entries, the last entry converted to a source
      decides that source's destination. */
  lemma ConvertedLastWins(entries: seq<RawEntry>, convert: RawEntry -> Result<Redirect, EntryError>, i: int)
    requires ConvertAll(entries, convert).Success? && 0 <= i < |entries|
    requires forall j :: i < j < |entries| ==> convert(entries[j]).value.source != convert(entries[i]).value.source
    ensures var rd := convert(entries[i]).value;
      rd.source in Build(ConvertAll(entries, convert).value)
      && Build(ConvertAll(entries, convert).value)[rd.source] == DestinationOf(rd)
  {
    var rs := ConvertAll(entries, convert).value;
    assert IsLastFor(rs, i);
    BuildLast(rs);
  }

  /** The entry of the first key in `keys` that the table holds. */
  function FirstHit(t: Table, keys: seq<string>): (r: Option<Destination>)
    ensures r.None? <==> forall i :: 0 <= i < |keys| ==> keys[i] !in t
    ensures r.Some? ==> exists i :: (0 <= i < |keys| && keys[i] in t && r.value == t[keys[i]]
      && forall j :: 0 <= j < i ==> keys[j] !in t)
    decreases |keys|
  {
    if |keys| == 0 then None
    else if keys[0] in t then Some(t[keys[0]])
    else
      var r := FirstHit(t, keys[1..]);
      assert forall i :: 1 <= i < |keys| ==> keys[i] == keys[1..][i - 1];
      if r.Some? then
        var i :| 0 <= i < |keys[1..]| && keys[1..][i] in t && r.value == t[keys[1..][i]]
          && forall j :: 0 <= j < i ==> keys[1..][j] !in t;
        assert keys[i + 1] in t && r.value == t[keys[i + 1]] && forall j :: 0 <= j < i + 1 ==> keys[j] !in t;
        r
      else r
  }
}

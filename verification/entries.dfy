/** static_redirects/utils.py apart from `normalise_path`: the `Redirect` record,
    the string-to-boolean coercion and the conversion of configured entries into
    redirects. Reading files and parsing CSV or JSON text are not modelled: an
    entry arrives as an already-parsed CSV row or JSON object. */
module Entries {
  import opened Wrappers
  import Strings
  import Normalise

  /** One configured redirect. */
  datatype Redirect = Redirect(source: string, destination: string, isPermanent: bool)

  /** `str_to_bool` on a string: false exactly for `""`, `"0"` and `"false"` in any
      letter case. */
  function StrToBool(value: string): (r: bool)
    ensures !r <==> (value == "" || value == "0"
      || (|value| == 5 && forall i :: 0 <= i < 5 ==> Strings.LowerChar(value[i]) == "false"[i]))
  {
    var lowered := Strings.Lower(value);
    assert |value| == 5 && lowered == "false" ==> forall i :: 0 <= i < 5 ==> Strings.LowerChar(value[i]) == "false"[i];
    assert lowered == "0" <==> value == "0" by {
      if |value| == 1 && value[0] != '0' { assert lowered[0] != '0'; }
    }
    !(lowered == "false" || lowered == "0") && value != ""
  }

  /** A JSON object of a redirects file; `None` is a missing key. */
  datatype JsonEntry = JsonEntry(source: Option<string>, destination: Option<string>, isPermanent: Option<bool>)

  /** One entry of a redirects file: a CSV row or a JSON object. */
  datatype RawEntry = CsvRow(fields: seq<string>) | JsonObject(entry: JsonEntry)

  /** Why an entry cannot be converted: a CSV row too short (`IndexError`) or a
      JSON object without `source` or `destination` (`KeyError`). */
  datatype EntryError = IndexError | KeyError

  /** The per-row logic of `get_redirects` with the source taken verbatim: the third
      CSV column or the `is_permanent` key defaults to false when missing. */
  function ReadEntry(e: RawEntry): (r: Result<Redirect, EntryError>)
    ensures e.CsvRow? ==> (r.Failure? <==> |e.fields| < 2) && (r.Failure? ==> r.error == IndexError)
    ensures e.CsvRow? && r.Success? ==>
      && r.value.source == e.fields[0]
      && r.value.destination == e.fields[1]
      && r.value.isPermanent == (|e.fields| > 2 && StrToBool(e.fields[2]))
    ensures e.JsonObject? ==> (r.Failure? <==> e.entry.source.None? || e.entry.destination.None?) && (r.Failure? ==> r.error == KeyError)
    ensures e.JsonObject? && r.Success? ==>
      && r.value.source == e.entry.source.value
      && r.value.destination == e.entry.destination.value
      && r.value.isPermanent == (e.entry.isPermanent == Some(true))
  {
    match e
    case CsvRow(row) =>
      var isPermanent := if |row| > 2 then StrToBool(row[2]) else false;
      if |row| < 2 then Failure(IndexError)
      else Success(Redirect(row[0], row[1], isPermanent))
    case JsonObject(o) =>
      if o.source.None? || o.destination.None? then Failure(KeyError)
      else Success(Redirect(o.source.value, o.destination.value, o.isPermanent.GetOr(false)))
  }

  /** The per-row logic of `get_redirects`: a CSV row needs a source and a
      destination column, a JSON object a `source` and a `destination` key; the
      source is normalised, the destination kept as written, and the permanence
      read from the third column or `is_permanent`, false when missing. */
  function ToRedirect(e: RawEntry): (r: Result<Redirect, EntryError>)
    ensures e.CsvRow? ==> (r == Failure(IndexError) <==> |e.fields| < 2)
    ensures e.CsvRow? && |e.fields| >= 2 ==>
      r == Success(Redirect(Normalise.NormalisePath(e.fields[0]), e.fields[1], |e.fields| > 2 && StrToBool(e.fields[2])))
    ensures e.JsonObject? ==> (r == Failure(KeyError) <==> e.entry.source.None? || e.entry.destination.None?)
    ensures e.JsonObject? && e.entry.source.Some? && e.entry.destination.Some? ==>
      r == Success(Redirect(Normalise.NormalisePath(e.entry.source.value), e.entry.destination.value, e.entry.isPermanent == Some(true)))
  {
    match ReadEntry(e)
    case Failure(err) => Failure(err)
    case Success(rd) => Success(rd.(source := Normalise.NormalisePath(rd.source)))
  }

  /** The newer middleware reads an entry as the older one does, apart from the
      source, which it normalises: the two conversions agree exactly on entries
      that fail or whose source is already its own key. */
  lemma AgreesWithLegacy(e: RawEntry)
    ensures ToRedirect(e).Failure? <==> ReadEntry(e).Failure?
    ensures ToRedirect(e) == ReadEntry(e) <==> ReadEntry(e).Failure? || Normalise.NormalisePath(ReadEntry(e).value.source) == ReadEntry(e).value.source
    ensures ToRedirect(e).Success? ==> ToRedirect(e).value.(source := ReadEntry(e).value.source) == ReadEntry(e).value
  {
  }

  /** Every entry converted by `convert`, in order; the first entry that cannot
      be converted aborts the whole sequence, as the exception escapes the
      generator. */
  function ConvertAll(entries: seq<RawEntry>, convert: RawEntry -> Result<Redirect, EntryError>): (r: Result<seq<Redirect>, EntryError>)
    ensures r.Success? <==> forall i :: 0 <= i < |entries| ==> convert(entries[i]).Success?
    ensures r.Success? ==> |r.value| == |entries|
    ensures r.Success? ==> forall i :: 0 <= i < |entries| ==> r.value[i] == convert(entries[i]).value
    ensures r.Failure? ==> exists i :: (0 <= i < |entries| && convert(entries[i]) == Failure(r.error)
      && forall j :: 0 <= j < i ==> convert(entries[j]).Success?)
    decreases |entries|
  {
    if |entries| == 0 then Success([])
    else
      var head := convert(entries[0]);
      var tail := ConvertAll(entries[1..], convert);
      if head.Failure? then Failure(head.error)
      else if tail.Failure? then
        var i :| 0 <= i < |entries[1..]| && convert(entries[1..][i]) == Failure(tail.error)
          && forall j :: 0 <= j < i ==> convert(entries[1..][j]).Success?;
        assert entries[1..][i] == entries[i + 1];
        assert forall j :: 1 <= j < i + 1 ==> entries[j] == entries[1..][j - 1];
        Failure(tail.error)
      else Success([head.value] + tail.value)
  }

  /** Every entry read with its source verbatim, or the error of the first entry
      that cannot be read. */
  function ReadAll(entries: seq<RawEntry>): (r: Result<seq<Redirect>, EntryError>)
    ensures r.Success? <==> forall i :: 0 <= i < |entries| ==> ReadEntry(entries[i]).Success?
    ensures r.Success? ==> |r.value| == |entries|
    ensures r.Success? ==> forall i :: 0 <= i < |entries| ==> r.value[i] == ReadEntry(entries[i]).value
    ensures r.Failure? ==> exists i :: (0 <= i < |entries| && ReadEntry(entries[i]) == Failure(r.error)
      && forall j :: 0 <= j < i ==> ReadEntry(entries[j]).Success?)
  {
    ConvertAll(entries, ReadEntry)
  }

  /** `get_redirects` over the entries of all files in order: each entry converted
      by `ToRedirect`, or the error of the first entry that cannot be. */
  function GetRedirects(entries: seq<RawEntry>): (r: Result<seq<Redirect>, EntryError>)
    ensures r.Success? <==> forall i :: 0 <= i < |entries| ==> ToRedirect(entries[i]).Success?
    ensures r.Success? ==> |r.value| == |entries|
    ensures r.Success? ==> forall i :: 0 <= i < |entries| ==> r.value[i] == ToRedirect(entries[i]).value
    ensures r.Failure? ==> exists i :: (0 <= i < |entries| && ToRedirect(entries[i]) == Failure(r.error)
      && forall j :: 0 <= j < i ==> ToRedirect(entries[j]).Success?)
  {
    ConvertAll(entries, ToRedirect)
  }

  /** When every entry converts, `GetRedirects` yields exactly the converted
      redirects. */
  lemma GetRedirectsAll(entries: seq<RawEntry>, rs: seq<Redirect>)
    requires |rs| == |entries|
    requires forall i :: 0 <= i < |entries| ==> ToRedirect(entries[i]) == Success(rs[i])
    ensures GetRedirects(entries) == Success(rs)
  {
    ConvertAllSuccess(entries, ToRedirect, rs);
  }

  /** When every entry converts, `ConvertAll` yields exactly the converted
      redirects. */
  lemma ConvertAllSuccess(entries: seq<RawEntry>, convert: RawEntry -> Result<Redirect, EntryError>, rs: seq<Redirect>)
    requires |rs| == |entries|
    requires forall i :: 0 <= i < |entries| ==> convert(entries[i]) == Success(rs[i])
    ensures ConvertAll(entries, convert) == Success(rs)
  {
    var g := ConvertAll(entries, convert);
    assert g.Success?;
    assert forall i :: 0 <= i < |rs| ==> g.value[i] == rs[i];
    assert g.value == rs;
  }

  /** Two entries that convert give the two redirects, in order. */
  lemma ConvertPair(e0: RawEntry, e1: RawEntry, r0: Redirect, r1: Redirect, convert: RawEntry -> Result<Redirect, EntryError>)
    requires convert(e0) == Success(r0) && convert(e1) == Success(r1)
    ensures ConvertAll([e0, e1], convert) == Success([r0, r1])
  {
    ConvertAllSuccess([e0, e1], convert, [r0, r1]);
  }
}

# django-static-redirects: the redirect-matching core in Dafny

This project models the core of django-static-redirects, a Django app that serves
redirects listed in static CSV or JSON files. Three parts are modelled:

- **Normalisation.** `normalise_path` turns a configured source and an incoming
  request path into one canonical key:
  - surrounding white space is stripped;
  - only the path, the `;params` and the query of the URL are kept;
  - a leading `/` is forced and one trailing `/` removed;
  - the `;` and `&` components are sorted.
- **The two middlewares.**
  - `StaticRedirectsMiddleware` builds a table from normalised sources. It looks a
    request up by its normalised full path, then by that key with the parameters
    and query string dropped.
  - The older `StaticRedirectMiddleware` stores sources verbatim. It looks a
    request up by its full path, then by its bare path.
  - Both keep the last redirect configured for a source.
  - Both refuse to start, with `MiddlewareNotUsed`, when there are no redirects.
- **The duplicate check.** The system check warns once when two redirects share a
  normalised source. It lists those sources sorted, each once.

Everything is pure functions over strings, sequences and maps.

## Modules

| file | module | models |
|---|---|---|
| `wrappers.dfy` | `Wrappers` | `Option` and `Result` |
| `strings.dfy` | `Strings` | `str.strip` (Python's `str.isspace` set), ASCII `lower`, `split`/`join` on one character |
| `ordering.dfy` | `Ordering` | `sorted` on strings: code-point order, a prefix first |
| `urlparse.dfy` | `UrlParse` | `urlparse`/`urlunparse` on relative references without scheme or authority |
| `normalise.dfy` | `Normalise` | `normalise_path` |
| `normalise_facts.dfy` | `NormaliseFacts` | what `normalise_path` promises, over all inputs |
| `entries.dfy` | `Entries` | `Redirect`, `str_to_bool`, the per-row conversion in `get_redirects` |
| `table.dfy` | `RedirectTable` | `RedirectDestination`, the table, last-write-wins, the first-hit lookup |
| `middleware.dfy` | `Middleware` | `StaticRedirectsMiddleware` |
| `legacy_middleware.dfy` | `LegacyMiddleware` | `StaticRedirectMiddleware` |
| `checks.dfy` | `Checks` | `duplicate_redirects_check` |

### The URL parser

`urlparse` belongs to the Python standard library, and `UrlParse.Parse` models it
as a splitter:

- the fragment starts at the first `#`;
- the query starts at the first `?` before it;
- the params start at the first `;` at or after the last `/`, or at the first
  `;` when there is no `/` (this is `_splitparams`).

This agrees with `urlparse` on the inputs described by `UrlParse.Relative`:
- No text before the first `:` that is made only of scheme characters
  (`UrlParse.SchemeLike`). Current Python releases read a scheme there only when it
  begins with a letter; older ones also read one that begins with a digit, `+`, `-`
  or `.`. Excluding both makes the class safe under either rule.
- No leading `//`.
- No tab, CR or LF.
- No control character or space at the start.

`NormaliseFacts.KeepsRelative` proves that a key built from such an input is again
such an input. So when `__call__` parses a key a second time, that parse is
modelled faithfully too.

### Inputs and outputs

- A file entry arrives already parsed, as `Entries.RawEntry`:
  - a CSV row is a sequence of fields;
  - a JSON object has optional `source`, `destination` and `is_permanent`.
- A request is `RedirectTable.Request`: the host, `get_full_path()` and `path`.
- A lookup returns `Some(destination)` where the middleware returns a redirect
  response, and `None` where it passes the request on.
- An exception becomes a `Failure`:
  - `IndexError` for a CSV row with fewer than two fields;
  - `KeyError` for a JSON object without `source` or `destination`;
  - `MiddlewareNotUsed` for an empty table.

## Model

| member | source | states |
|---|---|---|
| `Strings.Strip` | static_redirects/utils.py:39 | the result neither begins nor ends with white space; that it is the input less white space at both ends is `Strings.StripShape` |
| `Strings.StripShape` | static_redirects/utils.py:39 | the result neither begins nor ends with white space, and the input is white space, then the result, then white space |
| `Strings.StripUnique` | static_redirects/utils.py:39 | any split of a string into white space, a trimmed middle and white space has that middle as its strip |
| `Strings.StripPadding` | static_redirects/utils.py:39 | white space added on either side of any string is removed by stripping, leaving what stripping the string alone leaves |
| `Strings.Lower` | static_redirects/utils.py:78 | the result has the input's length and each character lowered (ASCII letters only) |
| `Strings.Split` | static_redirects/utils.py:54 | the pieces contain no separator, there is at least one, and joining them gives the input back |
| `Strings.SplitJoin` | static_redirects/utils.py:55 | splitting a join of separator-free pieces gives the pieces back |
| `Ordering.Sort` | static_redirects/utils.py:55 | the result is sorted and is a permutation of the input |
| `Ordering.SortedUnique` | static_redirects/utils.py:60 | two sorted permutations of the same multiset are equal, so the sorted form depends only on the multiset |
| `UrlParse.Parse` | static_redirects/utils.py:42 | the path is a prefix of the URL; the path, params and query contain no `#`; the path and params contain no `?`; the params contain no `/`; without `#` there is no fragment |
| `UrlParse.SplitParams` | static_redirects/utils.py:42 | `_splitparams`: the params hold no `/`, and the path and params, with the `;` between them when there are params, give back the input |
| `UrlParse.Unparse` | static_redirects/utils.py:62-69 | the path comes first, followed by `;`, `?` or nothing; the path alone is the result exactly when params and query are both empty |
| `UrlParse.RootedIsRelative` | static_redirects/middleware.py:37 | a path starting with one `/` and free of tab, CR and LF is in `UrlParse.Relative`, the class of inputs on which `Parse` agrees with `urlparse` |
| `UrlParse.ParseUnparse` | static_redirects/utils.py:62-69 | reassembling `path[;params][?query]` and parsing it again gives back the same three parts and no fragment |
| `UrlParse.ParseFragment` | static_redirects/utils.py:42-45 | appending `#fragment` changes only the fragment |
| `Normalise.AdjustPath` | static_redirects/utils.py:44-50 | the result is never empty and starts with `/` |
| `Normalise.AdjustPathShape` | static_redirects/utils.py:44-50 | the result is the path with at most a `/` added in front and one trailing `/` removed; a path already starting and not ending with `/` is kept verbatim; a longer path ending in `/` loses exactly one `/` |
| `Normalise.SortedComponents` | static_redirects/utils.py:52-60 | the result's components are sorted and are a permutation of the input's; the result is empty exactly when the input is |
| `Normalise.SortedComponentsPermutation` | static_redirects/utils.py:53-60 | two inputs whose components are permutations of each other sort to the same string |
| `Normalise.NormalisePath` | static_redirects/utils.py:34-69 | every key, even of an empty or blank input, starts with `/` |
| `NormaliseFacts.IgnoresPadding` | static_redirects/utils.py:38-39 | white space added around an input does not change its key |
| `NormaliseFacts.OnlyPathWithoutParamsOrQuery` | static_redirects/utils.py:62-69 | the key is exactly the adjusted path if and only if the input has neither params nor a query |
| `NormaliseFacts.PathComesFirst` | static_redirects/utils.py:44-69 | the key begins with the input's adjusted path, followed by `;`, `?` or nothing, so case and characters of the path are kept |
| `NormaliseFacts.PlainPath` | static_redirects/utils.py:42-50 | a trimmed input with no `#`, `?` or `;` normalises to its adjusted path |
| `NormaliseFacts.QueryOrderIrrelevant` | static_redirects/utils.py:57-60 | reordering the `&`-separated query components does not change the key |
| `NormaliseFacts.QueryPart` | static_redirects/utils.py:58-59 | the query of `path?q1&...&qn` is read back as exactly `q1`, ..., `qn` |
| `NormaliseFacts.ParamOrderIrrelevant` | static_redirects/utils.py:52-55 | reordering the `;`-separated params does not change the key, with or without a query after them |
| `NormaliseFacts.ParamsPart` | static_redirects/utils.py:53-54 | the params of `path;p1;...;pn` or `path;p1;...;pn?q` are read back as exactly `p1`, ..., `pn`, with the path and query unchanged |
| `NormaliseFacts.FragmentIgnored` | static_redirects/utils.py:42-58 | on trimmed input, appending `#fragment` does not change the key |
| `NormaliseFacts.TrailingSlashRemoved` | static_redirects/utils.py:49-50 | `/a/` normalises to `/a` |
| `NormaliseFacts.RootKept` | static_redirects/utils.py:49 | `/` stays `/` |
| `NormaliseFacts.EmptyIsRoot` | static_redirects/utils.py:46-47 | the empty string normalises to `/` |
| `NormaliseFacts.LeadingSlashAdded` | static_redirects/utils.py:46-47 | `a/b` normalises to `/a/b` |
| `NormaliseFacts.OneSlashPerPass` | static_redirects/utils.py:49-50 | `/a//` normalises to `/a/`: only one trailing `/` goes |
| `NormaliseFacts.NotIdempotent` | static_redirects/utils.py:34-69 | normalising `/a//` twice differs from normalising it once |
| `NormaliseFacts.QueryOrderNeedsTrim` | static_redirects/utils.py:39-60 | on untrimmed input the query order matters: `/a?x& ` and `/a? &x` have different keys |
| `NormaliseFacts.FragmentNeedsTrim` | static_redirects/utils.py:39-45 | on untrimmed input the fragment matters: `/a #f` and `/a ` have different keys |
| `NormaliseFacts.ParamOrderNeedsTrim` | static_redirects/utils.py:39-55 | on untrimmed input the params order matters: `/a;x; ` and `/a; ;x` have different keys |
| `NormaliseFacts.QueryKeyIs` | static_redirects/utils.py:45-68 | the key of a trimmed `path?q1&...&qn` is the adjusted path, `?` and the sorted components |
| `NormaliseFacts.ParamsKeyIs` | static_redirects/utils.py:45-64 | the key of a trimmed `path;p1;...;pn` is the adjusted path, `;` and the sorted params |
| `NormaliseFacts.TrailingSlashCollides` | static_redirects/utils.py:49-50 | a rooted plain path and the same path with a trailing `/` have the same key, the path itself |
| `NormaliseFacts.CaseKept` | static_redirects/utils.py:45-50 | `/Hello` and `/hello` have different keys |
| `NormaliseFacts.NonAsciiKept` | static_redirects/utils.py:45-50 | a path with a non-ASCII letter is its own key |
| `NormaliseFacts.ReparsedKey` | static_redirects/utils.py:42-69 | parsing a key again gives the adjusted path of the input, when that path has no `;` |
| `NormaliseFacts.KeepsRelative` | static_redirects/utils.py:38-69 | a key of an input the parser models faithfully is again such an input |
| `NormaliseFacts.KeyAvoids` | static_redirects/utils.py:42-69 | the key contains no character that the stripped input lacks, apart from `/`, `;`, `&` and `?` |
| `Entries.StrToBool` | static_redirects/utils.py:72-80 | false exactly for `""`, `"0"` and `"false"` in any ASCII letter case; true for every other string |
| `Entries.ReadEntry` | static_redirect/middleware.py:29-43 | a CSV row fails with `IndexError` exactly when it has fewer than two fields, else gives source, destination and the third column coerced, false when missing; a JSON object fails with `KeyError` exactly when `source` or `destination` is missing, and `is_permanent` defaults to false |
| `Entries.ToRedirect` | static_redirects/utils.py:90-104 | a CSV row fails with `IndexError` exactly when it has fewer than two fields, else gives its first column normalised, its second column, and its third column coerced or false when missing; a JSON object fails with `KeyError` exactly when `source` or `destination` is missing, else gives the source normalised, the destination, and `is_permanent` or false |
| `Entries.AgreesWithLegacy` | static_redirects/utils.py:96-104 | the newer conversion fails exactly when the older one does, differs from it only in the source, and agrees with it exactly on entries whose source is already its own key |
| `Entries.ConvertAll` | static_redirects/utils.py:83-104 | for any per-row conversion: succeeds exactly when every row converts, then one result per row in order; otherwise the error of the first row that does not |
| `Entries.ReadAll` | static_redirect/middleware.py:25-43 | every entry read in order, or the error of the first entry that cannot be read |
| `Entries.GetRedirects` | static_redirects/utils.py:83-104 | succeeds exactly when every entry converts; then one redirect per entry, in order; otherwise the error of the first bad entry |
| `Entries.GetRedirectsAll` | static_redirects/utils.py:83-104 | when every entry converts to a given redirect, those redirects in order are the result |
| `RedirectTable.Build` | static_redirects/middleware.py:21-24 | the table's keys are exactly the redirects' sources |
| `RedirectTable.BuildLastWins` | static_redirects/middleware.py:21-24 | the table's keys are exactly the sources, and each key maps to the destination and permanence of the last redirect with that source |
| `RedirectTable.ConvertedKeys` | static_redirects/middleware.py:21-24 | the keys of a table built from converted rows are exactly the rows' sources |
| `RedirectTable.ConvertedLastWins` | static_redirects/middleware.py:21-24 | in a table built from converted rows, the last row for a source decides its destination and permanence |
| `RedirectTable.BuildFromRedirects` | static_redirects/middleware.py:21-24 | every entry of the table comes from the last redirect for its key |
| `RedirectTable.Load` | static_redirects/middleware.py:26-27 | `MiddlewareNotUsed` exactly when there are no redirects, otherwise the built table |
| `RedirectTable.FirstHit` | static_redirects/middleware.py:29-45 | none exactly when no key is in the table; otherwise the entry of the first key present |
| `Middleware.Init` | static_redirects/middleware.py:16-27 | `MiddlewareNotUsed` exactly for no entries; a bad entry exactly when some entry does not convert, and then the first bad entry's error |
| `Middleware.InitKeys` | static_redirects/middleware.py:21-24 | the table's keys are exactly the normalised sources of the entries |
| `Middleware.InitLastWins` | static_redirects/middleware.py:21-24 | the last entry for a normalised source decides its destination and permanence |
| `Middleware.StrippedKey` | static_redirects/middleware.py:37 | the fallback key is a prefix of the key without `?` or `#` |
| `Middleware.Lookup` | static_redirects/middleware.py:32-45 | none exactly when neither the key nor its stripped form is in the table; a present key wins over its stripped form |
| `Middleware.LookupFirstHit` | static_redirects/middleware.py:37-43 | the `path != path_without_query` guard changes nothing: the lookup is the first hit over the key and its stripped form |
| `Middleware.Resolve` | static_redirects/middleware.py:29-45 | the result is the first hit over the normalised full path and its stripped form, so the host and the bare path are never consulted |
| `Middleware.QueryFallback` | static_redirects/middleware.py:30-43 | when the path part of the full path has no `;`, the fallback key is that path adjusted, with params and query dropped |
| `Middleware.QueryDropped` | static_redirects/middleware.py:37-43 | a request `path?query` whose own key is not configured gets exactly the redirect configured for `path`, if any |
| `Middleware.SecondKey` | static_redirects/middleware.py:37-43 | when the first key misses, the second decides |
| `Middleware.TrailingSlashMatches` | static_redirects/middleware.py:30-35 | a request for a configured path with a trailing `/` reaches that path's redirect |
| `LegacyMiddleware.Init` | static_redirect/middleware.py:16-46 | `MiddlewareNotUsed` exactly for no entries; a bad entry exactly when some entry cannot be read, and then the first bad entry's error |
| `LegacyMiddleware.InitKeys` | static_redirect/middleware.py:31-43 | the table's keys are exactly the sources as written |
| `LegacyMiddleware.InitLastWins` | static_redirect/middleware.py:37-43 | the last entry for a source decides its destination and permanence |
| `LegacyMiddleware.Resolve` | static_redirect/middleware.py:48-57 | none exactly when neither the full path nor the path is a key; a present full path wins |
| `LegacyMiddleware.ResolveFirstHit` | static_redirect/middleware.py:51-55 | the `full_path != request.path` guard changes nothing: the result is the first hit over the full path and the path |
| `LegacyMiddleware.TestRedirects` | tests/tests.py:5-18 | with `/foo` and `/foo-permanent` configured, `/foo` and `/foo?something=else` reach `/bar` temporarily and `/foo-permanent` reaches it permanently |
| `LegacyMiddleware.SourcesVerbatim` | static_redirect/middleware.py:37 | a source `/foo/` does not match a request for `/foo` |
| `Checks.CountTwice` | static_redirects/checks.py:16 | an element occurs more than once exactly when it occurs at two positions |
| `Checks.SourceList` | static_redirects/checks.py:11-14 | one source per redirect, in order |
| `Checks.Distinct` | static_redirects/checks.py:16 | every element of the input appears exactly once, and nothing else does |
| `Checks.Repeated` | static_redirects/checks.py:16 | keeps exactly the elements that occur more than once in the sources |
| `Checks.DuplicateSources` | static_redirects/checks.py:16-22 | sorted, and each source occurring more than once appears exactly once, nothing else |
| `Checks.Warnings` | static_redirects/checks.py:18-24 | at most one warning, with the fixed message and id `static_redirects.W001` |
| `Checks.WarningNamesDuplicates` | static_redirects/checks.py:16-24 | no warning exactly when no source occurs twice; the warning lists, sorted, exactly the sources occurring twice, each once |
| `Checks.UniqueSourcesNoWarning` | static_redirects/checks.py:13-24 | no warning exactly when all redirect sources are pairwise different |
| `Checks.DuplicateRedirectsCheck` | static_redirects/checks.py:10-24 | fails exactly when some entry does not convert; otherwise the warnings for the converted redirects |
| `Checks.PairDuplicates` | static_redirects/checks.py:16-22 | a source listed twice is the only duplicate reported |
| `Checks.SameSourceTwice` | static_redirects/checks.py:16-24 | two redirects with one source give one warning naming that source |
| `Checks.TrailingSlashDuplicate` | static_redirects/checks.py:13-24 | rows for `p/` and `p` are reported as the duplicate `p` |

## Left out

- File discovery and reading (`get_redirect_files`, `Path`, `open`, `csv.reader`, `json.load`, the suffix checks): entries arrive already parsed.
- The full `urlparse` grammar is not modelled:
  - scheme detection;
  - `//netloc`;
  - the removal of tab, CR and LF, and of leading control characters, done by `urlsplit`.
  `UrlParse.Relative` names the inputs on which the model agrees with it.
- Unicode case mapping: `str.lower` is modelled on ASCII letters only. `str.strip` uses Python's white-space set, written out.
- JSON values that are not strings (sources, destinations) or not booleans (`is_permanent`). Python's truthiness of such values is not modelled.
- The key name carried by a `KeyError`. The older middleware evaluates `entry["destination"]` before `entry["source"]`, the newer one the reverse. Both raise the same kind of error, so one `EntryError` serves both.
- `BooleanField.to_python` in the older middleware is Django code. It applies the same rule as `str_to_bool`, whose model `Entries.StrToBool` serves both.
- Django responses and status codes (`redirect`, `get_response`), and how `get_full_path()` is built from `path` and the query string.
- `get_text_list` rendering of the hint: `Checks.Warning` carries the list that the hint renders, not the text.
- Auto-reload on file changes (static_redirects/signal_handlers.py) and app and check registration (static_redirects/apps.py).
- The code has no host-qualified sources, and normalisation is not idempotent:
  - no lookup reads the host;
  - `/a//` normalises to `/a/` and then to `/a`.
  The model follows the code: `Middleware.Resolve` and `NormaliseFacts.NotIdempotent`.
- NormaliseFacts.QueryOrderIrrelevant: stated for inputs already trimmed and with a query present. The trim is needed, because the code is not order-invariant on untrimmed input: `/a?x& ` loses its trailing space before the split and normalises to `/a?&x`, while its reordering `/a? &x` keeps it and normalises to itself (`NormaliseFacts.QueryOrderNeedsTrim`).
- NormaliseFacts.ParamOrderIrrelevant: stated for inputs already trimmed, with params present and a path free of `;`. The trim is needed for the same reason as for the query: `/a;x; ` normalises to `/a;;x`, while its reordering `/a; ;x` normalises to itself (`NormaliseFacts.ParamOrderNeedsTrim`).
- NormaliseFacts.FragmentIgnored: stated for trimmed input only. The code strips before it splits off the fragment, so white space before `#` stays in the path: `/a #f` normalises to `/a `, while `/a ` normalises to `/a` (`NormaliseFacts.FragmentNeedsTrim`).
- Middleware.QueryFallback: requires the path part of the full path to be free of `;`. Otherwise the key can re-parse differently. For example, `/x;y/` normalises to `/x;y`, and parsing that again splits off `y` as params, leaving `/x`.

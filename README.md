# maas-api client core in Dafny

This project models the core of the Python MAAS API client
(`maas_api/client.py`). The client reads the server's description document
and binds one handler per resource, under a normalised command name. Each
handler exposes its actions as callables. A call routes its keyword
arguments into a URL, a query and a multipart body, then decodes the reply.
On top of this the client keeps a cache of machine records keyed by
`system_id`, and searches it with dotted-key filter specs.

Modules:

- `Values` (values.dfy): decoded JSON and keyword values, Python
  truthiness, hashability, `dict.get`.
- `Strings` (strings.dfy): `join`, one-character `split`, `lstrip`/`rstrip`,
  `startswith`/`endswith`.
- `Naming`, `NamingExamples` (naming.dfy): `handler_command_name` and the
  camel-case word regex.
- `Tables` (tables.dfy): a dictionary filled entry by entry, last write wins.
- `Actions` (actions.dfy): `convert_files_arg`, URI formatting,
  `Action.__call__` (as the pure `Prepare`/`Invoke` and the imperative
  `Call`), `Handler.__init__`.
- `CallProperties` (call_properties.dfy): what a call does with its
  keyword arguments.
- `Filters` (filters.dfy): `_simple_key_iter`, `_key_spec_iter`,
  `_make_key_filter`, the predicate choice and AND composition of
  `find_machine_ids`.
- `MaasClient` (client.dfy): the `Client` class, its handler table
  (`load_resources`) and machine cache (`reload_cache`, `find_machine_ids`,
  `find_machines`).

Python values are modelled as the datatype `Value`: None, bool, int, str,
list, tuple and dict with string keys. The session is a parameter
`server: Request -> Response`. The records a server read returns are a
parameter `records: seq<Value>`. `str(v)` is kept symbolic: a URL part
`Inserted(v)` and a form field `NoneAndStr(v)` carry the value itself.

On these points the model follows the code as written:

- On a key clash between a keyword argument and `args`, the URL takes the
  value from `args` (`url_args.update(args)`, lines 70-71).
- `_make_key_filter` applies the predicate to the first leaf only (line
  185). So `{"tags": [{"name": "x"}, {"name": "y"}]}` is not taken by
  `{"tags.name": "y"}`, although the doc comment at line 179 says list
  entries are treated as "any".
- `handler_command_name` joins with underscores (line 22), not the hyphens
  its docstring mentions.
- An empty filter spec returns the cache keys as a list (line 310). The
  model returns them as a set with the same elements.
- A caller's own `"op"` key in the query replaces the action's op tag
  (`params.update`, line 93).

## Model

| member | source | states |
|---|---|---|
| Naming.HandlerCommandName | maas_api/client.py:13-22 | the result uses only `[a-z0-9_]`, never starts or ends with `_`, and never has `__` |
| Naming.CamelWords | maas_api/client.py:9 | `re.findall` of the camel-case pattern; specified by `Naming.CamelWordsAreWords`, `Naming.CamelWordsCoverWordChars`, `Naming.CamelWordsCapitalised`, `Naming.CamelWordsUpperLower` and `Naming.CamelWordsUpperRun` |
| Naming.CamelWordsAreWords | maas_api/client.py:9 | every word the camel-case regex finds is a non-empty run of ASCII letters and digits |
| Naming.CamelWordsCoverWordChars | maas_api/client.py:9 | the words found, concatenated, are exactly the letters and digits of the input, in order: the regex drops only other characters |
| Naming.CamelWordsCapitalised | maas_api/client.py:9 | a capitalised word followed by text that does not start with a lower-case letter or a digit is found as one word, then the words of the rest |
| Naming.CommandWords | maas_api/client.py:19-21 | the words lowered with every "handler" dropped; specified by `Naming.CommandWordsAppend` and `Naming.CommandWordsSingle`, which together fix it on every input |
| Naming.CamelWordsUpperLower | maas_api/client.py:9 | an upper-case run followed by a lower-case or digit run and then a character that cannot continue it is one word: the first alternative takes the capitals together with the run after them |
| Naming.CamelWordsUpperRun | maas_api/client.py:9 | a non-empty upper-case run followed by no letter or digit is one word, from the second alternative |
| Naming.CommandWordsAppend | maas_api/client.py:20-21 | the parts of a concatenation of word lists are the parts of each list, in order |
| Naming.CommandWordsSingle | maas_api/client.py:20-21 | one word gives its lowered form, or nothing when that is "handler" |
| Naming.CommandWordsAreLowerWords | maas_api/client.py:20-21 | after lowercasing and dropping "handler", every part is a non-empty lower-case word |
| Naming.JoinIsCommandName | maas_api/client.py:22 | joining non-empty lower-case words with `_` gives a well-formed command name |
| Naming.NormalisedNameIsFixed | maas_api/client.py:13-22 | a command name made of lower-case words other than "handler" normalises to itself |
| Naming.HandlerCommandNameParts | maas_api/client.py:19-22 | the words of the result are the words of the input, lowercased, without "handler" |
| Naming.HandlerCommandNameIdempotent | maas_api/client.py:13-22 | normalising twice equals normalising once |
| NamingExamples.CamelWordsOfCapitalised | maas_api/client.py:9 | a string made of capitalised words splits back into those words |
| NamingExamples.MachinesHandlerExample | maas_api/client.py:13-22 | "MachinesHandler" normalises to "machines" |
| NamingExamples.NodeGroupInterfacesHandlerExample | maas_api/client.py:13-22 | "NodeGroupInterfacesHandler" normalises to "node_group_interfaces" |
| NamingExamples.IPRangesHandlerExample | maas_api/client.py:13-22 | "IPRangesHandler" splits into "IPRanges" and "Handler" and normalises to "ipranges" |
| Strings.Split | maas_api/client.py:181 | `split('.')` gives at least one piece, no piece holds a dot, and the pieces joined with dots give the input back |
| Strings.SplitJoin | maas_api/client.py:181 | splitting a dot-join of dot-free pieces gives the pieces back |
| Strings.LStrip | maas_api/client.py:278 | the result is the input less a run of leading stars, and does not itself start with a star |
| Strings.RStrip | maas_api/client.py:281 | the result is the input less a run of trailing stars, and does not itself end with a star |
| Tables.OverwriteLastWins | maas_api/client.py:124-126 | after assigning entries in order, a key is present iff it was before or some entry names it; its value is that of the last entry naming it, or the old value when none does |
| Tables.OverwriteCons | maas_api/client.py:240-243 | assigning the first entry and then the rest is the same as assigning all of them |
| Actions.Format | maas_api/client.py:72 | formatting succeeds iff every placeholder has a value; then each text part is kept and each placeholder is replaced by its value; otherwise the error names a missing placeholder |
| Actions.ConvertFilesArg | maas_api/client.py:24-36 | exactly the input keys are kept; a list or tuple value passes unchanged and any other value `v` becomes `(None, str(v))` |
| Actions.DeleteReserved | maas_api/client.py:74-78 | the loop over the reserved params removes exactly those names from the keyword arguments and from `args`, and nothing else |
| Actions.Prepare | maas_api/client.py:64-99 | the request a call builds, or the error it raises first, with the caller's `args` afterwards; specified by the `CallProperties` rows |
| Actions.Route | maas_api/client.py:80-102 | the verb-specific routing, ending in `Actions.Send`, which rejects keywords `Session.request` does not take; specified by `CallProperties.QueryVerbRouting`, `CallProperties.PostRouting`, `CallProperties.OtherVerbRouting`, `CallProperties.ParamsKeywordClashes`, `CallProperties.PositionalKeywordClashes` and `CallProperties.UnknownKeywordRejected` |
| Actions.Send | maas_api/client.py:101-103 | the request is made iff every keyword left is one of the options `Session.request` takes (`data`, `headers`, `cookies`, `files`, `auth`, `timeout`, `allow_redirects`, `proxies`, `hooks`, `stream`, `verify`, `cert`, `json`); a leftover `params` is the duplicate-`params` error, else a `method` or `url` keyword is the positional clash, else any other keyword is `UnexpectedKeyword` |
| Actions.Decode | maas_api/client.py:104-109 | reading the response; specified by `CallProperties.InvokeDecodesResponse` |
| Actions.Invoke | maas_api/client.py:51-109 | the whole call with the session as a parameter; `Actions.Call` is proved equal to it, and `CallProperties.InvokeDecodesResponse` and `CallProperties.MissingPlaceholderRaisesBeforeRequest` state what it returns; no request is made when a keyword left over is not a `Session.request` option (`CallProperties.UnknownKeywordRejected`) |
| Actions.Call | maas_api/client.py:51-109 | the imperative call (key deletions, pop, the keyword checks of `Session.request`, request, decoding) gives the reply `Invoke` specifies, and leaves the caller's `args` as `Prepare` specifies |
| Actions.ActionTableLastWins | maas_api/client.py:124-126 | a handler binds exactly the action names declared, each to the last action declared under it |
| Actions.NewHandler | maas_api/client.py:115-126 | the handler keeps the template, reserved params, path and doc, and its action table is the declared actions bound in order |
| CallProperties.UrlTakesArgsOverKeywords | maas_api/client.py:65-72 | each placeholder takes its value from `args` when `args` has it and from the other keywords otherwise; formatting fails iff some placeholder is in neither |
| CallProperties.MissingPlaceholderRaisesBeforeRequest | maas_api/client.py:65-72 | a placeholder missing from both raises whatever the session does, and leaves the caller's `args` untouched |
| CallProperties.ReservedParamsDeleted | maas_api/client.py:74-78 | the request carries the original keyword arguments, unchanged, less `args`/`arguments`, the reserved params and the keyword the verb consumes; `args` loses exactly the reserved params |
| CallProperties.QueryVerbRouting | maas_api/client.py:80-95 | for GET/DELETE the query is the `params` keyword or else the remaining `args`; with an op tag it is `{"op": tag}` updated with that mapping, so the caller's "op" wins; no mapping is converted to a multipart body, and a caller's `files` keyword passes through unchanged |
| CallProperties.QueryVerbRejectsNonMapping | maas_api/client.py:91-93 | for GET/DELETE with an op tag, a `params` keyword that is not a mapping raises |
| CallProperties.PostRouting | maas_api/client.py:97-99 | for POST the multipart fields are `convert_files_arg` of the `files` keyword or else of the remaining `args`, and the query is only the op tag |
| CallProperties.OtherVerbRouting | maas_api/client.py:80-102 | for any other verb the query is only the op tag, the keyword arguments (a `files` keyword among them) pass through unchanged with no multipart conversion, and the remaining `args` are not sent at all |
| CallProperties.ParamsKeywordClashes | maas_api/client.py:97-103 | outside GET/DELETE, a `params` keyword that is not reserved clashes with the call's own `params=`, once the URL is built and, for POST, the files mapping converted |
| CallProperties.PositionalKeywordClashes | maas_api/client.py:101-103 | a `method` or `url` keyword that is not reserved collides with the positional arguments of `session.request`, once every earlier step succeeds |
| CallProperties.UnknownKeywordRejected | maas_api/client.py:101-103 | a keyword that is neither a URL value consumed as reserved, nor `params`, nor a `Session.request` option reaches `session.request` and is rejected as `UnexpectedKeyword`, once every earlier step succeeds |
| CallProperties.UnknownKeywordExample | maas_api/client.py:101-103 | a GET whose URI has no `{hostname}` placeholder, called with `hostname="x"`, is rejected as `UnexpectedKeyword` |
| CallProperties.InvokeDecodesResponse | maas_api/client.py:101-109 | an ok reply gives the JSON body, or the status code for DELETE; a reply that is not ok raises with the body text |
| CallProperties.ArgsWinExample | maas_api/client.py:70-72 | with `id="A"` and `args={"id": "B", "extra": "C"}` the URL holds "B" and the GET query is `{"extra": "C"}` |
| CallProperties.OpQueryExample | maas_api/client.py:80-95 | a GET with op "list" and `params={"x": 1}` queries `{"op": "list", "x": 1}` |
| CallProperties.FormFieldsExample | maas_api/client.py:24-36 | `{"name": "bob", "tags": ["a", "b"]}` converts to `{"name": (None, "bob"), "tags": ["a", "b"]}` |
| Filters.SimpleKeyIter | maas_api/client.py:135-146 | a non-dict gives nothing; otherwise the value under the key (None when absent), or its elements when it is a list or tuple |
| Filters.KeySpecIter | maas_api/client.py:149-168 | the leaves of a dotted path, in order; specified by `Filters.KeySpecIterLeaves`, `Filters.KeySpecIterMissing`, `Filters.KeySpecIterList` and `Filters.KeyFilterFirstCandidate` |
| Filters.Expand | maas_api/client.py:160-168 | the leaves reached from each truthy candidate, in candidate order; specified by `Filters.ExpandMembership`, `Filters.ExpandAppend` and `Filters.ExpandFirstLeaf` |
| Filters.ExpandAppend | maas_api/client.py:160-168 | expanding a concatenation of candidates expands each part in turn, so leaves keep their candidates' order |
| Filters.ExpandFirstLeaf | maas_api/client.py:160-168 | the first leaf comes from the first truthy candidate that yields any leaf |
| Filters.KeyFilterFirstCandidate | maas_api/client.py:178-187 | on a longer path the filter decides on the first leaf below the first truthy candidate that yields any |
| Filters.ExpandMembership | maas_api/client.py:160-168 | a value is yielded for the rest of the path iff some truthy candidate yields it |
| Filters.KeySpecIterLeaves | maas_api/client.py:149-168 | a one-key path yields what sits under the key; a longer path yields exactly the leaves reached from a truthy candidate under its first key, so falsy intermediates are pruned |
| Filters.KeySpecIterMissing | maas_api/client.py:135-146 | a non-dict yields nothing; a missing first key yields None on a one-key path and nothing on a longer one |
| Filters.KeySpecIterList | maas_api/client.py:141-143 | a list value is expanded into its elements, in order |
| Filters.KeyFilter | maas_api/client.py:178-187 | None exactly when the path yields no leaf; otherwise the predicate applied to the first leaf only: true iff the first leaf is accepted, false iff it is rejected, whatever the later leaves |
| Filters.FirstLeafDecides | maas_api/client.py:178-187 | only the first leaf counts: the "tags" example is taken for "x" and not for "y", though "y" is among its leaves |
| Filters.DottedKeyPath | maas_api/client.py:181 | "tags.name" is the path ["tags", "name"] |
| Filters.ChoosePredicate | maas_api/client.py:271-290 | the intended predicate choice; specified by `Filters.SuffixGlobAccepts`, `Filters.PrefixGlobAccepts` and `Filters.PlainValueAccepts` |
| Filters.MatchersAsWritten | maas_api/client.py:271-290 | the predicate loop as written, raising on an unbound `p`; specified by `Filters.MatchersAsWrittenAgree` and `Filters.SuffixGlobAloneRaises` |
| Filters.SuffixGlobAccepts | maas_api/client.py:277-279 | `"*s"` accepts exactly the strings that are something followed by `s` less its leading stars |
| Filters.PrefixGlobAccepts | maas_api/client.py:280-282 | `"p*"` accepts exactly the strings that are `p` less its trailing stars followed by something |
| Filters.PlainValueAccepts | maas_api/client.py:271-290 | a value that is not a glob and not a bool is an equality test; `True`/`False` test the truth of the leaf |
| Filters.MatchersAsWrittenAgree | maas_api/client.py:271-290 | the predicate loop as written succeeds iff every suffix filter comes after a prefix filter, and then builds the intended predicates |
| Filters.SuffixGlobAloneRaises | maas_api/client.py:277-279 | a search whose only filter is a suffix glob raises as written; the intended predicate is the suffix test |
| Filters.MatchIds | maas_api/client.py:260-312 | the ids a search returns; specified by `Filters.MatchIdsMeaning` and `Filters.MatchIdsConjoin`, and computed by `Filters.CollectMatches` |
| Filters.MatchIdsMeaning | maas_api/client.py:260-310 | the result is a subset of the cached ids, and holds an id iff every filter takes its record |
| Filters.MatchIdsConjoin | maas_api/client.py:301-306 | splitting a spec in two intersects the two results |
| Filters.FilterCache | maas_api/client.py:294-297 | the loop over the cache finds exactly the ids whose records the key filter takes |
| Filters.FoundForEach | maas_api/client.py:262-299 | one set per filter, in order, each holding exactly the ids that filter takes |
| Filters.IntersectAll | maas_api/client.py:301-306 | the fold holds an id iff every set in the list holds it |
| Filters.CollectMatches | maas_api/client.py:260-310 | the per-key loops and the intersection fold give `MatchIds`: every id for an empty spec, else the ids every filter takes |
| MaasClient.HandlerTable | maas_api/client.py:216-223 | the handlers a description yields; specified by `MaasClient.HandlerTableKeys` and `MaasClient.HandlerTableLastWins` |
| MaasClient.HandlerEntries | maas_api/client.py:219-223 | every handler entry is bound under its own name, and that name is a well-formed command name |
| MaasClient.HandlerEntriesNames | maas_api/client.py:219-223 | a name gets a handler entry iff some resource with an `auth` part normalises to it |
| MaasClient.HandlerTableKeys | maas_api/client.py:216-223 | the client binds exactly the normalised names of resources with `auth`, each a command name, each handler under its own name |
| MaasClient.HandlerTableLastWins | maas_api/client.py:216-223 | a later resource whose name normalises to the same command name replaces an earlier one: the name is bound to the handler built from the `auth` part of the last such resource |
| MaasClient.LoadLastResourceWins | maas_api/client.py:219-223 | loading the resources in order over any table leaves under a name the handler of the last resource yielding it |
| MaasClient.Reload | maas_api/client.py:234-243 | the refresh loop, record by record; specified by `MaasClient.ReloadIsOverwrite`, `MaasClient.ReloadStopsAt` and `MaasClient.ReloadLastRecordWins` |
| MaasClient.IdEntries | maas_api/client.py:240-243 | the `(id, record)` assignments of the records with a truthy id, in read order; specified by `MaasClient.IdEntriesKeyed`, `MaasClient.ReloadIsOverwrite` and `MaasClient.ReloadLastRecordWins` |
| MaasClient.IdEntriesKeyed | maas_api/client.py:240-243 | every `(id, record)` assignment stores a record of the read under that record's own truthy `system_id` |
| MaasClient.ReloadIsOverwrite | maas_api/client.py:240-243 | a refresh that raises nothing assigns each record with a truthy id under that id, in order, and drops the others |
| MaasClient.ReloadStopsAt | maas_api/client.py:240-243 | a refresh that meets a record without `get` or with an unhashable id raises, keeping what the earlier records stored |
| MaasClient.ReloadLastRecordWins | maas_api/client.py:234-243 | an id is cached iff it was before or some record carries it; the last such record is cached; other entries are unchanged |
| MaasClient.Client.constructor | maas_api/client.py:195-214 | a new client has the handler table of the description and an empty cache |
| MaasClient.Client.LoadResources | maas_api/client.py:216-223 | the handlers are the old ones overwritten by each resource with `auth`, in order; the cache is unchanged |
| MaasClient.Client.ReloadCache | maas_api/client.py:228-243 | the cache becomes the refresh of the old cache, or of an empty one with `reset`; the handlers are unchanged |
| MaasClient.Client.FindMachineIds | maas_api/client.py:246-312 | an optional refresh, then `MatchIds` of the cache; a refresh error ends the search |
| MaasClient.Client.FindMachines | maas_api/client.py:314-327 | one cached record per returned id, each id visited once |

## Left out

- HTTP and OAuth (`OAuth1Session`, `session.get`, `session.request`) are
  network I/O. The session is a function parameter, and the description
  document and server reads are given values.
- `response.json()` is a foreign call. The decoded body is part of the
  abstract response.
- `str(v)` of arbitrary objects is kept symbolic (see above).
- Only `{name}` placeholders of `str.format` are modelled: no format specs,
  `{{` escapes, or attribute or index access.
- The `__doc__` strings (lines 48, 121-123) are cosmetic.
- The `api_key.split(":")` and `url.rstrip('/')` startup plumbing is left
  out: the constructor takes the description already fetched.
- Python numeric equality (`True == 1`, int against float) and floats are
  left out. Equality tests compare `Value`s structurally.
- Dynamic `setattr` and collisions with the client's own attributes are
  left out. Handlers and actions live in explicit maps.
- The unused `what` parameter of `reload_cache` is left out.
- Extra keyword filters passed to `reload_cache` are left out. They only
  shape the server read, which is a parameter.
- `find_machine_iter` is the same generator as `find_machines_iter` under
  another name. `find_machines` forces it into a list, and
  `MaasClient.Client.FindMachines` models both.
- Mappings given as sequences of pairs, which `dict.update` accepts, are
  treated as errors: an `args` that is not a dictionary is `ArgsNotMapping`
  (Python's `url_args.update(args)` takes a list of pairs, and the list then
  becomes the GET/DELETE query), and a non-dictionary `params` merged into
  the op tag is `ParamsNotMapping`.
- The description is typed (`ResourceDesc`, `AuthDesc`), so the `KeyError`
  of a description with missing fields is not modelled. An empty `auth`
  part is `None`.
- A filter spec is the sequence of its items in insertion order. A Python
  dict has distinct keys. The model intersects over every item, which is
  the same set for distinct keys.
- The intersection fold starts from an arbitrary key's set (line 303). The
  model starts from the first one; the intersection is the same.
- Actions.Prepare, Actions.Call: the caller's `args` dictionary is a value,
  so aliasing is not modelled. In Python `del args[p]` mutates that very
  dictionary, and a `params` or `files` keyword that is the same object
  sees the deletion; the model's query or files still hold the reserved
  keys.
- Actions.Call: a duplicate `params` keyword outside GET/DELETE is modelled
  as the error `DuplicateParams`, and a `method` or `url` keyword as
  `PositionalClash`, and any other keyword that `Session.request` does not
  take as `UnexpectedKeyword`, where Python raises `TypeError` for all
  three; none is excluded by a precondition. When `method` and `url` both
  clash, the model does not say which one Python names, and when a
  positional clash and an unexpected keyword come together, Python reports
  whichever keyword comes first in the call while the model always reports
  `PositionalClash`. The set of options is that of the `requests` library's
  `Session.request`, which the OAuth session inherits; that library is not
  part of this model.
- MaasClient.Client.ReloadCache: the server read is the parameter
  `records`, which cannot fail. In Python a failing `self.machines.read`
  (line 239) raises after `reset` has already emptied the cache (line 235),
  leaving it empty; that path is not modelled.
- MaasClient.Client.FindMachineIds: returns a set also for an empty spec,
  where the source returns a list of the same keys.

## Findings

| source | as written | input that shows it | evidently intended | confidence | as-written member | corrected member |
|---|---|---|---|---|---|---|
| maas_api/client.py:279 | the suffix-glob lambda takes the default `p=p`, and `p` is bound only by the prefix branch at line 281 | `find_machine_ids({"hostname": "*-01"})` raises `UnboundLocalError` before any record is examined | a suffix test `isinstance(x, str) and x.endswith(s)`, with no use of `p` | high; not executed | Filters.MatchersAsWritten (Filters.SuffixGlobAloneRaises) | Filters.ChoosePredicate (Filters.SuffixGlobAccepts, Filters.MatchersAsWrittenAgree) |

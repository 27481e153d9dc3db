# silva.app.forest: virtual hosting for Silva sites

silva.app.forest lets a front-end proxy serve parts of a Silva site under several external
host names. A forest service on the site holds virtual hosts. Each host has a canonical URL, aliases
and rewrite rules. A rule maps an external path (`original`) to an internal path (`rewrite`).
Requests come in with the URL the proxy announces in the `X-VHM-Url` header. The request
plugin finds the host for that URL's origin key and the deepest rule for the request path. It
publishes the content at the rule's internal path. Outgoing URLs run the other way:
the deepest rule whose internal path covers a content gives the external URL the content is
linked under.

This project models that engine and proves its properties:

| file | module | models |
|---|---|---|
| base.dfy | Base | `Option`, `Result`, one `Error` constructor per exception the code raises |
| strings.dfy | Strings | `str.find`, `split`, `join`, `rstrip`, `lower` |
| urllib.dfy | UrlLib | Python 2.7 `urlparse.urlparse` and `urlunparse`, as a six-field `Url` record |
| wsgi.dfy | Wsgi | `split_path_info` and `traverse` of infrae.wsgi: the resolved names of a path, and a `Tree` of the paths that traverse |
| utils.dfy | Utils | `path2tuple`, `url2tuple`, and the segment trie `TupleMap` (a class whose `store` is a `Node` value reassigned by its methods) |
| csvrows.dfy | CsvRows | the rows `export_csv` writes and how `import_csv` groups rows into hosts |
| service.dfy | Service | `Rewrite` and `VirtualHost` (classes), their `prepare`, and the `by_url`/`by_path` tries |
| forest.dfy | Forest | `ForestService` (class): activation, `set_hosts`, `query`, CSV import and export; `update_hostname` |
| virtualhosting.dfy | Hosting | `VirtualHosting.__call__` (class) and `rewrite_url` |
| absoluteurl.dfy | AbsoluteUrl | `ForestURL.url` |

Imperative code stays imperative:
- `TupleMap.add`, `get` and `list` are methods with loops or recursion. They are proved against
  the specification functions `Insert`, `Lookup` and `Find`.
- `Rewrite.prepare` and `VirtualHost.prepare` change fields and tries. They are proved against
  `PrepareRule` and `HostIndex`.
- `set_hosts` is a loop. Its outcome is `Register` of the results of the prepares it ran,
  and each result is `HostIndex` of its host from the stores that host's tries held when it
  ran (`PreparedFrom`).
- `import_csv` and `export_csv` are loops. They are proved against `GroupRows` and
  `ExportRows`, and those functions carry the lemmas.

Exceptions become `Err` values. An error raised half-way through leaves the state the Python
leaves. For example, a failing `VirtualHost.prepare` keeps the rules it has already indexed.

Where the written description of the system and the code differ, the model follows the code:
- Names are not lowercased.
- The tries of a host are keyed with the canonical URL's path only. Aliases only enter the
  service's origin map.
- The inbound key is the request path reversed back into outermost-first order.
- `set_hosts` prepares the hosts it is given in place. A later error leaves those tries
  filled, and keeps only the service's own fields as they were.
- The test `test_root` (src/silva/app/forest/tests/test_virtualhosting.py:198-209) expects a
  request with header `http://localhost`, on the host `http://localhost/` whose rule is `/`
  (lines 118-123), to succeed with the path `[]`. The code
  looks the empty key up in `TupleMap.get`, whose loop never binds `index`
  (src/silva/app/forest/utils.py:55, 74), so it raises instead. The model follows the code:
  `Utils.EmptyKeyUnbound`, and `Hosting.Route` gives `Err(UnboundIndex)`.

## Model

| member | source | states |
|---|---|---|
| Wsgi.SplitPathInfo | src/silva/app/forest/utils.py:12-13 | the names it returns are never empty, `.` or `..`, and hold no `/` |
| Wsgi.SplitPathInfoRoundTrip | src/silva/app/forest/utils.py:12-13 | the path string `/a/b` of any names resolves back to exactly those names |
| Wsgi.SplitPathInfoIdempotent | src/silva/app/forest/utils.py:12-13 | resolving the path string of a resolved path gives the same names again |
| Wsgi.SplitPathInfoEscapes | src/silva/app/forest/tests/test_utils.py:34-37 | a path whose first name is `..` climbs above the root and is refused (BadRequest) |
| Wsgi.CleanResolves | src/silva/app/forest/tests/test_utils.py:21-23 | the resolution walk skips empty and `.` pieces and lets `..` pop the name before it |
| Wsgi.SplitPathInfoResolves | src/silva/app/forest/tests/test_utils.py:21-23 | `/./a//b/..` resolves to the single name `a` |
| Utils.Path2Tuple | src/silva/app/forest/utils.py:12-13 | a successful key is made of names only |
| Utils.Path2TupleRoundTrip | src/silva/app/forest/utils.py:12-13 | `path2tuple` of the path string of names gives those names back |
| Utils.KeyOfParse | src/silva/app/forest/utils.py:15-28 | refused exactly when there is a fragment, a query under `strict`, or a path that escapes the root; otherwise the scheme (`http` when there is none), then the host and the port (split at the first `:`, or `80`/`443` by scheme), then exactly the names `path2tuple` gives for the URL's path |
| Utils.Url2TupleDefaultPort | src/silva/app/forest/utils.py:19-28 | a host URL without a port gets `80`, or `443` for `https`, followed by the resolved path names; a path that escapes the root is refused |
| Utils.Url2TupleExplicitPort | src/silva/app/forest/utils.py:21-22 | an explicit port is kept as written and the host is what precedes the first `:`; a path escaping the root gives its error |
| Utils.Url2TupleNoScheme | src/silva/app/forest/utils.py:19-26 | a URL `//host/path` without a scheme is keyed as `http` with port `80` |
| Utils.Url2TupleRejectsFragment | src/silva/app/forest/utils.py:16-18 | any URL with a non-empty fragment is refused, whether or not `strict` is set |
| Utils.Lookup | src/silva/app/forest/utils.py:51-75 | the depth `get` returns never exceeds the length of the key |
| Utils.DeepestBelowIsDeepest | src/silva/app/forest/utils.py:55-67 | the fallback value is found at the depth returned, and no prefix between that depth and the end of the walk holds a value |
| Utils.LookupExactWins | src/silva/app/forest/utils.py:71-74 | a value at the whole (non-empty) key wins, with or without fallback, and reports the key's length |
| Utils.LookupMiss | src/silva/app/forest/utils.py:51-75 | without fallback a key with no value gives the default at depth 0 |
| Utils.LookupFallbackDeepest | src/silva/app/forest/utils.py:51-75 | with fallback and no exact value: the value of the deepest proper prefix holding one, with its depth; the default at depth 0 when no prefix holds one |
| Utils.LookupDeepest | src/silva/app/forest/utils.py:51-75 | whatever `get` with fallback returns was found at its depth, and no deeper prefix of the key holds a value |
| Utils.EmptyKeyUnbound | src/silva/app/forest/utils.py:53-74 | the empty key on a root holding a value reaches the unbound loop index (UnboundLocalError) |
| Utils.Insert | src/silva/app/forest/utils.py:40-49 | `add` is refused exactly when the key already holds a value |
| Utils.InsertFinds | src/silva/app/forest/utils.py:40-49 | after a successful `add` the key finds the new value and every other key finds what it found before |
| Utils.AddThenLookup | src/silva/app/forest/utils.py:40-75 | `add` then `get` of a non-empty key returns the added value with the whole key as depth |
| Utils.TupleMap.constructor | src/silva/app/forest/utils.py:33-34 | a new map is empty, with length 0 |
| Utils.TupleMap.Clear | src/silva/app/forest/utils.py:36-38 | `clear` empties the store and resets the length to 0 |
| Utils.TupleMap.Add | src/silva/app/forest/utils.py:40-49 | on a free key: the value is stored, the key joins the stored keys and the length grows by one; on a taken key: KeyError, store and length unchanged; the length always counts the stored keys |
| Utils.TupleMap.Get | src/silva/app/forest/utils.py:51-75 | the loop returns exactly `Lookup` of the store |
| Utils.TupleMap.GetItem | src/silva/app/forest/utils.py:90-94 | `__getitem__` succeeds exactly when the (non-empty) key holds a value, and returns it; KeyError for any key without a value, the empty key included; the unbound index on an empty key at a valued root |
| Utils.TupleMap.Len | src/silva/app/forest/utils.py:96-97 | `__len__` is the number of keys holding a value |
| Utils.TupleMap.List | src/silva/app/forest/utils.py:77-88 | `list` returns as many values as `__len__`, one per stored key, each found under its key, and misses no key |
| Utils.TupleMap.Walk | src/silva/app/forest/utils.py:80-85 | the walk of one level yields, for distinct keys below it, the values found under them, and every key below it that holds a value |
| CsvRows.RuleRows | src/silva/app/forest/service.py:73-79 | one row per rule |
| CsvRows.ToStr | src/silva/app/forest/service.py:40-51 | text is written as is, `None` as the empty string, a flag as `on` or `off`, `on` exactly for True |
| CsvRows.ExportRowsSnoc | src/silva/app/forest/service.py:72-79 | the rows of one more host follow the rows of the hosts before it |
| CsvRows.ExportRowsImport | src/silva/app/forest/service.py:70-90 | every row export writes has five fields, so import groups the export of any hosts without error |
| CsvRows.RuleRowsShape | src/silva/app/forest/service.py:73-79 | every row of a host's rule has five fields and starts with the host URL |
| CsvRows.RowRuleOfRuleRow | src/silva/app/forest/service.py:40-51 | the row of a rule has five fields, the host URL first, and reads back as the rule: `on`/`off` back to the flag, `''` back to no skin |
| CsvRows.EmptySkinLost | src/silva/app/forest/service.py:100 | an empty-string skin is read back as no skin |
| CsvRows.GroupRows | src/silva/app/forest/service.py:83-103 | every host grouped has a rule and a URL without trailing slash; the only error is `InvalidOptionCount` naming a row without five fields |
| CsvRows.GroupShape | src/silva/app/forest/service.py:92-103 | hosts closed while grouping keep a rule and a stripped URL |
| CsvRows.GroupErrRow | src/silva/app/forest/service.py:87-90 | grouping fails only on a row without five fields, and names that row |
| CsvRows.GroupRowsBadRow | src/silva/app/forest/service.py:87-90 | the first row without five fields is reported with its 0-based number |
| CsvRows.GroupWellFormed | src/silva/app/forest/service.py:87-103 | rows that all have five fields always group into hosts |
| CsvRows.GroupRules | src/silva/app/forest/service.py:92-101 | consecutive rows with the open host's URL append their rules to it, in order |
| CsvRows.GroupHost | src/silva/app/forest/service.py:92-103 | the rows of one host open it and fill it with its rules |
| CsvRows.GroupExport | src/silva/app/forest/service.py:70-103 | the rows of exportable hosts group back into exactly those hosts, after the hosts already closed |
| CsvRows.ExportImportRoundTrip | src/silva/app/forest/service.py:70-104 | importing an export gives back every host that has rules, no trailing slash, no empty skin and a URL different from its neighbour's |
| Service.PrepareRule | src/silva/app/forest/service.py:196-205 | a prepared rule has a path that traverses, names-only path and script, and the URL `rstrip(host.url + original, '/')` |
| Service.PrepareRuleOffTree | src/silva/app/forest/service.py:202-205 | a rewrite path that does not traverse is refused with ValueError |
| Service.RuleUrl | src/silva/app/forest/service.py:198 | the URL of a rule is the host URL followed by the rule's path, stripped |
| Service.OriginParts | src/silva/app/forest/service.py:199-201 | the server URL of a host URL is `scheme://netloc` and its path is its path |
| Service.PrepareRuleLocation | src/silva/app/forest/service.py:196-201 | for plain host and rule paths: URL = host + original, server URL = `scheme://netloc`, script = host names followed by rule names, and server URL + script = URL |
| Service.Rewrite.constructor | src/silva/app/forest/service.py:186-194 | a new rule keeps its four settings, with an empty path and no URL, server URL or script |
| Service.Rewrite.WithDefaults | src/silva/app/forest/service.py:186 | the defaults: no skin, and the skin enforced |
| Service.Rewrite.Prepare | src/silva/app/forest/service.py:196-205 | succeeds exactly when `PrepareRule` does, then sets the fields to its result; otherwise returns its error; a path that does not split changes nothing |
| Service.HostBase | src/silva/app/forest/service.py:259 | the host's key prefix is made of names |
| Service.IndexStepsKeeps | src/silva/app/forest/service.py:260-275 | whatever the outcome, prepare only adds to both tries: nothing held before changes |
| Service.IndexStepsStores | src/silva/app/forest/service.py:260-275 | after a successful prepare every rule is found under its external key in by_url and its internal path in by_path |
| Service.IndexStepsOk | src/silva/app/forest/service.py:260-275 | prepare succeeds exactly when every rule prepares and the keys and paths are pairwise distinct and new to the tries |
| Service.PrepareTwiceFails | src/silva/app/forest/service.py:258-275 | preparing a host with rules a second time fails with a duplicate URL entry for its first rule |
| Service.VirtualHost.constructor | src/silva/app/forest/service.py:251-256 | the URL loses its trailing slashes; two new, distinct, empty tries |
| Service.VirtualHost.IndexRule | src/silva/app/forest/service.py:260-275 | one pass of the loop is the step of rule `i` |
| Service.VirtualHost.IndexStep | src/silva/app/forest/service.py:261-275 | prepare the rule, then add it to both tries, as `StepOnce` |
| Service.VirtualHost.AddStep | src/silva/app/forest/service.py:262-275 | by_url then by_path; a duplicate in by_path keeps the by_url add |
| Service.VirtualHost.IndexRules | src/silva/app/forest/service.py:260-275 | the loop leaves the result and tries `IndexSteps` gives |
| Service.VirtualHost.Prepare | src/silva/app/forest/service.py:258-275 | the result and both tries are those of `HostIndex`, and the tries stay consistent |
| Service.VirtualHost.Query | src/silva/app/forest/service.py:277-278 | `query` is `get` with fallback on by_url |
| Forest.Activated | src/silva/app/forest/service.py:149-155 | `activate` succeeds exactly on an unmarked root, which then is active for this site |
| Forest.Deactivated | src/silva/app/forest/service.py:159-169 | `deactivate` succeeds exactly when the root is active for this site and has the attribute; unmarked or foreign roots are refused, and a root whose attribute is only defaulted gives the AttributeError of `delattr`; afterwards no site is active |
| Forest.ActivateDeactivate | src/silva/app/forest/service.py:139-169 | activate then deactivate leaves the root unmarked, without the attribute, inactive for every site |
| Forest.ActivateExclusive | src/silva/app/forest/service.py:149-167 | a second activate is refused and another site cannot deactivate |
| Forest.ForestService.constructor | src/silva/app/forest/service.py:65-66 | a new service has no hosts and an empty origin map |
| Forest.ForestService.Activate | src/silva/app/forest/service.py:149-155 | the root becomes `Activated` of the old root, which is then active; on refusal nothing changes |
| Forest.ForestService.Deactivate | src/silva/app/forest/service.py:159-169 | the root becomes `Deactivated` of the old root, which is then inactive; on refusal nothing changes |
| Forest.UpdateHostnameOrigin | src/silva/app/forest/service.py:175-180 | on host URLs, `update_hostname` puts the target's path under the origin of the first URL |
| Forest.RegistrySnoc | src/silva/app/forest/service.py:111-113 | the entries of one more host follow those of the hosts before it |
| Forest.EnterUrls | src/silva/app/forest/service.py:113-117 | the inner loop of `set_hosts` returns exactly `Enter` of the host's entries |
| Forest.EnterAppend | src/silva/app/forest/service.py:111-117 | entering two lists of entries is entering the first, then the second |
| Forest.FreshKeysCons | src/silva/app/forest/service.py:113-117 | the keys are fresh exactly when the first is, and the rest are fresh once it is entered |
| Forest.EnterFresh | src/silva/app/forest/service.py:113-117 | entering succeeds exactly when every key is well formed, new and pairwise different |
| Forest.EnterMaps | src/silva/app/forest/service.py:113-117 | after entering, every old key keeps its host, every entry's key leads to its host, and there is no other key |
| Forest.RegisterAllEntries | src/silva/app/forest/service.py:111-117 | once every prepare succeeded, registering the hosts is entering all their entries in one go |
| Forest.RegisterPrepared | src/silva/app/forest/service.py:111-112 | registration succeeds only when every prepare did |
| Forest.RegisterOk | src/silva/app/forest/service.py:108-117 | registration succeeds exactly when every prepare result it is given is `Ok` and the origin keys of all URLs and aliases are well formed and pairwise different |
| Forest.RegisterMaps | src/silva/app/forest/service.py:108-117 | on success, the key of every URL and alias leads to its host, and every key comes from one |
| Forest.RegisterSnoc | src/silva/app/forest/service.py:111-117 | registering one more host is registering it on what the hosts before it gave |
| Forest.RegisterStep | src/silva/app/forest/service.py:111-117 | one more pass: the host's prepare error, or its entries entered on the map so far |
| Forest.Specs | src/silva/app/forest/service.py:72-79 | what the CSV says of each host, one per host |
| Forest.SpecsSnoc | src/silva/app/forest/service.py:72-79 | the description of one more host follows those of the hosts before it |
| Forest.PrepareHost | src/silva/app/forest/service.py:112 | the host's tries stay consistent, and the result is `HostIndex` of the host from the stores its tries held |
| Forest.PrepareAt | src/silva/app/forest/service.py:111-112 | preparing one host keeps every trie of every host consistent; its result is `HostIndex` from the stores its tries held |
| Forest.RegisterAt | src/silva/app/forest/service.py:111-117 | one pass of the loop extends the registration by one host, as `Register` says, and the host's prepare result joins the results tied to `HostIndex` |
| Forest.RegisterAll | src/silva/app/forest/service.py:109-117 | the loop returns `Register` of the results of the prepares it ran, each `HostIndex` of its host from the stores `before` it reports, and stops early only on an error |
| Forest.PreparedSnoc | src/silva/app/forest/service.py:111-112 | the result of one more prepare, tied to `HostIndex`, extends the results of the hosts before it |
| Forest.PrepareFailureStops | src/silva/app/forest/service.py:111-112 | when `HostIndex` fails for a host `set_hosts` prepared, `set_hosts` fails |
| Forest.ForestService.SetHosts | src/silva/app/forest/service.py:108-121 | the outcome is `Register` of the prepares' results, each `HostIndex` of its host from the stores it started from; on success the hosts and the origin map are replaced by the new hosts and `Register`'s map; on any error both keep their old values and the error is returned |
| Forest.ForestService.Query | src/silva/app/forest/service.py:124-125 | an exact lookup in the origin map, no prefix fallback; null when absent |
| Forest.NewHost | src/silva/app/forest/service.py:95 | a host opened by a row: that URL, no alias, the rules, two new empty tries |
| Forest.CloseHost | src/silva/app/forest/service.py:92-103 | closing the open host appends it (when there is one) to the hosts built |
| Forest.ReadRow | src/silva/app/forest/service.py:88-101 | one row as `GroupNext` says, building the objects: the rule from its five fields, a new host on a new URL |
| Forest.ReadHosts | src/silva/app/forest/service.py:83-103 | the loop builds exactly the hosts `GroupRows` describes, or returns its error; the hosts, tries and rules are new |
| Forest.ReadRows | src/silva/app/forest/service.py:83-103 | the hosts read have separate, empty, consistent tries |
| Forest.ForestService.ExportCsv | src/silva/app/forest/service.py:70-79 | the rows written are `ExportRows` of the hosts, one per rule, host after host |
| Forest.ForestService.ImportCsv | src/silva/app/forest/service.py:83-104 | a bad row: its error, nothing changed; otherwise the hosts described by the rows are passed to `set_hosts`, with its outcome and its prepares' results tied to `HostIndex` |
| Hosting.Reverse | src/silva/app/forest/virtualhosting.py:45 | the key has the request path's length |
| Hosting.ReverseReverse | src/silva/app/forest/virtualhosting.py:45 | reversing twice gives the path back |
| Hosting.ReverseSplit | src/silva/app/forest/virtualhosting.py:45-51 | the first `k` names of the key are the last `k` entries of the path, and the rest of the key is the rest of the path |
| Hosting.RewriteUrlIsUpdateHostname | src/silva/app/forest/virtualhosting.py:30-35 | with a base URL, `rewrite_url` is `update_hostname` |
| Hosting.RewriteUrlOrigin | src/silva/app/forest/virtualhosting.py:30-35 | on host URLs: the original's path under the base's scheme and netloc |
| Hosting.RewriteUrlNoBase | src/silva/app/forest/virtualhosting.py:31-35 | with no or an empty base only the path of the original is left |
| Hosting.RouteConsumes | src/silva/app/forest/virtualhosting.py:45-51 | the rule applied holds the outermost `index` names of the path, no longer prefix holds a rule, and the path left is the rest |
| Hosting.RouteMisses | src/silva/app/forest/virtualhosting.py:46-53 | no rule found means no prefix of the path holds one, at depth 0 |
| Hosting.Route | src/silva/app/forest/virtualhosting.py:45-53 | the deepest rule for the reversed path and the path without its last `index` entries; BadRequest when none |
| Hosting.VirtualHosting.constructor | src/silva/app/forest/virtualhosting.py:24-28 | no host and no root yet |
| Hosting.VirtualHosting.Enter | src/silva/app/forest/virtualhosting.py:43-53 | the host is the service's for the key; with none the request is unchanged; otherwise as `Route`, recording the applied rule |
| Hosting.VirtualHosting.Call | src/silva/app/forest/virtualhosting.py:37-55 | no or an empty header: the request unchanged, host and root unchanged; a header `url2tuple` refuses (a fragment, or a path above the root): its error, host and root unchanged; otherwise as `Enter` on the URL's key |
| AbsoluteUrl.InsertAt | src/silva/app/forest/absoluteurl.py:34 | `list.insert` adds one element |
| AbsoluteUrl.InsertAtRemove | src/silva/app/forest/absoluteurl.py:34 | the inserted element sits at the position asked for, clamped to the end, and removing it gives the list back |
| AbsoluteUrl.PreviewPosition | src/silva/app/forest/absoluteurl.py:31-33 | `max(len(root path) - index, 0)` |
| AbsoluteUrl.PreviewNames | src/silva/app/forest/absoluteurl.py:28-34 | in preview the marker sits at its position, and without it the names are those of the plain URL |
| AbsoluteUrl.ExternalUrlNames | src/silva/app/forest/absoluteurl.py:36 | the URL starts with the rule URL and `/`, and the rest splits back into the names |
| AbsoluteUrl.ForestUrlDeepest | src/silva/app/forest/absoluteurl.py:24-28 | the rule used has the longest internal path starting the content's path; the names after it are the rest of the path |
| AbsoluteUrl.ForestUrl | src/silva/app/forest/absoluteurl.py:16-36 | no forest plugin or no host: the base class's URL; no rule: BadRequest; otherwise rule URL + `/` + the names left after the rule's path, with the preview marker in preview |

## Left out

- Rewrite.apply (service.py:207-237) is not modelled: it changes the Zope request (URL, ACTUAL_URL, SERVER_URL, script) and applies skins through the component registry. `__call__` instead records the rule it applies (`Routed.rule`, `VirtualHosting.root`); the content published is the one at that rule's internal path.
- Hosting.VirtualHosting.Call: the service is a parameter instead of being traversed from `__silva__`, and the request path, method and header are parameters instead of the request object.
- Service.VirtualHost.Prepare: states the result and the tries it leaves, not the fields each rule's `prepare` sets; `Service.Rewrite.Prepare` states those.
- Service.Rewrite.Prepare: when `split_path_info` fails on the rule URL, or the rewrite path does not traverse, the contract gives the error but not the fields already set before it.
- Forest.RegisterAll and Forest.ForestService.SetHosts: each prepare's result is `HostIndex` from the stores its host's tries held when it ran (the ghost `before`); that these are the stores on entry, as they are when no two hosts share a trie, is not stated, nor what each prepare left in the tries (`VirtualHost.Prepare` states that for one host).
- Forest.ForestService.ImportCsv: the hosts read start with empty tries (`Forest.ReadRows`), but the stores their prepares started from are not stated to be those empty ones, for the reason given for `SetHosts`.
- VirtualHost.rewrites is fixed when the host is made: `import_csv` appends rules to a host it has just made and that nothing else sees, so `Forest.ReadRow` collects the rules first and `Forest.NewHost` makes the host with them.
- get_hosts and the `hosts` property are the `hosts` field itself; `is_active` is the predicate `ForestService.IsActive`.
- Utils.TupleMap.List: the order of the values (dictionary iteration order) is not stated; the ghost `keys` say which key each value came from.
- TupleMap values are never `None` in the forest code (they are rules), so a stored value is `Some`, and `get`'s `default` is the `None` every caller passes.
- traverse is the set `Tree` of internal paths that resolve; `split_path_info` is rebuilt from the behaviour its callers rely on (split on `/`, drop empty and `.` pieces, `..` pops, `..` at the root is BadRequest).
- urlparse is modelled for the shapes the forest uses (scheme, netloc, path, params, query, fragment); the IPv6 bracket check, the parse cache and the `urlsplit` scheme-specific paths are not modelled.
- Utils.Url2TupleDefaultPort and Utils.Url2TupleExplicitPort are stated for every host URL `scheme://netloc/path` built from parts rather than for the literal URLs of test_utils.py; `Wsgi.SplitPathInfoResolves` likewise states the `/./docs//admin/..` example for any two names.
- to_str and the csv module: rows are sequences of strings; quoting and the utf-8 encoding of unicode values are not modelled, and `to_str`'s NotImplementedError for other types cannot arise.
- AbsoluteUrl.ForestUrl: the URL the base class computes is `Ok(None)`; the preview namespace and the physical paths are parameters. A rule that was never prepared has no URL: the model returns `UnpreparedRule` where Python would raise TypeError.
- The registry lemmas (`Enter`, `Register` and the lemmas about them) take the function that keys a URL as a parameter; `set_hosts` uses `OriginKey`, which is `url2tuple`.
- site.py, the ZMI forms and export view (service.py:288-396), events, interfaces, the installer and ZODB persistence are outside this model.
- Security declarations, logging and the `grok` registrations are not modelled.

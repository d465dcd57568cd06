# Topic ledger: a Dafny model

The program watches news sites. For every registered site (a *medio*, either an own site, `propio`, or a competitor, `competencia`) it fetches the page, selects anchor elements with a CSS selector and turns them into *temas*: pairs of topic name and absolute URL. It records each topic in a table with the time it was first seen (`primera_vez`) and the time it was last seen (`ultima_vez`). Readers list the topics newest first, colour each by how long it has been around (green under 4 hours, amber under 24 hours, red after that), and look topics up by the domain being browsed. Sites are kept in a registry with unique names. A relation records which site competes with which own site.

Two iterations of this logic coexist, and the model keeps them apart:

- `app.py` is a SQLite monolith. Its extraction keeps only `<a>` elements and does not drop empty names. Its merge reads the site's stored pairs once, before the loop, so a new pair that occurs twice in one batch is inserted twice.
- `services/scanner.py` with `models/*.py` is the split iteration. Its extraction falls back to a selector chosen by the site type and drops empty names and empty hrefs. Its scan calls the per-pair upsert, which looks the triple up again on every call.

## Modules

| file | module | models |
|---|---|---|
| wrappers.dfy | `Wrappers` | `Option` |
| text.dfy | `Text` | `str.strip`, `lower`, `replace`, `split`/`join`, substring search |
| selection.dfy | `Selection` | the "walk a list, append what survives" loop shared by every extraction and read, with the lemma saying exactly which items survive and in which order |
| web.dfy | `Web` | selected elements and pages, base URL and relative-link resolution, hostname of a site URL |
| store.dfy | `Store` | the `medios`, `temas` and `competidores` tables as values, and the `Database` class whose fields the operations update |
| freshness.dfy | `Freshness` | the three-level classifier and its names and colours |
| app.dfy | `Monolith` | `app.py` |
| scanner.dfy | `Scanner` | `services/scanner.py` |
| tema.dfy | `TemaModel` | `models/tema.py` |
| medio.dfy | `MedioModel` | `models/medio.py` |
| competidor.dfy | `CompetidorModel` | `models/competidor.py` |

The state is a `Database` object with three fields:

- `registry`: the site rows and the next id;
- `temas`: the topic rows and the next id;
- `competidores`: a set of (parent, competitor) links.

The operations that write (`add_or_update_tema`, `actualizar_temas_en_db`, the scans, `add_medio`, the seeding loops, `add_competidor`) are methods with `modifies db`. Each method's `ensures` ties the new state to a function of the old one, and the lemmas prove what the source promises about those functions. The reads (`get_temas`, `get_temas_por_dominio`, the stats, the competitor queries, the `estado` rule) are pure functions over the table values.

Inputs the program gets from the outside world are parameters:

- The current time is `now` (integer seconds). A scan takes a `clock` that gives the time of its k-th write.
- The fetched page is a `Page`: either a fetch error, or a `select` function from a selector to the selected elements (tag name, text, optional href). A selector that raises is modelled as `None`.
- A scan takes `fetch`, which maps a site URL to its `Page`.

Every `except Exception` in the extraction functions becomes one of these error values, and the model returns the empty list for it.

## Model

| member | source | states |
|---|---|---|
| Freshness.Classify | app.py:213-218 | verde iff elapsed < 4 h, amarillo iff 4 h ≤ elapsed < 24 h, rojo iff elapsed ≥ 24 h; each iff both ways |
| Freshness.ClassifyBoundaries | models/tema.py:151-160 | exactly 4 h is amarillo and exactly 24 h is rojo; just below each threshold is the level before |
| Freshness.ClassifyMonotone | models/tema.py:212-217 | a longer elapsed time never gives a fresher level |
| Freshness.NamesAndColorsDistinct | models/tema.py:151-160 | different levels have different estado names and different colours |
| Text.Strip | app.py:73 | the result is a contiguous slice of the text with only whitespace cut from either end (Python's `isspace` set); it is empty iff the text is all whitespace, and otherwise neither starts nor ends with whitespace |
| Web.Absolutize | app.py:75-78 | an href starting with http:// or https:// is returned unchanged; otherwise the result is the base URL, then one "/", then the href without a leading "/" |
| Web.BaseUrl | app.py:77 | the base URL is a prefix of the page URL with at most two "/"; when shorter than the URL it stops right before the third "/" |
| Web.JoinTakeSplit | app.py:77 | joining the first n pieces of the URL split on "/" equals the prefix before the n-th "/" |
| Web.PrefixBeforeNthShape | app.py:77 | the prefix before the n-th "/" is a prefix of the URL with fewer than n slashes, followed in the URL by a "/" when it is shorter |
| Web.ResolveUrl | app.py:75-78 | the loop's resolution step computes `Absolutize` |
| Web.AbsolutizeRootRelative | app.py:75-78 | "https://host/path" with href "/tema/x" gives "https://host/tema/x" (likewise for http) |
| Web.BaseUrlKeepsScheme | app.py:77 | the base URL of an http(s) URL is itself http(s) |
| Web.AbsolutizeIsAbsolute | app.py:75-78 | on an http(s) page URL every resolved href is http(s) |
| Web.AbsolutizeIdempotent | services/scanner.py:47-49 | on an http(s) page URL, resolving an already resolved URL changes nothing |
| Web.HostnameOfSiteUrl | models/tema.py:141-143 | the hostname of "scheme://host/path" is the lower-cased host |
| Monolith.TemasDeWeb | app.py:60-86 | a fetch error or a failing selector gives the empty list |
| Monolith.ObtenerTemasDeWeb | app.py:48-86 | returns exactly the extraction function's result for the page |
| Monolith.ExtractTopics | app.py:71-80 | the loop appends exactly the candidate of every selected element, in order |
| Monolith.ExtractOne | app.py:72-79 | one element gives (stripped text, resolved href) iff its tag is "a" |
| Monolith.TopicsSpec | app.py:71-80 | an element is kept iff its tag is "a"; output in selection order, never longer than the selection; the k-th output is the stripped text and resolved href of the k-th kept element |
| Monolith.TopicsKeepsEveryAnchor | app.py:71-80 | when all elements are anchors nothing is dropped, empty names included |
| Monolith.ActualizarTemasEnDb | app.py:88-122 | the new topic table is the merge of the old one with the batch; the registry and links are unchanged |
| Monolith.MergeMeaning | app.py:100-119 | the merge equals: stored rows of this site whose pair occurs in the batch and in the snapshot get ultima_vez := now, then one new row per batch occurrence absent from the snapshot, in batch order |
| Monolith.MergeSpec | app.py:100-119 | a stored pair of this site that the batch repeats gets only ultima_vez := now; rows of other sites and of pairs not in the batch are unchanged; new rows have primera_vez = ultima_vez = now and a pair not in the snapshot; the count grows by the occurrences absent from the snapshot, duplicates included |
| Monolith.MergeInsertsRepeatsTwice | app.py:101-119 | a new pair occurring twice in one batch is inserted twice |
| Monolith.MergeKeepsHistory | app.py:107-119 | no merge removes a row or changes a row's id, site, name, url or primera_vez |
| Monolith.EscanearTodosLosMedios | app.py:124-142 | the topic table after the scan is every site's extraction merged in registry order, with the generic selector |
| Monolith.ScanStep | app.py:132-139 | scanning one more site merges that site's extraction into the table |
| Monolith.ScanKeepsHistory | app.py:124-142 | a scan never removes a row or changes a row's first-seen data |
| Monolith.EstadoFilterSpec | app.py:194-218 | a joined row is listed iff tipo is "todos" or the site's tipo matches; order kept; each row carries the topic's id, nombre, url, primera_vez and ultima_vez and its site's nombre and tipo unchanged; duration = now − primera_vez and estado is its level name |
| Monolith.ObtenerTemasSpec | app.py:180-233 | the same for `/api/temas` over the join of topics with their site: every field of every answered row is stated |
| Monolith.AgregarMedio | app.py:158-178 | 400 iff the body or a field is missing; otherwise 201 with the new id for a free name, 409 "El medio ya existe" with the registry unchanged for a taken one |
| Monolith.Seed | app.py:258-269 | agregados + existentes is the number of complete entries; the registry grows by agregados |
| Monolith.SeedStep | app.py:258-269 | an incomplete entry changes nothing; a complete one counts as added iff its name is free, else as existing |
| Monolith.SeedEntry | app.py:259-269 | one loop iteration performs one step of the seeding |
| Monolith.AgregarMediosIniciales | app.py:244-276 | 400 with the registry unchanged when the body or `medios` is missing; otherwise 200 and the seeding result |
| Monolith.SeedAllExisting | app.py:258-269 | re-seeding entries whose names are all taken adds nothing and counts every complete entry as existing |
| Scanner.SelectorFor | services/scanner.py:25-32 | a non-empty given selector is used as is; otherwise "propio" gets the own-site tag-bar selector and any other tipo the generic one |
| Scanner.SelectorForNonEmpty | services/scanner.py:25-32 | the chosen selector is never empty |
| Scanner.ResolveHrefSpec | services/scanner.py:44-49 | the resolved href is empty iff the href is empty; a non-empty href is absolutised |
| Scanner.ResolveHrefIdempotent | services/scanner.py:47-49 | on an http(s) page URL, resolving twice is resolving once |
| Scanner.TemasDeWeb | services/scanner.py:14-61 | a fetch error or a failing selector gives the empty list |
| Scanner.ObtenerTemasDeWeb | services/scanner.py:10-61 | returns exactly the extraction with the chosen selector |
| Scanner.ExtractOne | services/scanner.py:43-52 | one element gives (stripped text, resolved href) iff both are non-empty |
| Scanner.ExtractTopics | services/scanner.py:41-55 | the loop appends exactly the candidate of every selected element, in order |
| Scanner.CandidateFilterSpec | services/scanner.py:41-53 | an element is kept iff its stripped text and its href are non-empty; order kept; never longer than the selection |
| Scanner.TopicsSpec | services/scanner.py:41-53 | as above, and every emitted name and url is non-empty |
| Scanner.CallsFor | services/scanner.py:81-82 | one upsert call per pair, in order, with the site's id |
| Scanner.UpsertAllSnoc | services/scanner.py:81-82 | one more call applies one more upsert at that call's time |
| Scanner.EscanearTodosLosMedios | services/scanner.py:63-97 | medios_procesados = number of sites; temas_encontrados = sum of the extraction lengths; the table is the upsert of every extracted pair in order |
| Scanner.ScanSite | services/scanner.py:73-89 | one site adds its extraction length to the count and upserts exactly its pairs |
| Scanner.UpsertPairs | services/scanner.py:79-84 | the inner loop applies one upsert per pair, in order |
| Scanner.UpsertCall | services/scanner.py:81-82 | one call applies `add_or_update_tema` with default times |
| Scanner.ScanStep | services/scanner.py:73-89 | scanning one more site appends that site's calls and adds its extraction length |
| Scanner.ScanCallsCount | services/scanner.py:69-97 | the number of upsert calls equals temas_encontrados |
| Scanner.ScanCallsNonEmpty | services/scanner.py:79-84 | no upsert is issued with an empty name or url |
| Scanner.ScanSkipsEmpty | services/scanner.py:79-87 | a site whose extraction is empty issues no upsert call and adds nothing to temas_encontrados |
| Scanner.UpsertKeepsUnique | models/tema.py:15-34 | an upsert keeps every (site, name, url) triple on at most one row |
| Scanner.ScanKeepsUnique | services/scanner.py:79-87 | a whole scan keeps the table valid and every triple on at most one row |
| Scanner.RegisterAllStep | services/scanner.py:137-142 | registering one more entry is one more `add_medio` |
| Scanner.AddOne | services/scanner.py:138-142 | one iteration registers one entry; the registry grows by one iff it was added |
| Scanner.AddEach | services/scanner.py:137-142 | the loop registers every entry in order; agregados + existentes = number of entries |
| Scanner.AgregarMediosPrensa | services/scanner.py:99-147 | registers the fixed list of 27 own sites in order; agregados + existentes = 27; the registry grows by agregados |
| Store.RegisterMedio | models/medio.py:18-32 | insert iff the name is free, with the next id; a taken name leaves the registry unchanged; validity is kept |
| Store.RegisterAll | services/scanner.py:137-142 | registering a list only appends rows, at most one per entry, and keeps validity |
| Store.RegisterAllFresh | services/scanner.py:137-142 | entries with distinct free names are all added, in order, with consecutive ids |
| Store.SetUltimaVez | models/tema.py:23-28 | the UPDATE changes ultima_vez on the matching rows and nothing else |
| Store.InsertTema | models/tema.py:29-34 | the INSERT appends one row with the next id and keeps validity |
| Store.FindMedio | models/tema.py:125-131 | the JOIN finds a site with the topic's medio_id, or there is none |
| Store.JoinTemas | models/tema.py:125-131 | every joined row pairs a stored topic with its stored site |
| Store.JoinTemasComplete | models/tema.py:125-131 | every topic whose site exists appears in the join |
| Store.Database.constructor | app.py:22-46 | the empty tables |
| Store.Database.InsertMedio | app.py:28 | the insert under UNIQUE(nombre) |
| TemaModel.FindTema | models/tema.py:15-19 | the select returns the first row matching the triple, or there is none |
| TemaModel.AddOrUpdateTema | models/tema.py:10-37 | the new table is the upsert of the old one; registry and links are unchanged |
| TemaModel.UpsertExisting | models/tema.py:15-28 | with a stored triple only that row's ultima_vez changes, to the argument or now; count and ids unchanged |
| TemaModel.UpsertNew | models/tema.py:21-34 | with no stored triple one row is appended with primera_vez = argument or now and ultima_vez = argument or now, equal by default |
| TemaModel.UpsertCount | models/tema.py:15-34 | afterwards the triple is stored on one row if it was absent and on as many rows as before otherwise |
| TemaModel.UpsertIdempotent | models/tema.py:15-34 | repeating the same upsert changes nothing |
| TemaModel.UpsertValid | models/tema.py:10-37 | the upsert keeps ids increasing and below the next id |
| TemaModel.UpsertStats | models/tema.py:110-114 | get_tema_stats' total grows by one exactly when the triple was new |
| TemaModel.CountTripleBump | models/tema.py:23-28 | bumping a row's ultima_vez never changes how many rows hold a triple |
| TemaModel.SortDescPerm | models/tema.py:197 | ORDER BY ultima_vez DESC is a permutation of its input |
| TemaModel.SortDescSorted | models/tema.py:197 | its output is ordered by ultima_vez, newest first |
| TemaModel.Window | models/tema.py:198 | LIMIT/OFFSET skips `offset` rows and keeps at most `limit` |
| TemaModel.SelectedSpec | models/tema.py:186-195 | every selected row is a stored topic joined with its site and passes the tipo and medio_id filters |
| TemaModel.SelectedComplete | models/tema.py:186-195 | every joined row that passes the filters is selected |
| TemaModel.GetTemasSpec | models/tema.py:172-233 | at most `limit` rows, skipping `offset`, newest first, each from the tables, passing the filters, with duration = now − primera_vez and its colour |
| TemaModel.GetTemasComplete | models/tema.py:186-233 | with no offset and a limit that fits, every stored topic passing the filters is listed |
| TemaModel.GetTemasUnfiltered | models/tema.py:186-195 | tipo "todos" with no (or a zero) medio_id selects the whole join |
| TemaModel.GetTemasPorDominio | models/tema.py:118-170 | never more rows than topics; each row's estado and colour are the level of its duration |
| TemaModel.DomainFilterSpec | models/tema.py:141-168 | a row is kept iff the normalised query is a substring of the site hostname without "www."; order kept; name, url and duration from the kept row |
| TemaModel.GetTemasPorDominioSpec | models/tema.py:118-170 | the same over the join ordered by ultima_vez descending |
| TemaModel.GetTemasPorDominioEmpty | models/tema.py:122-146 | an empty query keeps every joined row |
| MedioModel.GetAllMedios | models/medio.py:10-16 | every registry row, in store order |
| MedioModel.GetAllMediosDistinctNames | models/medio.py:10-16 | no two listed sites share a name |
| MedioModel.AddMedio | models/medio.py:18-32 | 201 with the next id and the row appended iff the name is free; else 409 "El medio ya existe" and the registry unchanged |
| MedioModel.CountTipoSnoc | models/medio.py:38-53 | one more row adds one to its own type's count only |
| MedioModel.MedioStatsBound | models/medio.py:34-53 | propios + competencia ≤ total |
| MedioModel.MedioStatsAfterInsert | models/medio.py:34-53 | an insert adds one to the total and to its own type's count and to no other |
| CompetidorModel.AddCompetidor | models/competidor.py:8-17 | the link (parent, competitor) is added, the first argument being the competitor; an existing link leaves the relation unchanged |
| CompetidorModel.GetCompetidoresPorMedioPadre | models/competidor.py:19-29 | a site is listed iff it is linked as a competitor of the parent |
| CompetidorModel.FirstOwnMatch | models/competidor.py:36-40 | the first own site whose bare domain occurs in the browsed domain, ignoring case, or none matches |
| CompetidorModel.RelacionadosNoMatch | models/competidor.py:42-44 | no matching own site gives the empty list |
| CompetidorModel.RelacionadosFirstMatch | models/competidor.py:40-58 | only the first match is used; the answer is the (nombre, url) of exactly its competitors |

## Left out

- HTTP and Flask: routes, JSON bodies and `jsonify`. The model keeps the status codes and messages of the three endpoints it covers. `listar_medios` (`GET /api/medios`) is a plain read that `MedioModel.GetAllMedios` already covers.
- Fetching, parsing and the scheduler: `requests.get`, BeautifulSoup, `APScheduler` and the console logging are outside Dafny. The page and its selection are inputs (`Page`, `Element`), and the CSS selector language is not interpreted.
- `init_db` (app.py:22-46) creates empty tables. `Store.Database.constructor` plays its part; the SQL schema text is not modelled.
- Time: `datetime.now()` is a parameter. Durations are integer seconds compared against 4·3600 and 24·3600, so float hours and `round(…, 1)` are not modelled.
- Monolith.ObtenerTemas: `obtener_temas` reads `datetime.now()` afresh for every row (app.py:207); the model uses one `now` for the whole answer, so rows computed across a threshold crossing during one request are not modelled.
- Text: `lower` and the case-insensitive ILIKE comparison fold the ASCII letters only, so Unicode case folding is not modelled. The ILIKE wildcards `%` and `_` inside stored URLs are read as plain characters.
- URL parsing: `Web.Hostname` follows `urlparse(...).hostname` through the scheme, the netloc, user info, a port and a bracketed IPv6 literal. It does not model `urlsplit`'s removal of tab and newline characters, the `ValueError` that malformed brackets or ports raise, or lower-casing beyond ASCII.
- SQL order: a `SELECT` without `ORDER BY` and a JOIN both follow store order. Ties in `ORDER BY ultima_vez DESC` keep store order (a stable sort). The database may return such rows in any order.
- Foreign keys, and the `ON DELETE` behaviour they imply, are not modelled. A topic whose site is missing is simply absent from the join.
- `cursor.lastrowid` is the registry's next id.
- `LIMIT` and `OFFSET` are natural numbers, so negative values are not modelled.
- JSON field values are modelled as strings. A present but null `nombre` is not distinguished from a string.
- The first `get_temas` (models/tema.py:39) is shadowed by the second definition and is not modelled.
- Concurrency between the scheduler thread and request handlers is not modelled. Each operation runs alone.
- `get_medio_stats` and `get_tema_stats` return dictionaries; the model returns records with the same counts.
- The browser extension, dashboard scripts, `controllers/*` and `config.py` are not part of this model.

- MedioModel.GetAllMedios: returns the registry rows, as the function evidently intends. As written, models/medio.py:12 opens a default psycopg2 cursor, whose rows are tuples, and `dict(row)` at models/medio.py:14 raises `TypeError` for any non-empty registry; so `escanear_todos_los_medios` (services/scanner.py:67) would fail whenever a site is registered. `Scanner.EscanearTodosLosMedios` likewise models the intended listing.
- The `Monolith` module assumes app.py loads: as written, app.py:14 names `escanear_todos_los_medios` before its definition at app.py:124, so importing app.py raises `NameError`. The model behaves as the file would with lines 13-14 moved below that definition.

models/medio.py is written against psycopg2 but uses `?` placeholders and catches `sqlite3.IntegrityError` without importing `sqlite3`. As written, every call would fail before or after the insert. The model follows the evident intent, which is also what app.py:167-178 does: a unique name is inserted and answered 201, and a taken name is answered 409.

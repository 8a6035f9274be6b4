# croo output organiser, modelled in Dafny

croo reorganises the outputs of a Cromwell workflow run. It has two inputs:

- The task graph from the run's metadata. Each node is a call of a task, with its scatter indices `shard_idx` and its `out_files` (pairs of output key and full path).
- An output definition. It maps task names to output variables. Each variable may carry three optional templates: `path`, `table` and `ucsc_track`.

For every node and output file that matches a definition entry, croo does three things, each only when its template is present:

- copies (or links) the file to a place under the output directory;
- adds a row to the HTML report's file table;
- adds a genome-browser track.

Templates contain `${...}` placeholders. `Croo.__interpret_inline_exp` fills them in from the scatter indices and the file's path.

This project models that core of `croo/croo.py` as pure functions, and proves what the code promises about them. It has these modules:

- `Wrappers`: `Option` and `Result`.
- `Paths`: the `posixpath` functions `basename`, `dirname` and two-argument `join`.
- `PyText`: `str()` of integers and integer tuples, and `str.replace(old, new, 1)`.
- `Placeholder`: `re.search` with the pattern `\$\{(.*?)\}`, which finds the leftmost match.
- `InlineExp`: the interpreter. It binds the seven names, evaluates an expression by looking up a name, and runs the rewriting loop.
- `Organizer`: the four matching loops and the effects of each hit.
- `Metadata`: picking one document from a metadata file that holds a list.

Effects are modelled as a sequence of events:

- `Place(src, dst)`: a copy request.
- `TableEntry(uri, url, text)`: a row of the report's file table.
- `TrackEntry(trackUrl, text)`: a genome-browser track.
- `SaveReport`: saving the report.

The copy operation and the URL lookup are function parameters of a `Context`.

The rewriting loop of the source has no bound. A substituted value can contain a placeholder of its own, so the model gives the loop a `fuel` argument: the number of rewrites allowed. Running out of fuel is an error (`OutOfFuel`). `InterpretTerminates` shows that fuel equal to the number of `$` characters in the template always suffices when no bound value contains a `$`. `SelfReferentialBasenameNeverResolves` shows that the source really can loop forever.

Behaviours of `croo/croo.py` worth knowing, all kept by the model:

- **Unscattered index levels.** `${i}`, `${j}` or `${k}` at an unscattered level, or at a level the tuple does not reach, renders the text `None` (`str(None)`); it does not raise.
- **No `path`.** An absent `path` copies nothing. The target is the file's own location.
- **Track key.** The track template is read from the key `ucsc_track`, and it is interpreted only when the target has a URL.
- **Empty `shard_idx`.** An empty `shard_idx` raises at `shard_idx[0]`. This is the error `ShardIndexError`.
- **Unbounded rewriting.** Rewriting can fail to terminate, as described above.

## Model

| member | source | states |
|---|---|---|
| Paths.Basename | croo/croo.py:166 | `os.path.basename`: a slash-free suffix of the path, preceded by a '/' whenever the path has one, and the whole path when it has none |
| Paths.Dirname | croo/croo.py:167 | `os.path.dirname`: a prefix that ends before the base name; only slashes lie between the two; it is empty iff the path has no '/'; trailing slashes are dropped unless the head is all slashes |
| Paths.Join | croo/croo.py:102-103 | `os.path.join(out_dir, p)`: ends with `p`; an absolute `p` discards `out_dir`; otherwise `out_dir` is a prefix, followed by only slashes and then `p`, and a single '/' is inserted exactly when `out_dir` is non-empty and does not already end in '/' |
| Paths.BasenameOfJoin | croo/croo.py:102-103 | joining a placement path under `out_dir` never changes its base name |
| Paths.BasenameOfSplit | croo/croo.py:166 | `basename(head + "/" + name)` is `name` for a slash-free name |
| PyText.NatToString | croo/croo.py:173 | `str(n)` of a non-negative index: non-empty decimal digits, no leading zero, one digit exactly when n < 10 |
| PyText.DecimalRoundTrip | croo/croo.py:173 | reading back the digits `str(n)` writes gives `n` |
| PyText.IntToString | croo/croo.py:173 | `str(n)`: a '-' before the digits of a negative number, and never a '$' |
| PyText.TupleToString | croo/croo.py:173 | `str(shard_idx)`: parenthesised, the one-element form is "(a,)", and never a '$' |
| PyText.IndexOfFrom | croo/croo.py:173 | `find`: an occurrence at or after the start, and no earlier occurrence is missed |
| PyText.ReplaceFirst | croo/croo.py:173 | `replace(old, new, 1)`: unchanged when `old` does not occur, otherwise the leftmost occurrence replaced |
| Placeholder.CloseFrom | croo/croo.py:27 | the lazy `(.*?)\}` stops at the first '}' with no line break before it |
| Placeholder.CloseFromComplete | croo/croo.py:27 | a lazy match has only one possible end, and `CloseFrom` finds it |
| Placeholder.SearchFrom | croo/croo.py:170 | a match found from position p starts at or after p and is a match of the pattern |
| Placeholder.SearchFromComplete | croo/croo.py:170 | the scan misses no match: it stops at or before any match it passes |
| Placeholder.Search | croo/croo.py:170 | `re.search(RE_PATTERN_INLINE_EXP, s)` returns a match of `\$\{(.*?)\}` |
| Placeholder.SearchLeftmost | croo/croo.py:170 | every match of the pattern starts at or after the one `re.search` returns |
| Placeholder.SearchNone | croo/croo.py:170-172 | the loop's exit test: `re.search` finds nothing exactly when the pattern matches nowhere |
| Placeholder.SearchFindsLeftmost | croo/croo.py:170 | a match with no match to its left is the one returned |
| Placeholder.NoDollarNoMatch | croo/croo.py:170-172 | text without a '$' has no placeholder |
| Placeholder.PlaceholderAtFront | croo/croo.py:27 | `${x}` at the front of a template, where x has no '}' or line break, is the match, whatever follows |
| Placeholder.SearchShift | croo/croo.py:170 | a '$'-free prefix shifts every match of the rest and adds none |
| Placeholder.ReplaceFirstIsLeftmost | croo/croo.py:173 | `s.replace(m.group(0), v, 1)` rewrites exactly the leftmost match: an earlier copy of the same text would itself be an earlier match |
| InlineExp.Texts | croo/croo.py:143-150 | exactly the seven documented names are bound, each to `str()` of its value |
| InlineExp.IndexValue | croo/croo.py:154-165 | a level is bound to its integer iff the tuple is long enough and the entry is > -1; otherwise it is `None` |
| InlineExp.Bind | croo/croo.py:154-167 | fails exactly on an empty `shard_idx`; otherwise `i`, `j`, `k` are the levels 0, 1, 2, `basename`/`dirname` split `full_path`, and `full_path`/`shard_idx` are kept verbatim |
| InlineExp.Str | croo/croo.py:173 | `str()` of a bound value: `None` reads "None", and only a string value can contain a '$' |
| InlineExp.Eval | croo/croo.py:173 | `eval(m.group(1))`, restricted to names: it succeeds exactly on a bound name and gives that name's text |
| InlineExp.Interpret | croo/croo.py:169-173 | the rewriting loop with a fuel bound; its properties are stated by `InterpretStep` (one turn), `InterpretResolvesAll` (no placeholder survives) and `InterpretIsFill` (agreement with the one-pass reference) |
| InlineExp.InterpretInlineExp | croo/croo.py:130-175 | an empty `shard_idx` is an error before any rewriting |
| InlineExp.InterpretUnchanged | croo/croo.py:169-175 | a template with no placeholder is returned unchanged |
| InlineExp.InterpretResolvesAll | croo/croo.py:169-175 | whatever the loop returns contains no placeholder |
| InlineExp.FuelMonotone | croo/croo.py:169-173 | the fuel only cuts the loop short: any outcome other than `OutOfFuel` reached with some fuel is the outcome for every larger fuel |
| InlineExp.InlineExpResolvesAll | croo/croo.py:130-175 | the same two facts for the whole function: resolved input is returned unchanged, and every result is placeholder-free |
| InlineExp.InterpretStep | croo/croo.py:169-173 | one turn of the loop: an unbound expression is an error, and a bound one is `replace(m.group(0), str(value), 1)` on the current text |
| InlineExp.BindInert | croo/croo.py:154-167 | a `full_path` without '$' yields bindings whose texts contain no '$' |
| InlineExp.FillFromPrefix | croo/croo.py:169-173 | after a resolved prefix, the loop equals the one-pass left-to-right fill of the remaining pieces |
| InlineExp.InterpretIsFill | croo/croo.py:169-173 | the loop agrees with the one-pass reference `Fill`: each placeholder is replaced by its own value, in order, provided no literal text or value contains a '$' |
| InlineExp.SpliceCount | croo/croo.py:173 | replacing a placeholder with a '$'-free value strictly lowers the number of '$' characters |
| InlineExp.InterpretTerminates | croo/croo.py:169-173 | with '$'-free bindings, as many rewrites as the template has '$' characters always suffice |
| InlineExp.FixpointNeverResolves | croo/croo.py:169-173 | a template whose rewrite reproduces itself never resolves, whatever the fuel |
| InlineExp.SelfReferentialBasenameNeverResolves | croo/croo.py:166-173 | the source loop can diverge: "${basename}" for a file named "${basename}" never resolves |
| InlineExp.IndexText | croo/croo.py:154-165 | the text bound to `i`/`j`/`k` is the decimal index of that level, or "None" when that level is unscattered or missing |
| InlineExp.IndexPlaceholderRendering | croo/croo.py:154-173 | `${i}`, `${j}`, `${k}` render the level's index when it is not negative, and "None" otherwise, including when the tuple is too short |
| InlineExp.PlaceholderAfterPrefix | croo/croo.py:169-173 | '$'-free text followed by one bound placeholder resolves in one rewrite to the text followed by the value |
| InlineExp.BasenameBinding | croo/croo.py:166 | `basename` is bound to the file's base name |
| InlineExp.PrefixedPlaceholderRendering | croo/croo.py:130-175 | "<dir>${name}" for a bound name renders as dir followed by the name's text |
| InlineExp.BasenameTemplateRendering | croo/croo.py:166-173 | "<dir>${basename}" renders as dir followed by the file's base name |
| Organizer.FilePositions | croo/croo.py:93-95 | the file loop yields exactly the files from index f on whose key is the variable name, in order |
| Organizer.NodePositions | croo/croo.py:87-95 | the node loop yields exactly the files of nodes whose task name equals the definition's, in node and then file order |
| Organizer.VarPositions | croo/croo.py:82-95 | the variable loop yields exactly the hits of the task's variables, in variable order |
| Organizer.TaskPositions | croo/croo.py:81-95 | the task loop yields exactly the hits of the definitions from index t on, in order |
| Organizer.Positions | croo/croo.py:81-95 | the hits are exactly the (task, variable, node, file) positions that pass both equality tests; each duplicate key is its own hit; the order is lexicographic, i.e. definition order, then variable, node and file order |
| Organizer.OrderedUnique | croo/croo.py:81-95 | loop order determines the hit sequence: two ordered sequences with the same hits are equal |
| Organizer.ExpandOpt | croo/croo.py:97-123 | an absent template yields no text and no error; a present one yields its interpretation or its error |
| Organizer.Placement | croo/croo.py:97-109 | with no `path`, nothing is copied and the target is `full_path`; with one, the copy goes to `join(out_dir, text)` and the target is what the copy returns |
| Organizer.Decide | croo/croo.py:97-125 | the copy is requested iff `path` is present and interprets; the table row iff `table` is present, even without a URL; the track iff `ucsc_track` is present and the target has a URL. Rows and tracks use the placed target, its URL and the templates' texts. The first failing template stops the hit; a failing `ucsc_track` template raises exactly when the target has a URL. |
| Organizer.Effects | croo/croo.py:97-125 | a hit's effects are its copy, table row and track, in that order, at most one of each |
| Organizer.Handle | croo/croo.py:97-125 | no single hit saves the report |
| Organizer.Sequence | croo/croo.py:72-128 | hits run in order until one raises: with no error, all effects in order; otherwise the effects up to and including the first failing hit, and its error |
| Organizer.HitRuns | croo/croo.py:93-125 | one run per hit, in hit order, none of which saves the report |
| Organizer.Organize | croo/croo.py:72-128 | the report is saved iff no interpretation failed; on success the events are the hits' effects in loop order, then the save; on failure the run stops at the first failing hit |
| Organizer.NoHitsOnlySave | croo/croo.py:81-128 | a definition with no match anywhere produces no effect and no error |
| Organizer.UnmatchedTaskIsSilent | croo/croo.py:87-89 | adding a definition for a task that no node ran changes nothing |
| Organizer.BasenamePathKeepsName | croo/croo.py:97-104 | a `path` of the form "<dir>${basename}" places the file under `out_dir` with its own base name |
| Organizer.DecidePlace | croo/croo.py:97-104 | an interpreted `path` sends the copy of the file to `join(out_dir, text)` |
| Organizer.UnderDirectory | croo/croo.py:102-103 | a slash-free name placed under a directory prefix keeps its base name after the join |
| Metadata.SelectMetadata | croo/croo.py:41-48 | a list of documents yields its first document, with a warning iff there are several; an empty list is an error; a single document is used as is |
| Metadata.ListReadsAsFirst | croo/croo.py:41-48 | a one-element list is read exactly like a single document, and a longer list like its first document plus the warning |

## Left out

- **Loading.** Loading the metadata and output-definition files (`CaperURI`, `open`, `json.loads`) and finding the definition from the WDL (lines 35-69 of croo/croo.py) are not modelled. They are file and network I/O. The external `CromwellMetadata` and its task graph are inputs to the model.
- **Storage operations.** `CaperURI.copy` and `CaperURI.get_url` are function parameters of `Context`. Copying across storages, soft links and presigned URLs live in an external library.
- **Report rendering.** `CrooHtmlReport` construction, rendering and `save_to_file` (lines 75-79 and 128 of croo/croo.py) are not modelled, because the report is external. Saving is the final `SaveReport` event. The table and track rows are events.
- **`eval`.** Python's `eval` is restricted to looking up exactly one of the seven documented names. Any other expression is the error `UnknownName`. The source would evaluate arbitrary Python, or see other local variables such as `result` and `s`.
- InterpretInlineExp: the fuel bound stands in for the source's unbounded loop. A run that needs more rewrites than the fuel allows ends in `OutOfFuel`, where the source would go on rewriting; a result reached within the fuel is the result for any larger fuel (`FuelMonotone`), so only `OutOfFuel` depends on the choice of fuel. `InterpretTerminates` bounds the fuel that suffices.
- Decide: the track template's outcome is computed up front. The source interprets it only when the target has a URL. Interpretation has no effects, so the model uses that outcome only when the source would compute it.
- Organize: an error ends the run, and the copies already performed stay performed. Report rows added before the error are kept among the events, although the source discards the unsaved report with the exception.
- **Everything else.** `init_dirs_args`, `main` and argument parsing (lines 178-247 of croo/croo.py) are not modelled. They set up directories and global storage configuration.
- **Text model.** Strings are sequences of characters. Regular-expression details beyond the one pattern, such as Unicode line separators, are not modelled. Only '\n' ends a lazy match, as it does for Python's `.`.

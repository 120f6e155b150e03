# Breakpad system-symbol scraper, modelled in Dafny

The repository gathers Breakpad symbol files for the libraries of a
Linux or macOS machine. It then uploads them to a Mozilla symbol server.
There are three scripts:

- `scrapesymbols/gathersymbols.py` is the packaged gatherer. It walks the
  given paths or the system directories and keeps the files whose `file -Lb`
  description names a native object. It resolves symlinks. It is meant to
  prefer a `-dbg` copy under `/usr/lib/debug` on Linux, but as written it does
  so only when the platform is exactly `linux`, which Python 2 never reports
  (see "## Findings"). It runs `dump_syms` once per
  (file, architecture) in a process pool and parses the `MODULE` line of each
  dump. It keeps a dump only when the symbol is on the crash-stats
  missing-symbols list (when that list is in use) and the server does not
  already hold it. Then it writes each distinct name once into `symbols.zip`,
  together with a manifest.
- `gathersymbols.py` is the older script. It does the same work, with
  differences:
  - an extension and executable gate runs before `file`;
  - the work is sequential;
  - architectures come from a nested loop;
  - a failed HEAD request is not caught;
  - the archive list has no de-duplication.
- `uploadsymbols.py` zips the gzipped symbol files changed since the last
  run, together with an index. It copies the zip to the server with `scp`,
  unpacks it there with `ssh`, and records the time of the run.

Modules:

- `Wrappers` (wrappers.dfy): `Option`, `Result`, and the Python exceptions
  that can escape.
- `PyStr` (pystr.dfy): the Python 2 `str` operations the scripts rely on:
  - `split(sep)` and `split(sep, n)`;
  - whitespace `split()`;
  - `rstrip`, `strip` and `splitlines`;
  - slicing with clamped bounds;
  - POSIX `os.path.join`.
  The splitting and joining operations come with round-trip lemmas. The
  strip and slice operations come with shape lemmas: what is kept and what
  is removed.
- `Symbols` (symbols.dfy): the logic both gatherers share:
  - the `MODULE` line parser and the allow-list test;
  - the symbol file name and the dump outcome;
  - the `dump_syms` argument list and the `lipo -info` parser;
  - the missing-symbols feed parser, as a loop method proved equal to
    `ParseFeed`;
  - the manifest.
- `PackagedGather` (packaged.dfy) models `scrapesymbols/gathersymbols.py`:
  - `get_files` and `process_paths`, as a loop method over the jobs;
  - the debug-path rule;
  - `process_file`;
  - the de-duplicating accumulation in `main`, as a loop method.
- `ScriptGather` (script.dfy) models `gathersymbols.py`:
  - the gated `should_process` and the uncaught probe in `process_file`;
  - the nested loops of `main`, as the methods `Gather`, `DumpFile`,
    `DumpArchs` and `Absorb`.
    Both are proved against a left fold `Run` over the job outcomes, in
    (file, arch) order.
- `Upload` (upload.dfy) models `uploadsymbols.py`:
  - root normalisation;
  - mtime selection and zip names;
  - the `Gathered` walk;
  - the `Plan` of copy and unpack.
  The class `Uploader` holds the last-run file, the copied archives and the
  unpack requests. Its `Run` method is proved against `Plan`.

Everything outside the Python process is a parameter:

- `Host` bundles these oracles:
  - `isdir`, `isfile` and `os.access`;
  - `os.walk` listings and symlink resolution;
  - the output of the `file` tool, and the exit status and output of the
    `lipo` and `dump_syms` tools.
- `head` is the HEAD request to the symbol server.
- `Store` holds `os.walk`, `st_mtime` and gunzip.
- `Remote` holds the exit status of `scp` and `ssh`.

An exception that escapes is a value:

- `Raised` for a job;
- `Crashed` or `Aborted` for a run;
- `Failure` or an `error` field otherwise.

The pool's completion order is an arbitrary permutation of the job outcomes.

## Model

| member | source | states |
|---|---|---|
| PyStr.Split | scrapesymbols/gathersymbols.py:101 | `split(',')` yields at least one piece and no piece contains the separator |
| PyStr.SplitLength | scrapesymbols/gathersymbols.py:102 | the number of pieces is one more than the number of separators, so fewer than 2 fields means no comma |
| PyStr.JoinSplit | scrapesymbols/gathersymbols.py:101 | joining the pieces with the separator gives back the string |
| PyStr.SplitJoin | scrapesymbols/gathersymbols.py:187 | splitting the join of separator-free pieces gives back the pieces |
| PyStr.SplitN | scrapesymbols/gathersymbols.py:73 | `split(' ', 4)` yields 1 to 5 pieces, and every piece except the last is free of the separator |
| PyStr.SplitNLength | scrapesymbols/gathersymbols.py:73-74 | all n splits happen, giving n+1 pieces, exactly when the separator occurs at least n times |
| PyStr.JoinSplitN | scrapesymbols/gathersymbols.py:73 | joining the bounded split's pieces gives back the line, so the last piece is the whole remainder |
| PyStr.SplitNJoin | scrapesymbols/gathersymbols.py:73-76 | a join of n+1 pieces whose first n are separator-free splits back into those pieces, even when the last contains separators |
| PyStr.Words | scrapesymbols/gathersymbols.py:45 | whitespace `split()` yields non-empty tokens free of whitespace |
| PyStr.WordsJoin | scrapesymbols/gathersymbols.py:45 | `split()` of non-empty whitespace-free tokens joined by single spaces gives back the tokens |
| PyStr.WordsTrailingSpace | scrapesymbols/gathersymbols.py:45 | appending whitespace does not change `split()` |
| PyStr.WordsRStrip | scrapesymbols/gathersymbols.py:45 | `rstrip()` does not change `split()` |
| PyStr.WordsLStrip | scrapesymbols/gathersymbols.py:45 | leading whitespace does not change `split()` |
| PyStr.WordsStrip | scrapesymbols/gathersymbols.py:45 | `strip()` before `split()` changes nothing |
| PyStr.RStrip | scrapesymbols/gathersymbols.py:100 | the result is a prefix whose removed tail is all whitespace and which does not itself end in whitespace |
| PyStr.LStrip | scrapesymbols/gathersymbols.py:45 | the result is a suffix whose removed head is all whitespace and which does not start with whitespace |
| PyStr.SplitLines | scrapesymbols/gathersymbols.py:72 | `splitlines()` is empty exactly for the empty string, and no line holds a line break |
| PyStr.SplitLinesCons | scrapesymbols/gathersymbols.py:72 | the first line of `line + "\n" + rest` is `line` |
| PyStr.PathJoin | scrapesymbols/gathersymbols.py:82 | `os.path.join(a, b)` ends with `b`, and keeps `a` as a prefix when `b` is relative |
| PyStr.PathJoinPlain | scrapesymbols/gathersymbols.py:82 | for a non-empty `a` without a trailing slash and a relative `b`, the join is `a + "/" + b` |
| PyStr.ContainsAt | gathersymbols.py:32 | an occurrence of the needle at any index makes `find` succeed |
| PyStr.CountIsMultiplicity | gathersymbols.py:42 | the separator count used by the split lemmas is the character's multiplicity in the string |
| Symbols.ParseModuleLine | scrapesymbols/gathersymbols.py:73-76 | a record comes out exactly when the line has at least 4 spaces; the marker is discarded; platform, cpu arch and debug id are space-free; the line is the five fields joined by spaces |
| Symbols.ParseModuleLineRoundTrip | scrapesymbols/gathersymbols.py:72-76 | any marker and record with space-free first four fields parse back to that record, including debug files with spaces |
| Symbols.Wanted | scrapesymbols/gathersymbols.py:78 | no set or an empty set admits every key; a non-empty set admits exactly its members |
| Symbols.SymbolFileName | scrapesymbols/gathersymbols.py:82 | the archive name always ends with `debug_file + ".sym"` |
| Symbols.SymbolFileNamePlain | scrapesymbols/gathersymbols.py:82 | for plain relative fields the name is exactly `debug_file/debug_id/debug_file.sym` |
| Symbols.SymbolFileNameAbsolute | scrapesymbols/gathersymbols.py:82 | an absolute debug file makes `os.path.join` drop the earlier components |
| Symbols.Extract | scrapesymbols/gathersymbols.py:64-76 | a failed dump gives nothing; a successful empty dump raises IndexError; otherwise a record comes out, together with the full stdout, exactly when the first line parses and the allow-list admits its key; a parsed key outside a non-empty allow-list gives nothing |
| Symbols.DumpArgs | scrapesymbols/gathersymbols.py:60-67 | off darwin the command is `[dump_syms, path]`; on darwin it is `[dump_syms, "-a", arch, path]`, and a missing arch raises TypeError |
| Symbols.GetArchs | scrapesymbols/gathersymbols.py:39-46 | off darwin the result is `[None]`; on darwin it fails exactly when `lipo` exits non-zero (CalledProcessError) or its output has fewer than two colons (IndexError), and otherwise every arch is a non-empty whitespace-free token |
| Symbols.LipoInfoArchs | scrapesymbols/gathersymbols.py:45 | a successful `lipo -info` whose third colon field lists tokens yields exactly those tokens |
| Symbols.FeedEntry | scrapesymbols/gathersymbols.py:100-106 | a key comes out only from a line with a comma; its first field ends with the extension and neither field holds a comma |
| Symbols.FeedEntryOf | scrapesymbols/gathersymbols.py:100-106 | a line `debug_file,debug_id[,more]` with the extension yields exactly that pair |
| Symbols.PlatformSymbols | scrapesymbols/gathersymbols.py:93-107 | the loop returns what `ParseFeed` defines: StopIteration for an empty feed, otherwise the set of entries of the lines after the header |
| Symbols.FeedKeysMember | scrapesymbols/gathersymbols.py:99-106 | a key is in the set exactly when some body line yields it |
| Symbols.FeedKeysExtension | scrapesymbols/gathersymbols.py:94-106 | every key's debug file ends with the platform's library extension |
| Symbols.FeedHeaderIgnored | scrapesymbols/gathersymbols.py:96-98 | the header line never affects the result |
| Symbols.ManifestLines | scrapesymbols/gathersymbols.py:186-187 | the manifest of newline-free names splits back into those names |
| Symbols.AcceptedNamesOrderFree | scrapesymbols/gathersymbols.py:152-154 | the set of accepted names does not depend on the order results arrive in |
| PackagedGather.ScanRoots | scrapesymbols/gathersymbols.py:182 | `main` always scans something: the files named on the command line, or else the absolute system directories |
| PackagedGather.ShouldProcess | scrapesymbols/gathersymbols.py:31-37 | a file is processed exactly when its `file` description starts with `Mach-O` on darwin and `ELF` elsewhere |
| PackagedGather.ServerHasFile | scrapesymbols/gathersymbols.py:48-56 | the answer is "present" only for status 200; a failed request counts as absent |
| PackagedGather.ProcessFile | scrapesymbols/gathersymbols.py:59-91 | a missing darwin arch raises TypeError; an accepted result passed the parse, the allow-list and the probe, with contents equal to stdout; every admitted name is accepted; the job raises, and then with IndexError, exactly when the dump succeeds with empty output |
| PackagedGather.AcceptedIsTruthy | scrapesymbols/gathersymbols.py:91 | an accepted result has a non-empty name and non-empty contents |
| PackagedGather.FilteredNeverProbes | scrapesymbols/gathersymbols.py:78-84 | a key outside a non-empty allow-list is rejected whatever the server would answer |
| PackagedGather.EmptyFilterIsNoFilter | scrapesymbols/gathersymbols.py:78 | an empty allow-list behaves exactly like no allow-list |
| PackagedGather.ProbeFailureArchives | scrapesymbols/gathersymbols.py:52-56 | a wanted dump whose HEAD request fails is accepted |
| PackagedGather.LinuxModuleScenario | scrapesymbols/gathersymbols.py:72-91 | the dump `MODULE Linux x86_64 ABCD1234 libfoo.so` with no filter and a 404 probe gives `libfoo.so/ABCD1234/libfoo.so.sym` with the full dump |
| Symbols.WalkPathsAt | scrapesymbols/gathersymbols.py:129-131 | each walked file becomes `os.path.join(root, f)` in walk order |
| PackagedGather.BinariesMember | scrapesymbols/gathersymbols.py:132-135 | a path is yielded exactly when it is a candidate that `should_process` accepts |
| PackagedGather.GetFilesFilters | scrapesymbols/gathersymbols.py:121-135 | `get_files` is the filter of the expanded paths, in order |
| PackagedGather.AllSourcesMember | scrapesymbols/gathersymbols.py:127-135 | a candidate comes from some given path: the path itself or a file walked under a directory |
| PackagedGather.GetFilesMember | scrapesymbols/gathersymbols.py:121-135 | a file is yielded exactly when `should_process` accepts it and it is a given path or lies under a given directory |
| PackagedGather.DebugPathAsWritten | scrapesymbols/gathersymbols.py:145-149 | as written, the debug copy is used only when the platform is exactly `linux` |
| PackagedGather.DebugPathAsWrittenMissesLinux2 | scrapesymbols/gathersymbols.py:145 | on `linux2` the existing debug copy is never used |
| PackagedGather.DebugPath | scrapesymbols/gathersymbols.py:145-149 | on any `linux*` platform the debug copy is used exactly when it exists, and the path is kept otherwise |
| PackagedGather.DebugPathExtendsAsWritten | scrapesymbols/gathersymbols.py:145-149 | the corrected rule agrees with the written one on `linux`, also fires on `linux2`, and never fires off Linux |
| PackagedGather.ProcessPaths | scrapesymbols/gathersymbols.py:140-151 | the loop submits the jobs `Jobs` defines for the yielded files (resolved, then debug-substituted by the corrected rule `DebugPath`, one per arch), or the first arch-listing failure |
| PackagedGather.SubmitArchs | scrapesymbols/gathersymbols.py:150-151 | the arch loop adds exactly one job per listed architecture of the path, in order, after the jobs already submitted |
| PackagedGather.JobsFailurePersists | scrapesymbols/gathersymbols.py:150 | once an arch listing fails, later files do not change the outcome |
| PackagedGather.OneJobPerFileOffDarwin | scrapesymbols/gathersymbols.py:150-151 | off darwin there is exactly one job per file, with no arch, in file order |
| PackagedGather.JobsOnDarwinExtend | scrapesymbols/gathersymbols.py:150-151 | on darwin a new file adds one job per listed arch, in order |
| PackagedGather.KeptProperties | scrapesymbols/gathersymbols.py:182-185 | archived names are pairwise distinct, they are exactly the accepted names, and each entry is an accepted result |
| PackagedGather.KeptCount | scrapesymbols/gathersymbols.py:183-185 | the archive holds one entry per distinct accepted name |
| PackagedGather.DistinctNamesCount | scrapesymbols/gathersymbols.py:183-184 | entries with distinct names have as many names as entries |
| PackagedGather.Collect | scrapesymbols/gathersymbols.py:178-192 | `file_list` is the set of accepted names; the archive is dropped exactly when it is empty; otherwise it holds the kept entries followed by the manifest of their names |
| PackagedGather.ArchiveFromAnyCompletionOrder | scrapesymbols/gathersymbols.py:151-185 | for any completion order, the archived names are those accepted over all jobs, and each entry comes from some job that passed the dump, the allow-list and the probe |
| ScriptGather.ShouldProcess | gathersymbols.py:27-34 | a file is processed exactly when it passes the gate (`.dylib` or executable on darwin; `.so` anywhere or executable elsewhere) and its description starts with the platform's magic |
| ScriptGather.ClosedGateIgnoresProbe | gathersymbols.py:29-34 | a file outside the gate is rejected whatever `file` would print |
| ScriptGather.GateRefinesPackaged | gathersymbols.py:27-34 | the gated rule accepts only what the packaged rule accepts, and agrees with it inside the gate |
| ScriptGather.VersionedSharedObjectPassesGate | gathersymbols.py:32 | off darwin any name containing `.so`, such as `libc.so.6`, passes the gate |
| ScriptGather.ServerHasFile | gathersymbols.py:45-50 | a failed request raises RequestException; otherwise "present" means status 200 |
| ScriptGather.ProcessFile | gathersymbols.py:53-85 | with `./dump_syms`: a failed dump is rejected; an accepted result passed the parse, the allow-list and a probe that got a status; every admitted name whose probe gets a status is accepted; the job raises only IndexError or RequestException: IndexError exactly when the dump succeeds with empty output, and RequestException exactly when a found, admitted dump's probe fails |
| ScriptGather.ProcessFileAgreesWhenServerAnswers | gathersymbols.py:53-85 | when every probe gets a status, the result equals the packaged rule's with `./dump_syms` |
| ScriptGather.CandidatesMember | gathersymbols.py:119-121 | a walked path is yielded exactly when `should_process` accepts it |
| ScriptGather.GetFilesFilters | gathersymbols.py:115-121 | `get_files` is the filter of all walked paths, directory by directory |
| ScriptGather.WalkedMember | gathersymbols.py:116-119 | a path is walked exactly when it is listed under one of the directories |
| ScriptGather.GetFilesMember | gathersymbols.py:115-121 | a file is yielded exactly when it is listed under some directory and accepted |
| ScriptGather.FileStepsOffDarwin | gathersymbols.py:41-43 | off darwin each file gives exactly one job, with no arch |
| ScriptGather.RunCrashPersists | gathersymbols.py:141-147 | after an exception escapes, later jobs do not change the outcome |
| ScriptGather.RunWithoutFailure | gathersymbols.py:142-147 | with no raising job the run finishes with every accepted entry in order, duplicates included |
| ScriptGather.RunFirstFailure | gathersymbols.py:142-147 | the first raising job ends the run with its error and the entries written before it |
| ScriptGather.RunFinishedIff | gathersymbols.py:141-147 | the loop finishes exactly when no job raises |
| ScriptGather.DuplicatesKept | gathersymbols.py:145-147 | two accepted results with the same name both appear in `file_list` |
| ScriptGather.AcceptsCount | gathersymbols.py:145-146 | `file_list` has one entry per accepted result |
| ScriptGather.MainResult | gathersymbols.py:141-154 | the run aborts exactly when a job raised, leaving the partial archive; `symbols.zip` is removed exactly when nothing was accepted; otherwise the archive is kept and is the entries followed by the manifest |
| ScriptGather.Gather | gathersymbols.py:140-154 | the nested loops produce `MainResult` of the fold over the outcomes of every (file, arch) job, in order |
| ScriptGather.DumpFile | gathersymbols.py:143-147 | the inner arch loop extends the archive and `file_list` as the fold over that file's jobs does, or stops at the first exception |
| ScriptGather.Absorb | gathersymbols.py:145-147 | one result moves the run on: an accepted result is appended to the archive and to `file_list`, a rejected one leaves both alone, and a raised one ends the run with the entries written so far |
| ScriptGather.DumpArchs | gathersymbols.py:144-147 | over one file's known architectures, the loop extends the archive and `file_list` as the fold over that file's jobs does, or stops at the first exception with the entries written so far |
| Upload.NormalizeRoot | uploadsymbols.py:7-8 | the root ends with `/` and extends the given path; it is unchanged exactly when it already ended with `/` |
| Upload.NormalizeRootIdempotent | uploadsymbols.py:7-8 | normalising twice equals normalising once |
| Upload.SelectionIsStrict | uploadsymbols.py:39 | after a run, a file is selected exactly when its mtime is strictly later; an equal mtime is not selected |
| Upload.ZipName | uploadsymbols.py:41 | the zip name is never longer than the path |
| Upload.ZipNameStripsRootAndSuffix | uploadsymbols.py:41 | for `root + rel + ".gz"` the zip name is `rel` |
| Upload.ZipNameAtTop | uploadsymbols.py:36-41 | a file at the top of the root gets its name without `.gz` |
| Upload.ZipNameBelow | uploadsymbols.py:36-41 | a file under a subdirectory gets `sub/name` without `.gz` |
| Upload.GzNoLeadingSlash | uploadsymbols.py:38 | a relative file name stays relative once `.gz` is appended |
| Upload.GatheredMatchesFresh | uploadsymbols.py:36-47 | one entry per selected file in walk order, named by its zip name and holding its gunzipped bytes |
| Upload.GatheredFailsIff | uploadsymbols.py:46 | the walk fails, with IOError, exactly when some selected file does not gunzip |
| Upload.GatheredFailurePersists | uploadsymbols.py:36-46 | once a selected file fails to gunzip, later files do not change the outcome |
| Upload.NothingNewSinceLastRun | uploadsymbols.py:36-47 | when no mtime is later than the last run, nothing is gathered |
| Upload.NoUploadWithoutSelection | uploadsymbols.py:49 | with no selected file nothing is copied, unpacked or failed |
| Upload.CopiedArchiveShape | uploadsymbols.py:49-64 | a copy happens only after `scp` succeeds on a non-empty selection, and the archive is the gathered entries followed by the index of their names |
| Upload.IndexListsNames | uploadsymbols.py:57 | the index of newline-free names splits back into those names |
| Upload.UnpackNeedsCopy | uploadsymbols.py:64-74 | an unpack happens only after a copy, only when `ssh` succeeds, and only in a run that ends without an exception |
| Upload.Walk | uploadsymbols.py:35-47 | the walk loop writes the `Gathered` entries for the root and the last-run time, or stops with the IOError of the first selected file that does not gunzip; on success `file_index` is the entries' names in walk order |
| Upload.Uploader.Run | uploadsymbols.py:10-85 | the copy, unpack and error follow `Plan` from the previous last-run time; the last-run file becomes the current time exactly when no exception escaped, and is otherwise unchanged |

## Left out

- The external tools `file`, `lipo`, `dump_syms`, `scp` and `ssh` are
  oracles. Their results are taken as given: tool output, exit status, or
  a boolean for `scp` and `ssh`. A non-zero exit of `dump_syms` is caught,
  and a non-zero exit of `lipo` raises CalledProcessError; both are
  modelled. The `OSError` raised when a tool cannot be started is not
  modelled, and neither is a failing `file` command, whose
  CalledProcessError would escape `should_process`.
- HTTP: `requests.head` is the `head` oracle. `fetch_missing_symbols` (the
  five-day date loop over `requests.get`) is not modelled: the missing set
  is an input. `urljoin` and `quote` of the probe URL are left out; the
  oracle receives the symbol file name.
- The process pool and `as_completed` are not modelled. Results arrive in
  any permutation of the job outcomes. A job that raises is skipped, as in
  the source.
- A failure while enumerating jobs (`lipo` exiting non-zero, or its output
  having fewer than two colons, when `get_archs` runs in `process_paths`) is
  returned by `ProcessPaths`.
  It is not composed with `Collect` into a crash of the packaged `main`.
- The symlink `readlink` loop is the `resolve` oracle, so a cycle cannot
  make the model loop.
- Compression, `ZipInfo.external_attr` and the gzip format are not modelled.
  An archive is a sequence of (name, bytes) entries, and gunzip is an oracle
  that either yields the bytes or fails.
- The zip warning when `writestr` repeats a name: the older script writes
  a duplicate twice, and the model keeps both entries.
- The unicode-to-ascii `'replace'` re-encoding of feed lines is taken as the
  identity (ASCII input). A `UnicodeDecodeError` on bytes that are not
  UTF-8 is not modelled.
- Clock-derived names: the manifest name (`ossyms-1.0-…-symbols.txt`) and
  the index name (`osxsyms-1.0-Darwin-…`) are parameters, and so is the
  current time.
- Command-line parsing is not modelled, nor are the `dump_syms` existence
  check, `os.path.abspath` of `dump_syms`, the `config` import and verbose
  printing.
- `process_file` reads `sys.platform` while `process_paths` passes its own
  `platform`. The model uses one platform for both.
- PackagedGather.ProcessPaths: the jobs use the corrected debug-path rule
  `DebugPath`, not the rule as written (`DebugPathAsWritten`). On `linux2`,
  the only Linux value of Python 2's `sys.platform`, with
  `/usr/lib/debug` + the resolved path present, the model submits the debug
  copy where the source submits the stripped file. The as-written rule and
  its difference are stated in "## Findings".
- PackagedGather.Collect: the manifest lists names in first-acceptance
  order. The source joins a Python set, whose iteration order Python does
  not specify.
- Upload.Uploader.Run: the last-run time is an exact real. The
  `str(float)`/`float()` round trip, a malformed last-run file, and
  `os.stat`/`open` errors (other than gunzip failure) are not modelled.
- The temporary file's lifecycle and the `ssh` command string are not
  modelled.

## Findings

| source | as written | input that shows it | evidently intended | confidence | as-written member | corrected member |
|---|---|---|---|---|---|---|
| scrapesymbols/gathersymbols.py:145 | the debug copy is substituted only when `platform == 'linux'` | running under Python 2 on Linux, where `sys.platform` is `'linux2'`, with `/usr/lib/debug/lib/libc.so.6` present: the stripped `/lib/libc.so.6` is dumped | use `/usr/lib/debug` + path whenever it exists on any Linux platform string | high, not executed | PackagedGather.DebugPathAsWritten | PackagedGather.DebugPath |

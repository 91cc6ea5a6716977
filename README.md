# dice_sensei core, modelled in Dafny

DiceSensei is a desktop assistant that answers questions about tabletop
role-playing rules with a local Ollama language model. This project models the
parts of it that make decisions, and proves properties about them:

- **The request pipeline of `OllamaManager`** (`pipeline.dfy`, module `RequestPipeline`).
  - It compresses long document context to a fixed head and tail.
  - It chooses between the two prompt templates and fixes the inference options.
  - It post-processes the model's answer: a word limit with a backward scan for a sentence end.
  - It maps each kind of failure to a fixed reply and rewrites emojis in progress messages into tags.
  - It computes the CPU and RAM defaults.
- **The server supervisor of `OllamaManager`** (`supervisor.dfy`, module `Supervisor`).
  - It is a class whose methods update `isRunning`, `currentModel`, the preload latch and the process handle.
  - Everything outside the program is an oracle: the health-check answers, the installation, the spawn outcomes, the process table each scan sees, the answer to each tag listing request, the pull exit codes, and the preload and generate answers.
  - Health probes, process scans and tag listings each read the next answer of their own series, so a server or a process started by one strategy is visible to every later call.
  - It covers the start sequence (terminal strategy, background strategy, process scan), the bounded polling loops, model selection, preloading, diagnosis, stopping the server and `generate_response`.
- **The settings tree of `ConfigManager`** (`settings.dfy`, module `Settings`).
  - JSON values are a datatype, and the recursive `_deep_merge` is modelled.
  - It covers dotted-path reads and writes, and the fallbacks to the defaults.
- **The update decision logic of `DiceSenseiUpdater`** (`updater.dfy`, module `Updater`).
  - It covers the installed version, `v`-prefixed version comparison and platform asset selection.
  - It also covers the checksum lookup and the order of the download checks.
- **The checksum file tool** (`checksums.dfy`, module `Checksums`).
  - It covers the `hash  path` lines that `generate_checksums` writes.
  - It covers the parsing, classification and counting done by `verify_checksums`.
  - It proves that a freshly generated file verifies.
- **The model downloader of the installer** (`downloader.dfy`, module `Downloader`).
  - It covers the catalogue, the validation and progress filter of `download_model`, and the `ollama list` parser.
  - It also covers the server block and the choice check in `main`.

`text.dfy` (module `Text`) defines the Python string operations the code relies on, with their algebra:
- `str.split()` and `' '.join`;
- `strip`;
- `split(sep)` and `sep.join`;
- `in`, `startswith`, `endswith`, `lower` and `replace`.

`wrappers.dfy` holds `Option`.

## Behaviour worth noting

- **Truncation note.** When `_ensure_complete_response` finds no sentence end, it appends `... [respuesta truncada por longitud]` to the first `max_words` words. The result then has `max_words + 4` words, more than the limit (`RequestPipeline.ResponseTruncationNote`).
- **Connection errors.** A connection error during generation only returns a message. The one restart attempt is the pre-check of `generate_response` (`Supervisor.OllamaManager.GenerateResponse`).
- **Process scan.** The process scan at the end of `start_ollama_server` returns True only after one more healthy probe. The terminal strategy reports success when an `ollama` process merely exists, even though no probe passed.

## Model

| member | source | states |
|---|---|---|
| RequestPipeline.CompressContext | src/ollama_manager.py:498-505 | None, or context of at most 2000 characters, comes back unchanged. Longer context becomes its first 1200 characters, the 30-character marker, then its last 800 characters: always 2030 characters. |
| RequestPipeline.CompressIdempotent | src/ollama_manager.py:498-505 | Compressed context is at most 2030 characters long, and compressing it again changes nothing. |
| RequestPipeline.BuildPrompt | src/ollama_manager.py:547-568 | The document template is chosen exactly when non-empty context is given. It carries the compressed context, 1 to 2030 characters, and the question is kept in both templates. |
| RequestPipeline.OptimizedParameters | src/ollama_manager.py:485-496 | Every inference option is a fixed constant, including the three stop strings, except the thread count, which is the detected core count. |
| RequestPipeline.DetectCpuCores | src/ollama_manager.py:63-70 | The reported physical core count when it is at least 1; otherwise 4. The result is never below 1. |
| RequestPipeline.RoundHalfEven | src/ollama_manager.py:72-79 | Python's `round(n / d)`: within half a unit of the quotient, with ties going to the even neighbour. |
| RequestPipeline.DetectRamGb | src/ollama_manager.py:72-79 | 8 when the memory query fails, and 8 when the total is at most half a GiB, since it then rounds below 1. Otherwise the total rounded to the nearest whole GiB, a tie going to the even one. Never below 1. |
| RequestPipeline.ScanDown | src/ollama_manager.py:519-524 | The backward scan returns the highest index above `max(0, n-50)` whose word ends a sentence, or -1 when every examined word fails. |
| RequestPipeline.CutPoint | src/ollama_manager.py:516-524 | The cut point is -1 or an index above the scan floor holding a sentence end, with no later sentence end. Index 0 is never a cut point. |
| RequestPipeline.EnsureCompleteResponse | src/ollama_manager.py:507-534 | The backward loop computes exactly the response that CompleteResponse specifies. |
| RequestPipeline.ResponseUnchangedWithinLimit | src/ollama_manager.py:509-514 | Empty text, or text with at most `max_words` words, is returned unchanged. |
| RequestPipeline.ResponseCutAtSentence | src/ollama_manager.py:516-527 | Over the limit with a cut point: the answer's words are the input's words up to the cut point. It has at most `max_words` words and ends in `.`, `?` or `!`. |
| RequestPipeline.ResponseTruncationNote | src/ollama_manager.py:529-531 | Over the limit, with no cut point and no closing punctuation: the note is appended to the first `max_words` words, and the answer has exactly `max_words + 4` words. |
| RequestPipeline.ResponseNonEmpty | src/ollama_manager.py:507-534 | Post-processing never turns non-empty text into an empty answer. |
| RequestPipeline.ReplyFor | src/ollama_manager.py:593-613 | The reply is never empty. A blank answer gets the "reformulate" message. A real answer is stripped and post-processed with a limit of 600 words. A timeout, a connection error or any other failure each get their fixed message; the last one also carries the error text. |
| RequestPipeline.UpdateProgress | src/ollama_manager.py:109-121 | Without a callback nothing is delivered. With one, the message is delivered with the nine replacements applied in table order. |
| RequestPipeline.NoEmojiSurvives | src/ollama_manager.py:111-121 | No emoji of the table survives in a delivered progress message. |
| RequestPipeline.EmojiTagsShape | src/ollama_manager.py:111-118 | Every key of the table has one or two non-ASCII code points, and every tag is non-empty ASCII. |
| Supervisor.FirstHealthy | src/ollama_manager.py:227-243 | The number of unhealthy probes before the first healthy one is at most `n`. |
| Supervisor.PollSpec | src/ollama_manager.py:227-243 | A poll of `n` probes uses at most `n`. A success uses at least one, and a failure uses all `n`. |
| Supervisor.PollSkips | src/ollama_manager.py:227-243 | An unhealthy probe costs one and leaves the outcome to the remaining `n - 1` probes. |
| Supervisor.PollFindsFirstHealthy | src/ollama_manager.py:288-294 | Polling succeeds exactly when one of its probes is healthy, and it stops at the first healthy probe. |
| Supervisor.TerminalSpec | src/ollama_manager.py:202-247 | The terminal strategy makes at most 31 probes, and none when the spawn raises. It makes one process scan exactly when the spawn works and all 30 polls fail. It succeeds whenever that scan finds an ollama process, even if no probe passed. |
| Supervisor.BackgroundSpec | src/ollama_manager.py:249-298 | The background strategy makes at most 25 probes, and none when the spawn raises. |
| Supervisor.TerminalSucceedsWhen | src/ollama_manager.py:202-247 | The terminal strategy succeeds iff it spawns and either one of its 31 probes is healthy, or its process scan finds ollama. |
| Supervisor.BackgroundSucceedsWhen | src/ollama_manager.py:249-298 | The background strategy succeeds iff it spawns and one of its 25 polls is healthy. |
| Supervisor.FallbackSpec | src/ollama_manager.py:322-334 | After the terminal strategy fails, the background strategy is tried. When it fails, the process table is scanned again, and a scan that finds ollama costs one more probe. The fallback succeeds iff a background probe is healthy, or the scan finds ollama and that extra probe is healthy. It spends at most 26 probes and makes a scan exactly when the background strategy fails. |
| Supervisor.FallbackSucceedsWhen | src/ollama_manager.py:322-334 | The fallback succeeds iff the background spawn works and one of its 25 probes is healthy, or the second scan finds ollama and the probe right after the background polls is healthy. |
| Supervisor.SpawnShape | src/ollama_manager.py:316-334 | The spawning part spends at most 57 probes and two process scans. It tries the terminal strategy first, the background strategy iff the terminal one failed, and stopping after the first means success. |
| Supervisor.StartSpec | src/ollama_manager.py:300-338 | A healthy first probe succeeds without installing, spawning or scanning. Without an installation, and no Windows installer, the start fails after one probe. Otherwise the terminal strategy is tried, and the background strategy only when it fails. At most 58 probes and two process scans are made. |
| Supervisor.EnsureSpec | src/ollama_manager.py:356-412 | Each call is answered by its own tag listing. A listed model succeeds without a pull; names are compared as `get("name", "")`, so an entry without a name lists "" and a `null` name lists nothing. An unlisted model is pulled unless the tag request raised, and then succeeds iff the pull exits with 0. |
| Supervisor.FirstReady | src/ollama_manager.py:667-677 | Returns the index of the first candidate that `ensure_model_downloaded` accepts, each candidate answered by the next tag listing. Every earlier candidate is rejected. |
| Supervisor.PullsOnlyUnlisted | src/ollama_manager.py:356-412 | Every model pulled is a candidate that its own tag listing did not name. |
| Supervisor.Diagnose | src/ollama_manager.py:615-639 | The checks decide in order. "Down" when the probe fails. Then a non-200 listing is reported with its status, and a raised request with its error. "No models" iff the listing is empty. "Model missing" iff the listing is non-empty and no entry is named the current model; it carries that model and the listing's entries. "All good" iff the listing is non-empty and names the current model. |
| Supervisor.DiagnosisAgreesWithSelection | src/ollama_manager.py:629-631 | For a non-empty model name, the diagnosis is "all good" on a listing iff model selection accepts that model from the same listing without a pull. |
| Supervisor.NamelessEntryDiffers | src/ollama_manager.py:366 | For the name "", an entry without a name counts as listed for model selection, yet the diagnosis reports the model missing. |
| Supervisor.OllamaManager.constructor | src/ollama_manager.py:15-33 | The server is not running and the model is `phi3.5:latest`, not loaded. There is no process handle, no probe, scan or listing has been made yet, and cores and RAM come from the detection defaults. |
| Supervisor.OllamaManager.IsOllamaRunning | src/ollama_manager.py:142-150 | One probe is made, and `isRunning` records its answer. |
| Supervisor.OllamaManager.CheckExistingProcess | src/ollama_manager.py:340-354 | Each call reads the next process table. True iff that scan succeeds and some process name or path contains "ollama", ignoring case. |
| Supervisor.OllamaManager.PollHealth | src/ollama_manager.py:227-243 | The loop succeeds, and spends its probes, exactly as PollSpec says. `isRunning` holds the last probe's answer. |
| Supervisor.OllamaManager.StartTerminal | src/ollama_manager.py:202-247 | The method follows TerminalSpec exactly, in outcome, probes and scans. `isRunning` keeps holding the latest probe's answer. |
| Supervisor.OllamaManager.StartBackground | src/ollama_manager.py:249-298 | The method follows BackgroundSpec exactly. A successful spawn replaces the stored process handle. |
| Supervisor.OllamaManager.StartServer | src/ollama_manager.py:300-338 | The method follows StartSpec: the outcome, the probes used, the scans made and the strategies tried, in order. The process handle changes only when the background strategy was tried and spawned. `isRunning` holds the latest probe's answer. |
| Supervisor.OllamaManager.StartSpawning | src/ollama_manager.py:316-334 | The two strategies in sequence follow SpawnSpec, and `isRunning` still holds the latest probe's answer. |
| Supervisor.OllamaManager.StartFallback | src/ollama_manager.py:322-334 | The background strategy, the final scan and the extra probe follow FallbackSpec. A working background spawn replaces the handle. |
| Supervisor.OllamaManager.EnsureModelDownloaded | src/ollama_manager.py:356-412 | The result follows EnsureSpec for the next tag listing, and one listing is used. `current_model` changes only on success, and a pull is recorded exactly when one is made. |
| Supervisor.OllamaManager.SelectModel | src/ollama_manager.py:667-677 | The candidates are tried in order, stopping at the first that succeeds. The model becomes that candidate, and only the candidates tried are pulled. |
| Supervisor.OllamaManager.SetupEnvironment | src/ollama_manager.py:657-688 | A failed start returns False with no pulls and no listing. Otherwise `phi3.5:latest`, `phi:2.7b` and `mistral:7b` are tried in that order, and the result is False only if all fail. `isRunning` holds the latest probe's answer, and the handle changes only as StartServer says. |
| Supervisor.OllamaManager.PreloadModel | src/ollama_manager.py:414-449 | Once loaded, the model is never requested again. Otherwise one request is made, and it latches only on status 200 with "LISTO" in the reply. |
| Supervisor.OllamaManager.DiagnosticCheck | src/ollama_manager.py:615-639 | One probe is made, and a tag listing is requested only when it is healthy. The result is Diagnose of the probe's answer, that listing and the current model. |
| Supervisor.OllamaManager.StopServer | src/ollama_manager.py:641-655 | A running server is terminated, then killed if it does not exit in time. The handle is then cleared. |
| Supervisor.OllamaManager.GenerateResponse | src/ollama_manager.py:536-613 | The reply is never empty. When the pre-check probe fails, the server is restarted once; if that fails, the unavailable message is returned without a request. Otherwise exactly one request is sent, with the chosen model, template and options, and its outcome is mapped by ReplyFor. `isRunning` holds the latest probe's answer, and the handle changes only through the restart, as StartServer says. |
| Settings.Merge | src/config_manager.py:193-205 | The keys are those of both inputs. A key only in the base keeps its value. A shared key whose two values are objects is merged recursively. Otherwise the update's value wins. |
| Settings.MergeEmpty | src/config_manager.py:193-205 | An empty update leaves the base as it is, and an empty base yields the update. |
| Settings.MergeSelf | src/config_manager.py:193-205 | Merging a tree over itself gives it back. |
| Settings.MergeUpdateIdempotent | src/config_manager.py:193-205 | Applying the same update twice is the same as applying it once. |
| Settings.GetPath | src/config_manager.py:143-155 | The empty path reads the value itself. A successful read walks through objects holding each key. |
| Settings.SetPath | src/config_manager.py:157-175 | A successful update keeps the top-level keys and adds the first key of the path. |
| Settings.SetPathSucceeds | src/config_manager.py:157-175 | The update fails exactly when the walk meets an existing value that is not an object before the last key. |
| Settings.EmptyNeverBlocked | src/config_manager.py:163-167 | Over an empty tree the walk is never blocked: missing dictionaries are created. |
| Settings.SetPathReadsBack | src/config_manager.py:157-171 | After a successful update, the path reads back the new value. |
| Settings.SetPathFrame | src/config_manager.py:157-171 | Every path that parts from the updated one reads the same before and after. |
| Settings.MergeReadsUpdate | src/config_manager.py:193-205 | Where the update holds `v`, the merge holds `v`, or `v` merged with the base's object there when both are objects. |
| Settings.Loaded | src/config_manager.py:100-111 | A missing, unreadable or non-object file yields the defaults. Otherwise the file's object is merged over the defaults, so every default key is present. |
| Settings.SelectedModel | src/config_manager.py:124-131 | A stored object with a `selected_model` entry gives that entry. The default `mistral:7b` when the object lacks the key or the file is missing or unreadable. None iff the file holds JSON that is not an object. |
| Settings.SetSettingAsWritten | src/config_manager.py:157-175 | As written: success iff saving works and the walk is not blocked, and a failure leaves the file alone. The defaults change only when the walk passes through a dictionary the defaults share. |
| Settings.SetSettingLeaksIntoDefaults | src/config_manager.py:157-175 | As written, with no usable file and a failing save, a write under an existing section reports failure. Yet reading the path afterwards returns the new value. |
| Settings.ThemeLeak | src/config_manager.py:157-175 | Concretely, `get_setting("ui.theme")` reads "light". After a failed `set_setting("ui.theme", "dark")`, it reads "dark". |
| Settings.ConfigManager.constructor | src/config_manager.py:90-98 | A missing file is written with its defaults when saving works. Any other file is kept as it is. |
| Settings.ConfigManager.LoadSettings | src/config_manager.py:100-111 | The loaded settings hold every default key. They are the defaults when the file is unusable. |
| Settings.ConfigManager.GetSetting | src/config_manager.py:143-155 | The cursor walk returns the value at the dotted path, or `default` exactly when the path does not resolve. |
| Settings.ConfigManager.SetSetting | src/config_manager.py:157-175 | Corrected (the as-written member is `Settings.SetSettingAsWritten`): succeeds iff saving works and the walk is not blocked, and then stores the updated tree. On failure nothing changes. |
| Settings.ConfigManager.GetSelectedModel | src/config_manager.py:182-185 | The stored `selected_model` when the models file holds an object with one, `mistral:7b` when it lacks one or the file is missing or unreadable. None iff the file holds JSON that is not an object. |
| Settings.SetThenGet | src/config_manager.py:157-171 | After a successful `set_setting(p, v)`, reloading reads `v` at `p`, merged with the defaults' object there when both are objects. |
| Updater.CurrentVersion | src/updater.py:24-35 | The version file's `version` entry. "1.0.0" when the file is missing or unreadable, or lacks the entry. |
| Updater.ParseInt | src/updater.py:72 | `int()` succeeds iff the stripped text is a digit run (single `_` between digits allowed) or a sign followed by one. Its value is the run's decimal value, negated after `-`. Anything else, including empty text, is the ValueError (None). |
| Updater.ParseDecimal | src/updater.py:72 | A formatted natural parses back to itself. |
| Updater.LStripV | src/updater.py:72 | `lstrip('v')` returns a suffix that does not start with `v`, and everything before it is `v`s: the longest such suffix. |
| Updater.ParseAll | src/updater.py:72 | None iff some component is rejected by `int()`. Otherwise one integer per component, each the value `int()` gives that component. |
| Updater.ParseNumerals | src/updater.py:72 | The components of dotted naturals parse back, one by one, to those naturals. |
| Updater.LexLessIrreflexive | src/updater.py:77 | Python list `<` is irreflexive. |
| Updater.LexLessTransitive | src/updater.py:77 | Python list `<` is transitive. |
| Updater.LexLessTotal | src/updater.py:77 | Python list `<` is total on distinct lists and asymmetric. |
| Updater.ProperPrefixIsLess | src/updater.py:77 | A proper prefix is smaller. |
| Updater.NewerIsStrictOrder | src/updater.py:68-80 | `is_newer_version` is irreflexive and asymmetric. |
| Updater.ParseFormatted | src/updater.py:71-72 | Any number of leading `v`s followed by dotted naturals parses to those naturals. |
| Updater.NewerIsListOrder | src/updater.py:68-77 | For well-formed tags, with any `v` prefixes, one version is newer iff its number list is lexicographically greater. |
| Updater.PatchSample | tests/test_updater.py:34-51 | "1.0.1" is newer than "1.0.0". |
| Updater.MajorSample | tests/test_updater.py:111-122 | "v2.0.0" is newer than "1.9.0". |
| Updater.ShortTagSample | tests/test_updater.py:34-51 | "1.0" is not newer than "1.0.0", but "1.0.0" is newer than "1.0". |
| Updater.InvalidVersionSamples | tests/test_updater.py:124-139 | "invalid" and "" are never newer than any version (the tests use "1.0.0"), and no version is newer than either. |
| Updater.UnparseableNeverNewer | src/updater.py:79-80 | A version with any component that `int()` rejects does not parse, and the comparison is False in both directions. |
| Updater.BadComponentNeverNewer | src/updater.py:68-80 | A tag made of dot-free components, the first not starting with `v`, is neither newer nor older than anything as soon as one component is rejected by `int()`. |
| Updater.LetterComponentSample | src/updater.py:68-80 | "1.x" is neither newer nor older than any version. |
| Updater.EmptyComponentSample | src/updater.py:68-80 | "1..0" is neither newer nor older than any version. |
| Updater.SuffixComponentSample | src/updater.py:68-80 | "1.0-beta" is neither newer nor older than any version. |
| Updater.BadStartUnparseable | src/updater.py:71-72 | A version that is empty after its `v`s, or whose next character cannot start an integer, does not parse. |
| Updater.SystemWord | src/updater.py:134-142 | A platform word exists exactly for win32, darwin and linux. |
| Updater.FindCorrectAsset | src/updater.py:132-149 | The first asset whose lowercased name contains the platform word and ends in `.zip`. None for an unmapped platform, or when no asset fits. |
| Updater.LinesHit | src/updater.py:236-238 | No hit iff no line contains the file name. |
| Updater.LinesHitFirst | src/updater.py:236-238 | A hit is decided by the first line containing the name: its first token, or the error when it has none. |
| Updater.ExpectedHash | src/updater.py:228-241 | None when the release has no `checksums.sha256` asset. |
| Updater.ExpectedHashSource | src/updater.py:228-241 | A hash found comes from a fetched `checksums.sha256` asset whose first line naming the file has that hash as first token, and every earlier checksum asset was fetched with no line naming the file. |
| Updater.ExpectedHashSkips | src/updater.py:231-238 | Checksum assets that are fetched and have no line naming the file do not change the lookup. |
| Updater.ExpectedHashFinds | src/updater.py:231-238 | When every earlier checksum asset is passed over and the next one is fetched with a first line naming the file whose first token is `t`, the expected hash is `t`. |
| Updater.ExpectedHashNoMatch | src/updater.py:228-241 | When every checksum asset is fetched and no line of any names the file, there is no expected hash. |
| Updater.ExpectedHashStops | src/updater.py:228-241 | The first checksum asset not passed over ends the lookup with None when its request fails or its first line naming the file has no token. |
| Updater.GetExpectedHash | src/updater.py:228-241 | The nested loops compute ExpectedHash. |
| Updater.VerifyDownload | src/updater.py:179-213 | A size mismatch fails before the zip test, and a zip failure fails before the hash. The hash fails iff a non-empty expected hash differs. The download is accepted iff size and zip pass and the hash matches or none is published. |
| Checksums.RenderAppend | tools/generate_hashes.py:32-55 | Appending an entry appends exactly its `hash  path` line. |
| Checksums.DistWrittenExactly | tools/generate_hashes.py:33-40 | A `dist` entry is written iff some listed file has that path and hash, is a file, is not a dotfile and hashed to a non-empty string. |
| Checksums.ConfigWrittenExactly | tools/generate_hashes.py:42-55 | A config entry is written iff its path is one of the three config files, and that file exists with a non-empty hash. |
| Checksums.WriteDist | tools/generate_hashes.py:33-40 | The walk over `dist` writes exactly the rendering of DistWritten and counts its entries. |
| Checksums.WriteConfigs | tools/generate_hashes.py:42-55 | The config loop appends exactly the rendering of the config entries written, after the `dist` part, and counts them too. |
| Checksums.GenerateChecksums | tools/generate_hashes.py:25-64 | The file content is the rendering of the written entries, `dist` first and then the config files. The count is the number of lines written. |
| Checksums.ParseLine | tools/generate_hashes.py:80-87 | Corrected parse: a line is skipped iff it has fewer than two tokens. A parsed hash is one token, and the path is non-empty and single-spaced. |
| Checksums.ParseLineAsWritten | tools/generate_hashes.py:80-87 | As written: a line is skipped iff it has fewer than two tokens. |
| Checksums.ShortLineSkipped | tools/generate_hashes.py:80-87 | A blank line or a one-token line is skipped by both readings. |
| Checksums.ParseWrittenLine | tools/generate_hashes.py:38 | A written line parses back to its entry when the hash is one token and the path is single-spaced. |
| Checksums.SpacedPathLosesFirstWord | tools/generate_hashes.py:87 | As written: a path of two or more words is read back without its first word, which changes it. |
| Checksums.MyFileMisread | tools/generate_hashes.py:87 | As written: the line `0f  my file.txt` is read as the path `file.txt`. |
| Checksums.MyFileRead | tools/generate_hashes.py:87 | Corrected: the same line is read as `my file.txt`. |
| Checksums.SpacedPathCheckedWrongly | tools/generate_hashes.py:84-100 | As written, the line written for a path of two or more words is checked against the path without its first word. The corrected check looks up the whole path. |
| Checksums.MyFileVerdicts | tools/generate_hashes.py:84-100 | With only `my file.txt` on disk, hashing to `0f`, its line is "not found" as written and "verified" when corrected. |
| Checksums.VerifyChecksums | tools/generate_hashes.py:66-108 | Corrected parse (lines 84-87 read with `Checksums.ParseLine`; the as-written reading is `Checksums.CheckAsWritten`). A missing hash file gives False with zero counts. Otherwise the line loop computes the Verification report: verified and mismatch counts, and `ok` iff no mismatch. |
| Checksums.CountLines | tools/generate_hashes.py:79-101 | Corrected parse: the line loop ends with `verified` and `errors` equal to the number of verified and of mismatching lines. |
| Checksums.CheckLine | tools/generate_hashes.py:80-101 | Corrected parse: line `i` is classified as Check says. It is skipped when it does not parse, missing when the file is absent, verified iff the hashes agree, and a mismatch otherwise. |
| Checksums.TallyChecks | tools/generate_hashes.py:89-101 | Counting the outcome sequence agrees with counting the lines one by one. |
| Checksums.VerdictMeansNoMismatch | tools/generate_hashes.py:108 | The verdict is True iff no line is a hash mismatch, so missing files never cause failure. |
| Checksums.CountZero | tools/generate_hashes.py:89-101 | A class counts zero iff no line falls in it. |
| Checksums.TallyZero | tools/generate_hashes.py:89-101 | No outcome is counted iff none of the outcomes is of that class. |
| Checksums.CountHead | tools/generate_hashes.py:89-101 | A verified line counts one for `verified` and a mismatch one for `errors`. Skipped and missing files count for neither. |
| Checksums.GeneratedFileVerifies | tools/generate_hashes.py:25-108 | Corrected parse: a freshly generated file, checked against a disk holding the hashed contents, verifies. Every present file counts as verified, there are no errors, and there is one line per entry plus the final empty one. |
| Downloader.CatalogueShape | installer/download_models.py:19-38 | The catalogue has exactly three models; `phi3.5:latest` and `mistral:7b` are recommended and `phi:2.7b` is not. |
| Downloader.AnyKeywordMeans | installer/download_models.py:95-96 | The keyword filter holds iff one of the keywords occurs in the line. |
| Downloader.MentionsProgressIgnoresCase | installer/download_models.py:95-96 | The progress filter ignores letter case. |
| Downloader.CleanedExactly | installer/download_models.py:89-93 | The forwarded lines are exactly the non-empty stripped output lines. |
| Downloader.ShownExactly | installer/download_models.py:94-97 | Without a callback, exactly the cleaned lines mentioning a progress keyword are printed, indented by three spaces. |
| Downloader.DownloadModel | installer/download_models.py:53-110 | A pull is started iff ollama is installed and the name is in the catalogue. Success iff the pull ran and exited with 0. Output is forwarded to the callback, or filtered and printed, only when a pull ran. |
| Downloader.FirstTokens | installer/download_models.py:145-148 | At most one name per line, each a single token. |
| Downloader.FirstTokensExactly | installer/download_models.py:145-148 | A name is collected iff it is the first token of some line. |
| Downloader.GetDownloadedModels | installer/download_models.py:125-156 | Returns the names of a successful listing. `[]` on a non-zero exit, a timeout or an exception. |
| Downloader.ParseListing | installer/download_models.py:141-150 | Given the lines of the stripped output, the header line is skipped, then the first token of each non-blank line is taken, in order. Header-only output gives `[]`. |
| Downloader.ReadPullOutput | installer/download_models.py:85-97 | With a callback, exactly the non-empty stripped output lines are forwarded, in order, and nothing is printed. Without one, nothing is forwarded and exactly the cleaned lines that mention progress are printed. |
| Downloader.CollectNames | installer/download_models.py:145-149 | The append loop computes FirstTokens. |
| Downloader.ListingRoundTrip | installer/download_models.py:141-149 | Parsing a well-formed `ollama list` table gives back its model names, in order. |
| Downloader.StartServer | installer/download_models.py:171-184 | A 200 answer starts nothing. Any other status runs `ollama serve` with its 10-second limit. A raised request, or a run that raises, leads to a spawn, and the script stops iff that spawn raises. |
| Downloader.Choose | installer/download_models.py:164-204 | The checks run in order. A download is chosen iff ollama is installed, the server block lets the script go on, and the stripped answer names a catalogue model. A spawn failure stops the script before the question, and an empty answer is rejected as no choice. The script exits as not installed iff ollama is missing, and an invalid choice carries the stripped answer. |

## Left out

- HTTP requests, `subprocess` calls, `psutil` scans, `time.sleep` and SHA-256 are not modelled. Their answers are oracles: the fields of `Supervisor.Env`, `fetch` in `Updater`, the `disk` map and the hashes in `Checksums`, and the process outcomes in `Downloader`.
- `Supervisor.Env.pull`, `preload` and `generate` answer by their argument, not per call: the same model always gets the same pull exit code, and every preload gets the same answer. Two calls with the same argument answering differently are not modelled; no property here relies on a second such call.
- Wall-clock time and timeouts are not modelled. A timeout is one of an oracle's answers.
- `install_ollama_windows`, `_ensure_psutil_installed`, `get_ollama_path`, `is_ollama_installed` and `_setup_encoding` are left out, as installer and environment plumbing. Only their outcome (installed, installer works) enters `Supervisor.Env`.
- `interactive_warm_up` is left out: its answer does not affect the result of `setup_environment`.
- The prompt template wording is not modelled; only the choice of template is.
- The floating-point options are fixed constants.
- In `ensure_model_downloaded`, the progress text shown during a pull is not modelled.
- The text of the diagnosis messages is not modelled. The model keeps their kind, plus the missing model and the names available.
- Filesystem writes are left out: `save_settings`, `save_models`, `install_update`, backups, `download_asset`, and writing `checksums.sha256`. A save succeeds or fails as the `writable` flag says.
- `verify_zip_integrity` is an oracle (`zipOk`).
- `verify_file_size` is modelled only as the size comparison inside `Updater.VerifyDownload`. A failing `getsize` raises out of it and is not modelled.
- Key order in JSON objects is not modelled: objects are maps.
- Key paths with an empty component are accepted as Python accepts them, as the empty-string key.
- `Updater.ParseInt` models `int()` on ASCII digits, with whitespace, a sign and single `_` separators between digits. Unicode digits are not modelled.
- `RequestPipeline.DetectRamGb` rounds the exact quotient. Python's float division of byte counts above 2^53 is not modelled.
- `Text.Lower` folds ASCII letters only.
- Line breaks: `checksums.sha256` is read by splitting on `\n`. Python's text mode also breaks lines at a lone `\r`, which is not modelled.
- The rendered path separator of `relative_to` on Windows (`\`) is not modelled: paths are strings as given.
- The config entries are hashed relative to the working directory but verified under `dist/`. The model takes the `disk` map as given and does not model that mismatch of roots.
- `rglob("*")` also lists files inside hidden directories. The model keeps the file-name test exactly as written, so such files are listed too.
- Downloader.DownloadModel: only a failing `Popen` is modelled as an exception. An error while reading the pull output is not modelled.
- `list_available_models` and the other console output are left out.
- `sys.exit` is modelled as the `Choice` outcome and as `continues` in `Downloader.StartServer`.
- Model sizes in the catalogue are in tenths of a gigabyte, to avoid reals.
- The user interface, the build scripts, the singletons `get_ollama_manager` and `get_config_manager`, and the update flow around `ask_user_update` are not part of this model.

## Findings

| source | as written | input that shows it | evidently intended | confidence | as-written member | corrected member |
|---|---|---|---|---|---|---|
| src/config_manager.py:157-175 | `set_setting` walks and mutates the loaded dictionary in place. `_deep_merge` copies only the top level of `base`, and `default_settings.copy()` is shallow. A section the file lacks is therefore the defaults' own dictionary, and the write lands in `default_settings` even when saving fails. | No settings file and a failing save. `set_setting("ui.theme", "dark")` returns False, yet `get_setting("ui.theme")` now answers "dark" instead of "light". | A failed `set_setting` leaves every later read unchanged, and the defaults are never written. | not executed | Settings.ThemeLeak | Settings.ConfigManager.SetSetting |
| tools/generate_hashes.py:87 | With more than two tokens, the path is `' '.join(parts[2:])`, which drops token 1, the first word of the path. | The line `0f  my file.txt`, which `generate_checksums` writes for the file `my file.txt`, is read as the path `file.txt`. | The path is `' '.join(parts[1:])`, so a written line reads back its own path. | not executed | Checksums.MyFileMisread | Checksums.ParseLine |

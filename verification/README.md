# Job tracker record logic in Dafny

This project models the deterministic core of a personal job-search tracker.
The tracker keeps one JSON file per job opportunity in a data directory.
The model covers:

- the opportunity record and its construction-time validation;
- the store (file naming with collision suffixes, newest-first listing,
  criteria search, delete, overdue follow-ups, statistics);
- the display and input helpers;
- the synchronisation of a similarity-search index with the store;
- the legacy-data migration script;
- the dependency-free duplicate model and store of the plain command-line
  front end.

Modelling conventions:

- Datetimes are integer seconds. The clock is a parameter: `now` for instants,
  and `minute` for the `%Y-%m-%dT%H-%M` stamp in file names, kept as an opaque string.
- A data directory is a finite map from file name to its parsed content, or
  `None` when the file does not parse. The order in which the file system
  enumerates the directory is a parameter (`order`), required to list every
  file exactly once.
- The embedding provider behind the similarity index is opaque. What the
  store's constructor achieved (the module availability flag, and whether the
  embedding model was created), the outcome of building, and the ranked hits
  of a query are parameters.
- Python exceptions that the source catches become `Result`/`Option` values.

Modules, in dependency order:

- `Wrappers`: `Option` and `Result`.
- `Text`: character classes, lower-casing, `strip`, decimal rendering and parsing.
- `Seqs`: filter, count, subsequence, and a stable sort.
- `Models`: `models.py`.
- `Naming`: the shared file-name scheme.
- `Storage`: `storage.py`.
- `Utils`: `utils.py`.
- `VectorStore`: `vector_store.py`.
- `JsonValues`: decoded JSON values.
- `Migrate`: `scripts/migrate_data.py`.
- `SimpleCli`: `simple_cli.py`.

The tests in `tests/test_models.py` (lines 46-62) expect `recruiter_contact="invalid-email"`
to be rejected. The validator at `models.py:85-91` only checks contacts that contain
an `@`, so that value is accepted. The model follows the code: `Models.ContactAcceptedMeaning`
states that a contact without an `@` is accepted.

## Model

| member | source | states |
|---|---|---|
| Models.CoerceInteractionType | src/job_tracker_llm/models.py:10-35 | A canonical value maps to its own kind. `interview` maps to the screening interview. The five legacy contact values map to initial contact. Anything else becomes `other`, so coercion never fails. |
| Models.ContactAcceptedMeaning | src/job_tracker_llm/models.py:85-91 | A non-empty contact is accepted iff it has no `@`, or it has exactly one `@` with a `.` somewhere after it. |
| Models.Validate | src/job_tracker_llm/models.py:60-91 | Construction succeeds iff company and role are non-empty, the contact rule holds and the interest level is in 1..5. An accepted value is stored unchanged. Each error is reported iff its field is at fault. |
| Models.NewOpportunity | src/job_tracker_llm/models.py:60-77 | A record built from company and role alone succeeds iff both are non-empty. It has interest 3, is active, has no interactions and is timestamped `now`. |
| Models.AddInteraction | src/job_tracker_llm/models.py:93-95 | The history grows by exactly the new interaction at the end. Earlier entries and all other fields are unchanged, and validity is preserved. |
| Models.LatestIndex | src/job_tracker_llm/models.py:97-101 | Picks the first interaction with the greatest date. |
| Models.LatestInteraction | src/job_tracker_llm/models.py:97-101 | `None` iff there are no interactions. Otherwise returns a member of the history dated no earlier than any other. |
| Models.WholeDays | src/job_tracker_llm/models.py:112 | `timedelta.days` of a span is its floor in whole days. |
| Models.IsOverdueFollowup | src/job_tracker_llm/models.py:103-113 | Never overdue without interactions or when inactive. |
| Models.OverdueMeaning | src/job_tracker_llm/models.py:103-113 | Overdue iff the record is active, has interactions, and every interaction is more than `threshold` whole days old. |
| Models.ValidateFilters | src/job_tracker_llm/models.py:121-137 | Filters are accepted unchanged iff each interest bound is absent or in 1..5. Each bound's error is reported iff that bound is out of range. |
| Naming.Normalize | src/job_tracker_llm/storage.py:27-28 | Same length as the input. Each space or slash becomes `-` and every other character is lower-cased, so the result has no space, slash or upper-case letter. |
| Naming.CandidateInjective | src/job_tracker_llm/storage.py:34-40 | Different attempt numbers never produce the same file name. |
| Naming.FreeFrom | src/job_tracker_llm/storage.py:37-40 | Starting from attempt `k` with all earlier attempts taken, finds an attempt whose name is free, with every attempt before it taken. |
| Naming.ResolveName | src/job_tracker_llm/storage.py:31-40 | The chosen name is never already present. It is the base name when that is free; otherwise `stem_k.json` with every `stem_j.json` for j < k taken. |
| Naming.UniqueName | src/job_tracker_llm/storage.py:34-40 | The `while exists` loop terminates and returns exactly the least free name. |
| Storage.Load | src/job_tracker_llm/storage.py:53-76 | A load succeeds iff the file is present, parses, and its record passes validation, and then it returns that record. |
| Storage.Loaded | src/job_tracker_llm/storage.py:93-109 | Keeps exactly the loadable `*.json` files of the enumeration. Distinct enumeration gives distinct file names. |
| Storage.LoadedInOrder | src/job_tracker_llm/storage.py:93-109 | The loaded files' names appear in enumeration order. |
| Storage.ListOpportunities | src/job_tracker_llm/storage.py:88-116 | Every loadable `*.json` file appears exactly once, unloadable files are skipped, and timestamps are non-increasing. |
| Storage.Save | src/job_tracker_llm/storage.py:23-51 | Writes the record under the least free name of the shared scheme, which was not previously present. It adds just that name and leaves every other file unchanged. |
| Storage.SaveThenLoad | src/job_tracker_llm/storage.py:23-69 | A saved valid record loads back unchanged under the returned `*.json` name. |
| Storage.Update | src/job_tracker_llm/storage.py:78-86 | Overwrites (or creates) only the named file. |
| Storage.Delete | src/job_tracker_llm/storage.py:155-168 | Returns true iff the file existed. Removes just that file; all others keep their content. |
| Storage.LoadAfterDelete | src/job_tracker_llm/storage.py:155-168 | Loading any other file gives the same result after a delete. |
| Storage.ListAfterDelete | src/job_tracker_llm/storage.py:155-168 | An entry is listed after a delete exactly when it was listed before and is not the deleted file. |
| Storage.ListedAfterDelete | src/job_tracker_llm/storage.py:155-168 | Every entry listed after a delete was listed before and is not the deleted file. |
| Storage.KeptAfterDelete | src/job_tracker_llm/storage.py:155-168 | Every entry listed before a delete, other than the deleted file, is still listed afterwards. |
| Storage.SearchOpportunities | src/job_tracker_llm/storage.py:118-153 | The result is the subsequence of the listing whose records meet every criterion that is set. |
| Storage.RecruiterCriterionSkipsUnnamed | src/job_tracker_llm/storage.py:141-143 | The recruiter criterion never excludes a record that names no recruiter. |
| Storage.InterestBounds | src/job_tracker_llm/storage.py:146-149 | A zero bound acts as no bound, and both the minimum and the maximum are inclusive. |
| Storage.OverdueFollowups | src/job_tracker_llm/storage.py:170-183 | The result is the subsequence of the listing that is overdue. Every entry is active and has interactions. |
| Storage.Tally | src/job_tracker_llm/storage.py:246-259 | A key is in the tally iff it occurs, and its count is its number of occurrences. |
| Storage.TallyKeys | src/job_tracker_llm/storage.py:246-259 | A key is tallied iff some listed record has it. |
| Storage.TallySum | src/job_tracker_llm/storage.py:246-259 | The counts of a tally add up to the number of keys tallied. |
| Storage.StatsOf | src/job_tracker_llm/storage.py:222-261 | An empty listing gives all zeros. Otherwise total is the listing size and active plus inactive equal the total. The by-status and by-source maps have exactly the occurring keys (`unknown` when unset), each counted by its number of occurrences, and each map sums to the total. |
| Storage.Statistics | src/job_tracker_llm/storage.py:222-261 | The statistics count exactly the listed records. The total is the listing size, active is the number of active listed records, and active plus inactive is the total. The by-status and by-source maps have exactly the occurring keys, each with the number of listed records that have it. Every listed record is valid, so the interest sum lies between the total and five times the total: the reported average is within 1..5. |
| Storage.InterestSumInRange | src/job_tracker_llm/storage.py:240 | Interest levels in 1..5 keep their sum between the record count and five times it. |
| Seqs.SortDescSorted | src/job_tracker_llm/storage.py:111 | The descending sort on a total preorder yields a non-increasing sequence. |
| Seqs.SortDescStable | src/job_tracker_llm/storage.py:111 | The sort is stable: for every value, the elements ranked equal to it appear in the same relative order as in the input, as Python's `sort` keeps them with `reverse=True`. |
| Seqs.SubsequenceNoDup | src/job_tracker_llm/simple_cli.py:102-116 | Dropping entries from a listing without repeats cannot create repeats. |
| Seqs.FilterIsSubsequence | src/job_tracker_llm/storage.py:129-153 | A filtered listing keeps the listing order. |
| Utils.ResolveChoiceMeaning | src/job_tracker_llm/utils.py:51-64 | On empty input with a default, returns that entry with Python indexing: a negative default counts from the end, and an index outside −len..len−1 raises IndexError, in exactly that case. A digit string `n` in 1..len returns entry `n-1`. Re-prompts exactly in the remaining cases. Any chosen value is one of the choices. |
| Utils.PromptLoop | src/job_tracker_llm/utils.py:50-67 | The `while True` loop stops at the first line whose outcome does not ask again and returns that outcome. Every earlier line asked again. Running out of input means every line asked again. |
| Utils.PromptChoice | src/job_tracker_llm/utils.py:20-67 | Consumes lines until the first that does not re-prompt and returns its outcome. All lines before it re-prompt. Running out of input means every line re-prompted. The plain front end (simple_cli.py lines 131-150) copies this loop unchanged. |
| Utils.ValidatePhone | src/job_tracker_llm/utils.py:76-81 | A valid number has at least 7 characters. For a string of digits, valid iff its length is 7..15. |
| Utils.PhoneIgnoresSeparators | src/job_tracker_llm/utils.py:76-81 | Inserting any non-digit anywhere never changes the verdict. |
| Utils.TruncateText | src/job_tracker_llm/utils.py:138-142 | Text within the limit is returned unchanged. Longer text becomes a prefix of the text followed by `...`, exactly `max_length` long when the limit is at least 3. Below 3, Python's negative slice can make it longer than the limit. |
| Utils.SafeFilename | src/job_tracker_llm/utils.py:145-153 | The result has no forbidden character, no whitespace, no upper-case letter, no `--`, and no leading or trailing `-`. Its word characters (neither forbidden, nor whitespace, nor `-`) are exactly the input's, in order and lower-cased. |
| Utils.SafeFilenameOfWord | src/job_tracker_llm/utils.py:145-153 | A name made only of word characters is just lower-cased. |
| Utils.SafeFilenameFixesSafeNames | src/job_tracker_llm/utils.py:145-153 | A name that already has those properties is returned unchanged. |
| Utils.SafeFilenameIdempotent | src/job_tracker_llm/utils.py:145-153 | Applying the sanitiser twice equals applying it once. |
| Utils.InterestLevelDescription | src/job_tracker_llm/utils.py:114-123 | Levels 1..5 get their table entry, and the answer is `Unknown` iff the level is outside 1..5. |
| Utils.StatusColor | src/job_tracker_llm/utils.py:126-135 | A status whose lower-cased form is in the table gets that table colour; any other status gets `white`. |
| Utils.StatusColorIgnoresCase | src/job_tracker_llm/utils.py:126-135 | The colour does not depend on letter case. |
| Utils.DurationParts | src/job_tracker_llm/utils.py:95-106 | Days are reported iff the span is at least one day, and the count is the whole number of days. Otherwise whole hours of the leftover day when there is at least one, else whole minutes. |
| Utils.FormatDurationReads | src/job_tracker_llm/utils.py:95-106 | The rendered text reads back, through an independent parser, as the count and unit `DurationParts` selects, and it ends in `s` exactly when the count is not 1. |
| Utils.Gaps | src/job_tracker_llm/utils.py:262-271 | The counted gaps are non-negative, and there are at most n − 1 of them for n interactions: one per consecutive pair at most. |
| Utils.CalculateResponseTime | src/job_tracker_llm/utils.py:257-275 | The loop computes the floor mean of the non-negative consecutive day gaps whose dates parse. It returns `None` for fewer than two interactions or when no gap counts. |
| Utils.ResponseTimeBounds | src/job_tracker_llm/utils.py:257-275 | The average lies between zero and the longest counted gap. |
| VectorStore.OrText | src/job_tracker_llm/vector_store.py:94-103 | `x or default`: the value when present and non-empty, else the default. |
| VectorStore.StatusText | src/job_tracker_llm/vector_store.py:96 | `Active` when active, else the status when set, else `Inactive`. |
| VectorStore.ToDocument | src/job_tracker_llm/vector_store.py:88-130 | Metadata carries the given filename, and recruiter, status and source default to the empty string. Each of the fourteen header lines is stated. Company and role are shown as given. Recruiter, contact and source show `Unknown`, and the five text fields show `None`, when empty or absent. The status line reads as `StatusText`, and a non-negative interest level is shown in decimal over 5. |
| VectorStore.Documents | src/job_tracker_llm/vector_store.py:146-155 | At most one document per listed row, each built from a file that loads and naming that file. |
| VectorStore.DocumentsOfListing | src/job_tracker_llm/vector_store.py:146-155 | When every row still loads, there is exactly one document per row, in order. |
| VectorStore.RebuildIndex | src/job_tracker_llm/vector_store.py:138-178 | Fails, keeping the index, when the listing is empty or embedding raises. Succeeds iff the listing is non-empty and stored, and then the index holds the documents of the listing. A failed save still replaces the in-memory index. |
| VectorStore.BuildIndex | src/job_tracker_llm/vector_store.py:132-178 | Raises exactly when the availability flag is set but the embedding model was never assigned. Reports failure, keeping the index, when the flag is unset. Otherwise it is the `try` block. |
| VectorStore.ConstructedBuild | src/job_tracker_llm/vector_store.py:50-86 | After construction (the flag also starts set when the module imports at lines 9-16 succeeded): a created embedding model means the build never raises. Imports that succeeded with a failed model creation mean it always raises. With neither, the build reports failure. |
| VectorStore.BuildIndexesEveryRecord | src/job_tracker_llm/vector_store.py:140-174 | After a successful build every loadable record file is indexed, and no file twice. |
| VectorStore.UpdateIndex | src/job_tracker_llm/vector_store.py:254-256 | Updating is rebuilding. |
| VectorStore.Resolve | src/job_tracker_llm/vector_store.py:193-211 | No more results than hits. Each result is a record that loads from its file, and every hit whose file loads yields a result. |
| VectorStore.ResolveKeepsOrder | src/job_tracker_llm/vector_store.py:193-211 | Results keep the provider's ranking order. |
| VectorStore.Search | src/job_tracker_llm/vector_store.py:180-215 | Empty when there is no index or the provider raises. Otherwise the resolved hits. |
| VectorStore.SearchIgnoresFilters | src/job_tracker_llm/vector_store.py:186-191 | The filter argument has no effect on the results. |
| VectorStore.SearchActive | src/job_tracker_llm/vector_store.py:233-236 | Searching active opportunities returns the unfiltered search. |
| VectorStore.InInterestRange | src/job_tracker_llm/vector_store.py:243-246 | Exactly the results within the inclusive range, in order. |
| VectorStore.SearchByInterestLevel | src/job_tracker_llm/vector_store.py:238-247 | The first `k` in-range results of the unfiltered search, in search order, with Python's slice `[:k]` (a negative `k` drops that many from the end). |
| VectorStore.FirstMatch | src/job_tracker_llm/vector_store.py:302-303 | The first position whose metadata names the file, or none when no entry does. |
| VectorStore.RemoveDocumentByFilename | src/job_tracker_llm/vector_store.py:291-315 | False without an index. True iff some entry names the file, and then only the first such entry is removed. |
| VectorStore.RemoveFirstMatch | src/job_tracker_llm/vector_store.py:302-311 | The scanning loop agrees with the removal function. |
| VectorStore.RemoveKeepsLaterDuplicates | src/job_tracker_llm/vector_store.py:302-308 | When several entries name the file, the later ones survive. |
| Migrate.LegacyInteractions | scripts/migrate_data.py:126-133 | Exactly one interaction, built from date, type, method and notes, iff date and type are both truthy; otherwise none. |
| Migrate.FromLegacy | scripts/migrate_data.py:104-123 | Output has exactly the 16 record keys. Each is read from the input with its default: now, empty company and role, active true, interest 3, null otherwise. |
| Migrate.WithDefaults | scripts/migrate_data.py:135-150 | Output is the input plus only the missing timestamp, interactions, active and interest keys, with their defaults. Existing keys keep their values. |
| Migrate.ConvertFormat | scripts/migrate_data.py:100-152 | The legacy branch is taken iff both flat interaction keys are present. The output never has both, and always has the four required keys. |
| Migrate.ConvertIdempotent | scripts/migrate_data.py:100-152 | Converting a converted record changes nothing, for any clock value. |
| Migrate.NamePart | scripts/migrate_data.py:54-59 | A missing company or role reads as `unknown`. A present one must be a string. |
| Migrate.MigrateOne | scripts/migrate_data.py:43-81 | Fails on unreadable files, non-objects and non-string names. Otherwise stores the converted record under the least free name of the shared scheme, never one already present. |
| Migrate.CopyAll | scripts/migrate_data.py:39-83 | The copy loop, for any step that succeeds on a fixed set of files, writes a fixed content and never reuses a name. The migrated count is the number of files it succeeds on, and errors make up the rest. Existing files are never overwritten, and the directory grows by the migrated count. Each new file holds the content of an accepted old file, and every accepted old file is written under a new name. |
| Migrate.MigrateAll | scripts/migrate_data.py:39-83 | Migrated is exactly the number of old files that parse to an object with string company and role. Errors make up the rest. Existing files are never overwritten. Every such file's conversion is written under a new name, and each new file holds the conversion of one of them. |
| SimpleCli.ToDict | src/job_tracker_llm/simple_cli.py:33-52 | Writes exactly the 16 attribute keys. |
| SimpleCli.FromDict | src/job_tracker_llm/simple_cli.py:15-31 | Succeeds iff company and role are given and no `self` key clashes. Given keys keep their values; missing ones get their defaults. |
| SimpleCli.Defaults | src/job_tracker_llm/simple_cli.py:18-31 | Missing keys default to active true, interest 3, no interactions, timestamp now, and null otherwise. |
| SimpleCli.FromDictOfToDict | src/job_tracker_llm/simple_cli.py:33-57 | `from_dict(to_dict(o))` reproduces every field of `o`, whatever the clock. |
| SimpleCli.ToDictOfFromDict | src/job_tracker_llm/simple_cli.py:33-57 | `to_dict(from_dict(d))` keeps every known key of `d` and fills the rest with defaults. |
| SimpleCli.LoadSimple | src/job_tracker_llm/simple_cli.py:92-96 | Loads iff the file holds a JSON object the constructor accepts. |
| SimpleCli.SaveSimple | src/job_tracker_llm/simple_cli.py:67-90 | Fails iff company or role is not a string. Otherwise uses the least free name of the shared scheme and changes no other file. |
| SimpleCli.SaveThenLoadSimple | src/job_tracker_llm/simple_cli.py:67-96 | A saved record loads back unchanged. |
| SimpleCli.LexTotal | src/job_tracker_llm/simple_cli.py:119 | String order compares any two strings. |
| SimpleCli.LexTransitive | src/job_tracker_llm/simple_cli.py:119 | String order is transitive. |
| SimpleCli.LoadedRows | src/job_tracker_llm/simple_cli.py:102-116 | The rows' file names appear in enumeration order. |
| SimpleCli.LoadedRowsListed | src/job_tracker_llm/simple_cli.py:102-116 | Every row is a loadable `*.json` file, showing that file's record. |
| SimpleCli.LoadedRowsCover | src/job_tracker_llm/simple_cli.py:102-116 | No loadable `*.json` file of the enumeration is missed. |
| SimpleCli.LoadedRowsDistinct | src/job_tracker_llm/simple_cli.py:102-116 | When the enumeration has no repeats, no file is listed twice. |
| SimpleCli.SortRows | src/job_tracker_llm/simple_cli.py:119 | Raises iff two or more rows have timestamps that are neither all strings nor all numbers. Otherwise permutes the rows into non-increasing timestamp order. |
| SimpleCli.SortedListing | src/job_tracker_llm/simple_cli.py:98-120 | When the sort succeeds, every listed row comes from a loadable file and every loadable file is listed. Text timestamps appear newest first in lexicographic order, and numeric timestamps in non-increasing order. |
| SimpleCli.SortedDistinct | src/job_tracker_llm/simple_cli.py:102-117 | A listed row is determined by its file name, so sorting the rows of an enumeration that names each file once lists no file twice. |
| SimpleCli.ListSimple | src/job_tracker_llm/simple_cli.py:98-120 | Lists every loadable `*.json` file exactly once and only those, in non-increasing string (or numeric) timestamp order. |
| SimpleCli.ShowStats | src/job_tracker_llm/simple_cli.py:308-327 | Nothing for an empty listing. A TypeError exactly when some row's interest level is not a number. Otherwise total is the listing size, active is the number of truthy `active` rows, inactive = total − active is the number of the others, and the interest sum is the sum of the levels. |
| SimpleCli.InterestSumBounds | src/job_tracker_llm/simple_cli.py:322 | Interest levels within lo..hi put the sum within lo and hi times the row count, so the printed average lies within lo..hi. |

## Left out

- File I/O, JSON encoding and decoding, logging, directory creation: a directory is a map, and a file that does not parse is `None`.
- Date parsing and formatting (`fromisoformat`, `isoformat`, `strftime`, `format_date`, `parse_date_range`, `calculate_days_since`): instants are integers; the file-name stamp and ISO `now` strings are parameters.
- The CSV export (`storage.py:185-220`): file output only.
- JsonValues.Json: has no floating-point value. A record file holding a float, such as `"interest_level": 3.5`, loads in the command-line tool and is summed by `show_stats` (`simple_cli.py:322`). Such a file has no counterpart in the model.
- Floating point: the average interest (`storage.py:240`, `simple_cli.py:322`), relevance `1.0 - score` (`vector_store.py:204`), salary parsing and currency formatting (`utils.py:181-227`).
- The regular-expression validators `validate_email` and `validate_url` (`utils.py:70-87`) and the contact-method display table; they are not used by the modelled operations.
- The embedding service, FAISS loading and saving, and nearest-neighbour ranking: replaced by what construction achieved, a build outcome and the ranked hits of a query.
- `get_index_stats` and `delete_index`: they reach into provider internals or the file system only. Of the vector store's constructor only what `build_index` depends on is kept (`VectorStore.Construct`). Loading an existing index at construction is the `current` index parameter.
- `semantic_search`, `search_by_company`, `search_by_role`, `search_by_recruiter` and `get_similar_opportunities`: each only passes a different query string to `search`. With the query's hits as a parameter they are `VectorStore.Search` itself.
- The interactive menus, prompts and printing of `cli.py`, `unified_cli.py`, `ai_cli.py`, `simple_cli.py`, `setup_ai.py`; the AI assistant (external chat calls); launch and set-up scripts.
- The backup prompt, the copy to a backup directory and `cleanup_old_structure` in the migration script: file-system side effects after the conversion.
- Pydantic type coercion (e.g. a numeric string accepted as an interest level): record fields are typed in the model.
- Text: `lower()`, `isdigit()` and the `\d`/`\D` classes of `validate_phone` are modelled on ASCII letters and digits. Python applies Unicode case mapping and keeps every Unicode decimal digit. Whitespace for `strip()` and `\s` follows Python's full set.
- Storage.Statistics: records the interest sum instead of the floating average. The by-status loop's `except: continue` cannot fire in the model, because a listed file still loads on the second read.
- VectorStore.ToDocument: states the metadata and the fourteen header lines. The interaction lines need date formatting, which is left out. The interest line is stated only for a non-negative level, which every validated record has.
- VectorStore.Search: does not carry the relevance score of each hit.
- SimpleCli.SortRows: treats a listing whose timestamps are all lists or floats as incomparable, although Python would order those.
- Utils.CalculateResponseTime: takes each interaction's date already parsed, with `None` for a missing key or an unparseable string.
- SimpleCli.ListSimple: loads every file with one `now`. The source constructs each record separately, and each construction reads `datetime.now()` for a missing `timestamp` (`simple_cli.py:17`, reached per file from `:104`). So files without a timestamp get distinct, normally increasing stamps, and the newest-first sort lists the later-loaded ones first. In the model they tie, and the sort keeps enumeration order (`Seqs.SortDescStable`).
- Migrate.MigrateAll: uses one `now` and one `minute` for every file. The script reads `datetime.now()` again for each file (`scripts/migrate_data.py:56`, `:107`, `:141`), so files converted across a minute boundary could get stamps the model does not produce.
- VectorStore.RemoveDocumentByFilename: models the scan over an abstract document collection. With the FAISS index the source builds, reading `_collection` raises at `vector_store.py:297`. The handler at `:313` catches it, so the source always returns False there.
- VectorStore.SearchActive: is documented as searching only active opportunities, but the code passes a filter that `search` ignores. The model follows the code, so the result is the unfiltered search.

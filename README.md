# chrono-patient-uploader, modelled in Dafny

chrono-patient-uploader uploads scanned documents to the DrChrono electronic health
record. It reads the patient, the document tag, the date and a description from each
file name. To do so it compiles a filename template such as
`{name}({dob})_{tag}_{date}_{description}` into a regular expression. For each file
it then:

1. looks the patient up through the DrChrono API;
2. skips documents that are already on record;
3. uploads the rest;
4. optionally moves uploaded files to a destination directory.

Files are split round-robin over a number of workers, and the results are tallied
into a report. Around this batch sit three more parts:

- an HTTP client that retries on HTTP 429 with capped exponential backoff;
- a credential store that keeps OAuth credentials in the OS keyring, or in
  config.json when no keyring works;
- a self-updater that compares release tags with the running version.

The project models that core, one module per source file:

| module | file | models |
|---|---|---|
| `Wrappers` | wrappers.dfy | `Option` and `Result` |
| `Text` | text.dfy | the Python `str` operations the core relies on: `int` of digit strings, `str(n)`, zero padding, `upper` and `lower` on ASCII letters, `strip` with Python's whitespace up to U+00A0, `startswith`, `join`, `split` |
| `Types` | types.dfy | the enums and records of src/types.py, as closed datatypes |
| `Parser` | parser.dfy | src/parser.py: template compilation, MMDDYY decoding, file-name parsing |
| `Api` | api.dfy | src/api.py: the 429 retry loop, patient-search narrowing, the per-run caches as a class, document pagination, duplicate detection, upload classification |
| `Processor` | processor.dfy | src/processor.py: one file's stages, a worker's loop, the round-robin split, the tally |
| `Credentials` | credential_store.dfy | src/credential_store.py: every operation as a function of the store's state, and a class whose methods change its fields as the source does |
| `Updater` | updater.dfy | src/updater.py: version tags, tuple comparison, platform archives, the asset search, the update-check and self-update decisions |

The model works with whatever the outside world answers; those answers are
parameters. They are:

- the server's responses;
- the random jitter;
- the regex engine's match of a file name (a function from a stem to its groups);
- whether a keyring works;
- the files on disk;
- the operating system's name.

Exceptions are values. `Called<T>` is either a returned value or a raised `ApiError`.
`FileOutcome` either finishes with a result or lets an exception propagate.
`ParseOutcome` has a `Raised` case for Python's `None.upper()`.
The credential store's `Step` carries the `ValueError` message.

A member of a server's JSON object that the code reads as text is `Absent`, `Null`
or a string (`Types.JsonText`), because `dict.get` with a default tells the first
two apart: a null name makes `.upper()` raise, and a null date of birth prints as
"None".

`ParsedFilename` in src/types.py:37-44 has no `dob` field, yet src/parser.py:143
constructs one with `dob`, and src/processor.py:78 and src/processor.py:87 read it.
The model gives `ParsedFilename` a `dob: Option<string>`, as the code evidently
intends; the code as written is the second row of "## Findings".

## Model

| member | source | states |
|---|---|---|
| Text.NatToString | src/api.py:248 | `str(n)`: a non-empty digit string without a leading zero whose decimal value is n |
| Text.IntToString | src/processor.py:148 | `str(i)`: the digits of \|i\|, behind a "-" when i is negative |
| Text.ZeroPad | src/parser.py:146 | the zero-padded decimal text of n: its value is n, and its length is the width or the digit count, whichever is larger |
| Text.ZeroPadOfDigits | src/parser.py:131 | a digit string of length w is the zero padding of its own value to width w |
| Text.DigitsValueAppend | src/updater.py:26 | the value of a concatenation of digit strings is the first value shifted by the second's length, plus the second |
| Text.DigitStringsEqual | src/parser.py:95-96 | two digit strings of the same length and value are equal |
| Text.Upper | src/parser.py:113 | `upper()` maps each character through ASCII upper-casing and keeps the length |
| Text.Lower | src/api.py:103 | `lower()` maps each character through ASCII lower-casing and keeps the length |
| Text.TrimStart | src/parser.py:122 | the leading whitespace removed: a suffix of the text, with only whitespace before it and no whitespace at its start |
| Text.TrimEnd | src/parser.py:122 | the trailing whitespace removed: a prefix of the text, with only whitespace behind it and no whitespace at its end |
| Text.Strip | src/parser.py:122-127 | `strip()` has no whitespace at either end; it is empty exactly when the text is all whitespace |
| Text.StripOccurs | src/parser.py:122-127 | the stripped text is the slice of the text right after its leading whitespace |
| Text.StripIdempotent | src/parser.py:122-127 | stripping twice is stripping once |
| Text.JoinContainsParts | src/api.py:148-152 | every part of a `join` occurs in the joined text |
| Text.Split | src/updater.py:26 | `split(c)` gives at least one piece, and no piece contains c |
| Text.JoinSplit | src/updater.py:26 | joining the pieces of a split with the separator gives the text back |
| Text.SplitJoin | src/updater.py:26 | splitting a join of separator-free parts gives the parts back |
| Parser.PlaceholderOf | src/parser.py:12-19 | the placeholder for a key, which has that key; exactly the six fixed fragments, "tag" and "description" are known |
| Parser.PlaceholderOfKey | src/parser.py:34 | each placeholder is recognised by its own key |
| Parser.WordRunEnd | src/parser.py:21 | the end of the maximal run of `\w` characters from a position |
| Parser.Scan | src/parser.py:21-40 | the matches of `finditer`, from a position on; no contract of its own, stated by the next three rows |
| Parser.ScanOrdered | src/parser.py:21-40 | the matches of `\{(\w+)\}` lie in the pattern, after the start position, in order and without overlap |
| Parser.ScanWellPlaced | src/parser.py:21-40 | each reported match spells "{", its word, "}" in the pattern |
| Parser.ScanComplete | src/parser.py:21-40 | finditer misses no placeholder: every position where `{word}` begins starts a reported match |
| Parser.ExpectedFieldsAt | src/parser.py:46-50 | field i is placeholder occurrence i, optional exactly when "(" precedes it and ")" follows it |
| Parser.FirstUnknown | src/parser.py:61-78 | None exactly when every name is known; otherwise the first unknown name, all names before it being known |
| Parser.FirstDuplicate | src/parser.py:88 | None exactly when no group name repeats; otherwise the first name that repeats an earlier one |
| Parser.InsertByLength | src/parser.py:31 | inserting a key adds it to the multiset and keeps the list ordered by non-increasing length |
| Parser.SortByLengthDesc | src/parser.py:31 | `sorted(keys, key=len, reverse=True)` is a permutation of the keys, ordered by non-increasing length |
| Parser.SortByLengthDescStable | src/parser.py:31 | the sort is stable: the keys of each length keep their original order |
| Parser.LongerKeyFirst | src/parser.py:31-32 | a longer tag key comes before a shorter one in the alternation, so the shorter cannot match first |
| Parser.EmitPlaceholder | src/parser.py:41-80 | one loop turn: the literal text since `pos` (without the "(" of a wrapped placeholder), then the field, and where `pos` resumes |
| Parser.EmitTail | src/parser.py:82-83 | the text after the last placeholder is appended as a last literal when it is not empty |
| Parser.EmitSegments | src/parser.py:36-83 | the loop rejects the first unknown placeholder; otherwise its segments are the reference segments, and it reports whether {description} was seen exactly when it is among the names |
| Parser.EmitLoopStep | src/parser.py:40-80 | one turn keeps the loop's invariants: the segments grow by the next step, and the known names and the description flag advance |
| Parser.Compiled | src/parser.py:24-88 | what compile_pattern yields; no contract of its own, stated by the four `Compiled...` lemmas |
| Parser.CompilePattern | src/parser.py:24-88 | compile_pattern returns exactly `Compiled`: the first unknown placeholder, then a missing {description}, then a duplicate group, and otherwise the segments |
| Parser.CompiledUnknown | src/parser.py:64-78 | the pattern is rejected as unknown exactly when a placeholder is unknown, and the error names the first one |
| Parser.CompiledMissingDescription | src/parser.py:85-86 | with every placeholder known, the pattern is rejected exactly when it lacks {description} |
| Parser.CompiledDuplicate | src/parser.py:88 | with all placeholders known and {description} present, the pattern is rejected exactly when two fragments define one group, and the error names the first |
| Parser.CompiledSuccess | src/parser.py:24-88 | compilation succeeds exactly when no rejection applies; the segments spell the pattern back, with one field per placeholder occurrence, optional exactly where wrapped, and literals non-empty and never adjacent |
| Parser.Segments | src/parser.py:36-83 | the reference segments: those the loop emits for the placeholders, then the text after the last one; no contract of its own, stated by `SegmentsShape` |
| Parser.SegmentsShape | src/parser.py:36-83 | the segments spell out the pattern, carry the expected fields and keep literals non-empty and apart |
| Parser.StepSpells | src/parser.py:41-80 | a loop step spells exactly the pattern text it consumes |
| Parser.EmittedSpells | src/parser.py:40-80 | the segments emitted so far spell the pattern up to where `pos` stands |
| Parser.EmittedFields | src/parser.py:40-80 | one field per placeholder so far, optional exactly when wrapped |
| Parser.EmittedLiterals | src/parser.py:55-70 | emitted literals are never empty or adjacent, and the last segment emitted is a field |
| Parser.Optionally | src/parser.py:66 | the groups inside `(?:...)?` are all optional |
| Parser.DaysInMonth | src/parser.py:99 | 28 to 31 days; 29 exactly for February of a leap year |
| Parser.PivotYear | src/parser.py:96-97 | two-digit years 00-50 become 2000-2050 and 51-99 become 1951-1999, keeping the last two digits |
| Parser.ParseDateMmddyy | src/parser.py:91-101 | a date only for exactly six digits, and only one the calendar has and the pivot can produce |
| Parser.MmddyyRoundTrip | src/parser.py:91-101 | every valid date in the pivot range decodes from its MMDDYY spelling |
| Parser.MmddyyDecodedSpelling | src/parser.py:91-101 | a decoded string is the MMDDYY spelling of its date, so the decoder is injective |
| Parser.MmddyyDecodes | src/parser.py:91-101 | s decodes to d exactly when d is a valid pivot-range date and s is its spelling |
| Parser.MmddyyExamples | src/parser.py:93-101 | the pivot at 50/51, a regular date, month 13 or more, February 30, five characters and a non-digit all come out as the source says |
| Parser.IsoFormat | src/parser.py:131-146 | `isoformat()` is "YYYY-MM-DD": ten characters with dashes at places 4 and 7 |
| Parser.IsoFormatFields | src/parser.py:131-146 | the ISO text holds year, month and day as digits in fixed places |
| Parser.IsoFormatInjective | src/parser.py:131-146 | two dates have the same ISO text exactly when they are equal |
| Parser.RFind | src/parser.py:106 | the index of the last occurrence of c, or -1 exactly when c is absent |
| Parser.Stem | src/parser.py:106 | `Path(name).stem`; no contract of its own, stated by the next two rows |
| Parser.StemDropsExtension | src/parser.py:106 | the stem of base.ext, where ext has no dot, is base |
| Parser.StemKeepsName | src/parser.py:106 | a name with no dot, only a leading dot, or a trailing dot is its own stem |
| Parser.MiddleInitialOf | src/parser.py:124-126 | a present initial is the stripped capture; None when it strips to nothing; an empty capture is kept |
| Parser.DobOf | src/parser.py:129-131 | the ISO date of birth exactly when the dob group captured text that decodes |
| Parser.Validate | src/parser.py:111-148 | the checks of parse_filename in the source's order; no contract of its own, stated by the next four rows |
| Parser.ValidateParsed | src/parser.py:111-148 | a file name parses exactly when every group read as text took part, the upper-cased tag is a metatag, the date decodes and both stripped names are non-empty |
| Parser.ValidateFields | src/parser.py:113-148 | a parsed name holds stripped non-blank names, the tag code and its full name, the ISO document date, and the stripped description or, when that is blank, the tag's full name |
| Parser.ValidateRaised | src/parser.py:113-127 | validation raises only on a text group that did not participate, the first in reading order |
| Parser.FitRaisesOnlyOptional | src/parser.py:46-127 | a match of a compiled pattern can make parse_filename raise only through a group inside an optional `({x})` part |
| Parser.DobNeverRejects | src/parser.py:129-131 | the dob capture never decides whether a name parses; it changes only the dob field |
| Parser.ValidateDob | src/parser.py:129-143 | the same for the captures: changing the dob changes the dob field and nothing else |
| Parser.ParseFilename | src/parser.py:104-148 | parse_filename: match the stem, then validate; no contract of its own, stated by the `Validate...` rows and the next row |
| Parser.ParseFilenameIgnoresExtension | src/parser.py:106-107 | only the stem is matched, so the extension never matters |
| Api.ClampedWait | src/api.py:55-64 | the wait is the Retry-After seconds when the header reads as a number, the backoff otherwise, capped at 30 s |
| Api.LimitError | src/api.py:68-80 | the error once retries are spent: the application-limit message exactly when Retry-After exceeds 60 s, and the header's seconds when it has them |
| Api.Decide | src/api.py:48-83 | a response other than 429 is returned; a sleep happens only before the last attempt, is never negative and stays under 31 s for jitter below 1 |
| Api.DecideAsWritten | src/api.py:55-68 | the code as written, the same as `Decide` wherever the Retry-After is not unreadable |
| Api.UnreadableHeaderRaises | src/api.py:57-68 | a 429 with a non-numeric Retry-After raises ValueError as written; with the intended fallback it sleeps for the backoff |
| Api.UnreadableHeaderIsAbsent | src/api.py:56-62 | with the fallback, an unreadable Retry-After acts exactly like no header |
| Api.Pass | src/api.py:51-83 | a pass returns exactly on a response other than 429 and sleeps only as the intended step does; as written, a 429 with an unreadable Retry-After raises ValueError |
| Api.Attempt | src/api.py:51-83 | one pass of the loop body, tested in the source's order, is exactly the step `Pass` defines |
| Api.RetryFrom | src/api.py:48-86 | each run, as written or with the intended fallback, sends one request more than it sleeps, and at most MAX_RETRIES + 1 in all |
| Api.RequestWithRetry | src/api.py:43-86 | the loop, as written or with the intended fallback, gives exactly the run of the reference definition |
| Api.RetryFirstAnswer | src/api.py:51-52 | a first answer other than 429 is returned at once, with one request and no sleep |
| Api.RetryAnswered | src/api.py:48-52 | an answered run returns the first response that is not a 429, and all before it were 429 |
| Api.RetrySleepsBounded | src/api.py:64-83 | every sleep lies in [0, 31) when the jitter is in [0, 1) |
| Api.RetryPersistentLimit | src/api.py:48-80 | a server that always answers 429 gets four requests and three sleeps, and the error reports the last Retry-After; as written this needs every Retry-After to be readable |
| Api.RetryUnreadableRaises | src/api.py:48-68 | as written, a run of 429s ends with ValueError at the first unreadable Retry-After, that request being the last one sent |
| Api.RetryNeverHeaderNotNumber | src/api.py:55-62 | with the intended fallback no run ends in ValueError from the header |
| Api.RetryAsWrittenAgrees | src/api.py:48-86 | where no Retry-After is unreadable, the code as written and the intended loop give the same run |
| Api.Filter | src/api.py:119-122 | a list comprehension keeps exactly the accepted elements, in order |
| Api.NarrowBy | src/api.py:118-143 | a stage runs only while more than one candidate remains, and its result is kept only when it is not empty |
| Api.Narrow | src/api.py:116-143 | the narrowed candidates are server results; some remain exactly when the server returned some; a single result is never narrowed away; only a list of several can raise |
| Api.ByNameExact | src/api.py:127-134 | among several candidates with an exact-name match, when the test raises for none, exactly the exact-name candidates are kept |
| Api.Describe | src/api.py:149-150 | a candidate's description shows its date of birth as the f-string prints it: the text, "None" for null, "N/A" for a missing key |
| Api.DescribeAll | src/api.py:148-152 | one description per candidate, in order |
| Api.Classify | src/api.py:145-163 | NotFound for none, Found with the id and doctor for one, MultipleMatches for more |
| Api.Lookup | src/api.py:116-163 | NotFound exactly when the server found no one; a single server result is the patient found; a patient found is a server result; a raise is the AttributeError of `None.upper()`, and only among several candidates |
| Api.LookupRaisesOnNullName | src/api.py:127-134 | among several candidates left by the middle-initial stage, a null last name makes the lookup raise AttributeError |
| Api.LookupWithoutNullNames | src/api.py:127-134 | without null names among the server results the lookup never raises |
| Api.MultipleMatchesShowDob | src/api.py:148-152 | each candidate's date of birth, as the f-string prints it, appears in the multiple-match detail |
| Api.CacheKey | src/api.py:103 | the key: lower-cased names and middle initial, and the date of birth, joined by "\|"; no contract of its own, its properties are the next two rows |
| Api.CacheKeyParts | src/api.py:103 | without "\|" in any part, the cache key splits back into its lower-cased parts, so different lookups never share an entry |
| Api.CacheKeyIgnoresCase | src/api.py:103 | lookups that differ only in letter case share an entry |
| Api.SetDefault | src/api.py:165-166 | `setdefault` keeps an existing entry and adds a missing one |
| Api.SetDefaultFirstWins | src/api.py:165-166 | of two fills of one key, the first stays |
| Api.Collect | src/api.py:184-195 | the pages from one answer on, until a page without a next link or a raise; no contract of its own, stated by the next two rows |
| Api.CollectConcatenates | src/api.py:184-195 | pagination gives the in-order concatenation of the pages up to the first without a next link |
| Api.CollectStep | src/api.py:188-194 | a page with a next link puts its documents in front of the rest |
| Api.TagsOf | src/api.py:209-213 | the tags of a document: a JSON text is decoded, a list taken as it is, a missing or empty field and malformed JSON give none; no contract of its own |
| Api.HasDuplicate | src/api.py:204-216 | some document has the date, the description and the tag; no contract of its own, the loop `FindDuplicate` is proved against it |
| Api.FindDuplicate | src/api.py:204-216 | the loop over the documents answers whether one has the same date, the same description and the tag |
| Api.ClassifyUpload | src/api.py:242-250 | success exactly for 201, with the returned id; otherwise the detail is "<status>: <body>" |
| Api.ApiCache.constructor | src/api.py:92-93 | both caches start empty |
| Api.ApiCache.FindPatient | src/api.py:96-167 | a cached key is answered with no request; otherwise the lookup of the answer is returned and, unless it raised, stored by `setdefault`; an exception, the server's or the AttributeError of a null name, stores nothing |
| Api.ApiCache.GetPatientDocuments | src/api.py:178-198 | a cached patient makes no request; otherwise the pages are collected following next links and stored by `setdefault`; an exception stores nothing |
| Api.ApiCache.IsDuplicate | src/api.py:201-216 | the duplicate answer for the patient's cached or fetched documents, or the fetch's exception |
| Processor.Handle | src/processor.py:63-191 | the server is called only in stage order; a duplicate check needs a found patient; an upload needs a clean check outside a dry run; a move needs a successful upload with a destination; every result is well formed |
| Processor.ProcessFile | src/processor.py:50-191 | every result reports the file's own name and carries an error exactly when it did not succeed |
| Processor.ProcessFileStages | src/processor.py:62-87 | the patient is looked up exactly when the file name parses; a name that does not parse gives the skipped parse-failure result and no other effect |
| Processor.ProcessFileAsWritten | src/processor.py:62-79 | the pass as written: ParsedFilename keeps no `dob`, so a parsed file raises at the read of `parsed.dob` |
| Processor.DroppedDobRaises | src/processor.py:62-87 | as written every file name that parses raises before any server call, where the intended pass looks the patient up |
| Processor.DroppedDobOnlyParsed | src/processor.py:62-70 | for a file name that does not parse the code as written and the intended pass agree |
| Processor.ParseFailureSkips | src/processor.py:63-70 | an unparsable name is skipped and makes no server call |
| Processor.LookupMissFails | src/processor.py:108-119 | a patient not found, or found several times, fails with the lookup's detail before any duplicate check |
| Processor.RateLimitAnyStage | src/processor.py:89-176 | a rate limit at whichever stage comes first gives a rate-limited failure with the error's message, tallied as rate limited |
| Processor.TransportErrors | src/processor.py:99-176 | a request error at lookup or duplicate check fails with a detail naming the stage; one from the upload escapes |
| Processor.DuplicateAndDryRun | src/processor.py:141-155 | a duplicate is reported and never uploaded; a dry run still checks for duplicates and then succeeds with no upload or move |
| Processor.UploadAnswers | src/processor.py:178-191 | a success carries the document id and moves the file when a destination is set; a rejection keeps the server's detail and does not move the file |
| Processor.OutcomesOf | src/processor.py:208-211 | one outcome per file, each the processing of that file |
| Processor.WorkerFrom | src/processor.py:207-213 | a worker's run from one file on; no contract of its own, stated by `WorkerAllFinish` and `WorkerCrashes` |
| Processor.WorkerTask | src/processor.py:194-213 | the worker's loop gives exactly the run of the reference definition |
| Processor.WorkerStep | src/processor.py:208-212 | one loop turn: an escaping exception ends the run; otherwise the result is appended |
| Processor.WorkerAllFinish | src/processor.py:207-213 | without an exception a worker returns one result per file, in order, after n - 1 pauses (none in a dry run) |
| Processor.WorkerCrashes | src/processor.py:208-212 | a worker ends with an exception exactly when one of its files raises |
| Processor.RoundRobin | src/processor.py:240-242 | one chunk per worker |
| Processor.Partition | src/processor.py:239-242 | the chunking loop gives exactly the round-robin chunks, and raises exactly when there are files and fewer than one worker |
| Processor.RoundRobinSizes | src/processor.py:240-242 | chunk c holds \|files\|/n files, one more for the first \|files\| mod n chunks |
| Processor.RoundRobinPlace | src/processor.py:241-242 | file i is element i / n of chunk i mod n |
| Processor.RoundRobinNonEmpty | src/processor.py:240-261 | chunk c is empty exactly when there are at most c files |
| Processor.RoundRobinKeepsFiles | src/processor.py:240-242 | the chunks hold exactly the files, as a multiset |
| Processor.BucketOf | src/processor.py:266-277 | only well-formed failures enter a list; a rate-limited failure goes to the rate-limited list exactly when it is not skipped or a duplicate |
| Processor.Tally | src/processor.py:263-277 | the report of a list of results; no contract of its own, stated by the next rows |
| Processor.TallySnoc | src/processor.py:266-277 | the report of one more result is the old report with that result added |
| Processor.Aggregate | src/processor.py:244-277 | the aggregation loop gives exactly the report of the reference tally |
| Processor.TallyTotal | src/processor.py:266-309 | well-formed results land in exactly one bucket, so the counts sum to the number of results |
| Processor.TallyPermutation | src/processor.py:263-264 | the report does not depend on the order in which the workers finish: same counts, same multiset of errors per list |
| Processor.ChunksFinish | src/processor.py:240-264 | when no file raises, every file of every chunk finishes well |
| Processor.DirectoryTotal | src/processor.py:239-309 | when no file raises, the report accounts for every file exactly once, whatever order the results arrive in |
| Credentials.Restrict | src/credential_store.py:96 | the entries whose key is in the set |
| Credentials.Without | src/credential_store.py:201 | the entries whose key is not in the set |
| Credentials.Read | src/credential_store.py:61-77 | an unknown key raises with its message; outside a session the access token reads as None |
| Credentials.ReadAll | src/credential_store.py:80-82 | one entry per known key, each what `get` gives |
| Credentials.SetStep | src/credential_store.py:85-105 | `set` as a function of the state; no contract of its own, stated by the rows after `ReadAll` |
| Credentials.DeleteStep | src/credential_store.py:114-134 | `delete` as a function of the state; no contract of its own, stated by `DeleteThenGet`, `UnknownKeyRejected` and `ConfigDelete` |
| Credentials.SetManyStep | src/credential_store.py:108-111 | `set_many` as a function of the state; no contract of its own, stated by `SetManyErrors` |
| Credentials.DeleteAllStep | src/credential_store.py:137-151 | `delete_all` as a function of the state; no contract of its own, stated by `DeleteAllForgets` and `DeleteAllKeepsConfig` |
| Credentials.LoadSessionStep | src/credential_store.py:154-171 | `load_session` as a function of the state; no contract of its own, stated by `SessionCachesStore` |
| Credentials.MigrateSingle | src/credential_store.py:182-208 | `_migrate_single_config` as a function of the state; no contract of its own, stated by the `Migrate...` rows |
| Credentials.MigrateAll | src/credential_store.py:211-240 | `migrate_from_config` as a function of the state; no contract of its own, stated by `MigrateAllIdempotent`, `MigrateAllCleans` and `MigrateNeedsKeyring` |
| Credentials.SetThenGet | src/credential_store.py:61-105 | after `set`, `get` gives the new value (the access token only in a session), and every other key reads as before |
| Credentials.DeleteThenGet | src/credential_store.py:61-134 | after `delete`, `get` gives nothing for the key and every other key reads as before |
| Credentials.UnknownKeyRejected | src/credential_store.py:68-117 | an unknown key raises and changes nothing |
| Credentials.AccessTokenNotPersisted | src/credential_store.py:91-121 | the access token never reaches the keyring or a config file |
| Credentials.SessionWritesRestriction | src/credential_store.py:94-124 | with a session and a keyring, a change writes the session's credential keys as the blob |
| Credentials.BlobReadModifyWrite | src/credential_store.py:43-128 | without a session, a change keeps the blob's other keys, and an unreadable blob is replaced by one with just the change |
| Credentials.ConfigDelete | src/credential_store.py:129-134 | without a keyring, `delete` rewrites config.json only when it held the key, and keeps its other keys |
| Credentials.SessionCachesStore | src/credential_store.py:154-179 | loading a session leaves every credential reading the same; clearing it leaves no session |
| Credentials.DeleteAllForgets | src/credential_store.py:137-151 | after `delete_all` no key reads as present |
| Credentials.DeleteAllKeepsConfig | src/credential_store.py:147-151 | `delete_all` without a keyring keeps exactly config.json's other keys |
| Credentials.SetManyErrors | src/credential_store.py:108-111 | `set_many` succeeds exactly when every key is known; otherwise it stops with the error for the first unknown key |
| Credentials.MigrateSingleMoves | src/credential_store.py:182-208 | the migration reports a change exactly when the file exists and holds a credential; then the blob holds the file's values, the file keeps only its other keys, and it is removed when none are left |
| Credentials.MigrateSingleIdempotent | src/credential_store.py:182-208 | migrating a file a second time changes nothing |
| Credentials.MigrateAllIdempotent | src/credential_store.py:211-240 | a second `migrate_from_config` reports nothing and changes nothing |
| Credentials.CleanMigrates | src/credential_store.py:193-195 | a file without credentials migrates nothing |
| Credentials.MigrateKeepsClean | src/credential_store.py:182-208 | migrating one file keeps every clean file clean |
| Credentials.MigrateAllCleans | src/credential_store.py:211-240 | after the migration, every file it covers holds no more credentials |
| Credentials.MigrateNeedsKeyring | src/credential_store.py:219-220 | without a keyring nothing is migrated and nothing changes |
| Credentials.CredentialStore.constructor | src/credential_store.py:18-19 | a store with no session, over the given keyring entry and files |
| Credentials.CredentialStore.Set | src/credential_store.py:85-105 | the new state and the error are exactly `SetStep` of the old state |
| Credentials.CredentialStore.SetMany | src/credential_store.py:108-111 | the loop gives exactly `SetManyStep` of the old state |
| Credentials.CredentialStore.Delete | src/credential_store.py:114-134 | the new state and the error are exactly `DeleteStep` of the old state |
| Credentials.CredentialStore.DeleteAll | src/credential_store.py:137-151 | the new state is exactly `DeleteAllStep` of the old one |
| Credentials.CredentialStore.LoadSession | src/credential_store.py:154-171 | the new state is exactly `LoadSessionStep` of the old one |
| Credentials.CredentialStore.ClearSession | src/credential_store.py:174-179 | the session is gone and nothing else changes |
| Credentials.CredentialStore.MigrateSingleConfig | src/credential_store.py:182-208 | the result and the new state are exactly `MigrateSingle` of the old state |
| Credentials.CredentialStore.MigrateFromConfig | src/credential_store.py:211-240 | the flag and the new state are exactly `MigrateAll` of the old state |
| Updater.LStripV | src/updater.py:26 | `lstrip("v")` leaves a suffix that does not start with 'v', with only 'v's before it |
| Updater.PyInt | src/updater.py:26 | `int()` fails on blank text and names it as the error |
| Updater.PyIntDigits | src/updater.py:26 | a digit string reads as its decimal value |
| Updater.ParseParts | src/updater.py:26 | success gives one component per piece; a failure names one of the pieces |
| Updater.ParsePartsReads | src/updater.py:26 | each component is `int` of the matching piece |
| Updater.ParsePartsFails | src/updater.py:26 | a failed parse names the first piece that is not an integer |
| Updater.ParsePartsSucceeds | src/updater.py:26 | the parse succeeds when every piece is an integer |
| Updater.ParseVersion | src/updater.py:24-26 | `_parse_version` reads each dot-separated piece after the leading 'v's |
| Updater.BlankComponentFails | src/updater.py:26 | a tag with an empty or blank piece, such as "v1..2" or "", does not read |
| Updater.FormatParseRoundTrip | src/updater.py:24-26 | reading "v" and the components joined by dots gives the components back |
| Updater.Less | src/updater.py:60 | Python's `<` on integer tuples; no contract of its own, stated by the next three rows |
| Updater.LessEq | src/updater.py:84 | Python's `<=` on integer tuples; no contract of its own, stated by `LessEqIsNotGreater` |
| Updater.LessIsLexicographic | src/updater.py:60-84 | Python's tuple `<` is the lexicographic order: the first difference decides, and a proper prefix is smaller |
| Updater.LessTrichotomy | src/updater.py:60-84 | exactly one of a < b, a == b and b < a |
| Updater.LessTransitive | src/updater.py:60-84 | tuple `<` is transitive |
| Updater.LessEqIsNotGreater | src/updater.py:60-84 | `latest <= current` exactly when not `latest > current` |
| Updater.PlatformArchive | src/updater.py:29-40 | Darwin, Linux and Windows get their archives; any other system is unsupported |
| Updater.ArchiveFormats | src/updater.py:117-124 | the three archives differ; Windows gets a .zip and the others a .tar.gz, the two formats extraction tells apart |
| Updater.FirstAsset | src/updater.py:92-95 | a URL only if some asset has the name, and then the first such asset's |
| Updater.FindAsset | src/updater.py:90-95 | the loop with `break` gives exactly the first matching asset's URL |
| Updater.CheckVersions | src/updater.py:79-86 | unreadable when either version fails to read; newer exactly when the running version is below the latest |
| Updater.UpdateNotice | src/updater.py:54-64 | a notice exactly when the request worked and the latest tag is newer; any error shows nothing |
| Updater.PlanUpdate | src/updater.py:67-99 | a failed request exits; an unreadable tag raises; a release that is not newer stops; an unsupported platform exits; a missing asset or an empty URL exits; otherwise it downloads the first matching asset for the platform |
| Updater.NoticeMatchesUpdate | src/updater.py:54-99 | the start-up notice shows exactly when `update` would pass "Already up to date" |

## Left out

- Character classes are modelled up to U+00FF at most. `\w`, `upper`, `lower` and `isdigit` cover ASCII only. Whitespace for `isspace` and `strip` is Python's set up to U+00A0 (including U+001C-U+001F, U+0085 and U+00A0); the whitespace above U+00FF (U+1680, U+2000-U+200A, U+2028, U+2029, U+202F, U+205F, U+3000) is not modelled. `int()` takes no underscores and no non-ASCII digits.
- The regular expression engine is a parameter. It is a function from a stem to the match's groups; the fragment texts, `re.escape` and the engine's backtracking are not modelled. The compiled pattern is its list of literal and field segments.
- `Path.stem` follows the plain rule: remove from the last dot on, unless that dot opens or ends the name. Paths with directories are not modelled.
- JSON is not modelled. A response's JSON is its decoded fields; the keyring blob is `Absent`, `Unreadable` or a decoded map; a config file is its decoded map. A config file holding a JSON value that is not an object is not modelled. A patient's text members are missing, null or a string; a number or other JSON value there is not modelled. A record always has an integer `id`, where a missing one raises KeyError in the source.
- Api.TagsOf: `metatags` JSON text that decodes to a list is modelled; text that decodes to a string (which `in` tests for a substring, src/api.py:214), to an object (a key test) or to a number (a TypeError raised outside the `try` of src/api.py:210-213) is read as no tags.
- Floating point is modelled with `real`. `inf`, `nan` and rounding are not modelled.
- Api.ApiCache.GetPatientDocuments: it requires that the chain of next links ends within the given answers (`ChainEnds`). The source would loop for as long as the server sends next links.
- Threads and locks are not modelled. The caches are one object whose methods run one at a time; `setdefault` keeps the first fill. `as_completed` order is any permutation, which `Processor.DirectoryTotal` covers.
- With one worker, `process_directory` calls `_worker_task` on all the files directly (src/processor.py:250-252). That is the single chunk of a one-worker split, so the model does not treat it separately.
- The jitter before a worker starts and the 2-second pauses are not timed: the model counts the pauses and takes the retry jitter as a parameter.
- All printing is left out. The report's lists and counts stand for what `_print_report` prints.
- Credentials.CredentialStore.MigrateFromConfig: the `migrated` flag it returns stands for the "Credentials migrated to OS keyring." message. The source returns None.
- Moving a file to the destination directory is the `moved` effect. Creating the directory, listing and sorting the source directory, and the exit on a missing directory are not modelled.
- The outside facts are parameters: whether `_check_keyring` finds a working keyring, `APP_DIR`, the home directory, and where config.json lives. The legacy-file migration inside `load_config` (src/config.py) is not part of this model. Every keyring call is assumed not to raise, except the one in `delete_all`, which the source ignores anyway.
- After the asset search, `self_update` downloads, extracts, finds the executable, replaces the binary, copies bundled files and runs the new version. None of that is modelled, and neither is `_get_binary_path`.
- A release without `tag_name`, or an asset without `name` or `browser_download_url`, raises KeyError in the source. The model's release always has these fields.
- Request timeouts are not modelled; they are one more kind of raised `ApiError`.

## Findings

| source | as written | input that shows it | evidently intended | confidence | as-written member | corrected member |
|---|---|---|---|---|---|---|
| src/api.py:55-68 | line 68 calls `float(retry_after)` outside the `try` of lines 57-60, so an unreadable Retry-After raises ValueError | a 429 response with `Retry-After: Wed, 21 Oct 2026 07:28:00 GMT` (the HTTP-date form) on the first attempt | fall back to exponential backoff, as the `except ValueError` branch at line 60 sets up | not executed | Api.RetryUnreadableRaises | Api.RetryNeverHeaderNotNumber |
| src/processor.py:78 | `ParsedFilename` (src/types.py:37-44) declares no `dob`, pydantic's default ignores the `dob=` passed at src/parser.py:143, so reading `parsed.dob` raises AttributeError outside any `try` | any file name that parses, such as `Smith, John(010180)_L_010523_blood work.pdf` under the default template with the metatag code `L` | the date of birth is kept and passed to find_patient (src/processor.py:87) | not executed | Processor.DroppedDobRaises | Processor.ProcessFile |

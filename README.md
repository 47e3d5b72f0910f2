# ColegiosRD core, modelled in Dafny

ColegiosRD is a directory and ranking of schools in the Dominican Republic. This project models its core logic: the back-office scripts that import and maintain school data, and the small decision and state-transition rules of its web routes and pages.

- **MINERD import** (`ImportMinerd`). This covers the slug function, the three validation layers (format, range/policy, and uniqueness of `minerd_code` within the batch), the Levenshtein distance computed by a single-row dynamic-programming loop, the similarity ratio built on it, the fuzzy-duplicate filter, the naive CSV splitter, and the per-record import loop with its three counters.
- **Top public schools** (`TopPublic`). Public schools are grouped by province, each bucket is sorted by Prueba Nacional score in place, the first `min(10, n)` become the top schools, and the two write loops change only the flags that differ.
- **Change monitor** (`ChangeMonitor`). This covers the 32-bit string hash, keyword matches with their clamped context window, new download links, and the snapshot diff with its exit code.
- **Seeder** (`Seed`). This covers the 25 sample schools, the row defaults, the optional open-house event, and the counters.
- **Helpers** (`Utils`). These are tuition text, rating colour and label bands, the URL slug function, the institutional-e-mail test, and truncation.
- **API routes** (`SchoolsApi`, `ContactApi`, `NewsletterApi`, `VerifyApi`, with `EmailFormat` and `Http`). These cover parameter defaults, filters, sort dispatch, paging arithmetic, required-field gates, the e-mail pattern, the rows written, and the responses chosen from the store's answers.
- **UI rules** (`Middleware`, `VerificationModal`, `AdModal`, `RankingPage`, `OpenHousePage`). These cover maintenance-mode routing, the three-step verification wizard, the advertising inquiry form, the ranking page's filters, query and in-feed ads, and the open-house month keys and month filter.

`Common` holds the JavaScript built-ins that these rely on, written out as functions with their own lemmas. They include truthiness of JSON values, ASCII `toLowerCase` and `trim`, `split`, regex run replacement, `filter`, `indexOf`, string order and sorting, `Set` de-duplication, and numbers written in and read back from a base.

The hosted store, the network and the file system are modelled as parameters:

- the answer of each store call is a function argument (an oracle);
- a fetched page is a value;
- the clock is a string argument.

Code that updates state step by step is imperative Dafny: `getEditDistance`, the import and seed loops, bucket grouping and the in-place sort, the flag loops, `simpleHash`, and the monitor loop. Each such method is proved equal to a specification function, and the properties are lemmas about that function.

Component state is a class with one field per state hook:

- `VerificationModal.Wizard`
- `AdModal.InquiryForm`
- `RankingPage.Page`
- `OpenHousePage.Page`
- the two tables of `VerifyApi.Store`

Two behaviours of the code are worth stating outright:

- **A re-run import counts as a duplicate.** The existing schools are read before the loop, and a stored record is similar to itself with ratio 1.0, so running the same batch again books each record as a potential duplicate (`ImportMinerd.RerunIsDuplicate`).
- **CSV batches import nothing.** The CSV reader yields only strings, so every CSV record fails the number test of the format layer, and a CSV batch is skipped entirely (`ImportMinerd.CsvRecordsFailFormat`, `ImportMinerd.TextBatchAllSkipped`).

## Model

| member | source | states |
|---|---|---|
| ImportMinerd.GenerateSlug | scripts/import-minerd.js:17-25 | the slug has at most 50 characters, all from `[a-z0-9_-]`, with no two hyphens in a row |
| ImportMinerd.Slice | scripts/import-minerd.js:24 | `slice(0, n)` keeps the first `min(|s|, n)` characters unchanged |
| ImportMinerd.KeptAfterLower | scripts/import-minerd.js:19-21 | after lowercasing, trimming and dropping non-word characters, only slug characters and whitespace remain |
| ImportMinerd.DashedIsSlug | scripts/import-minerd.js:22 | replacing whitespace runs with `-` leaves only slug characters |
| ImportMinerd.CollapsedIsSlug | scripts/import-minerd.js:23 | collapsing hyphen runs keeps slug characters and leaves no two hyphens adjacent |
| ImportMinerd.SliceShape | scripts/import-minerd.js:24 | cutting a hyphen-collapsed slug to 50 characters keeps the slug shape |
| ImportMinerd.SlugPassesLower | scripts/import-minerd.js:19 | lowercasing leaves a slug unchanged |
| ImportMinerd.SlugPassesTrim | scripts/import-minerd.js:20 | trimming leaves a slug unchanged |
| ImportMinerd.SlugKept | scripts/import-minerd.js:19-21 | the first three steps leave a slug unchanged |
| ImportMinerd.SlugRunsKept | scripts/import-minerd.js:22-23 | the two run replacements leave a slug unchanged |
| ImportMinerd.SlugFixpoint | scripts/import-minerd.js:17-25 | every slug-shaped string is its own slug |
| ImportMinerd.GenerateSlugIdempotent | scripts/import-minerd.js:17-25 | slugging a slug gives it back |
| ImportMinerd.AllNonEmptyStrings | scripts/import-minerd.js:29-34 | the loop over the text fields holds exactly when each field is a non-empty string |
| ImportMinerd.ValidateFormat | scripts/import-minerd.js:28-45 | holds iff `minerd_code`, `name`, `province` and `type` are non-empty strings and `students_count` and `prueba_nacional` are numbers of at least 0 |
| ImportMinerd.ValidateRange | scripts/import-minerd.js:48-62 | holds iff enrolment is at least 15, the score is above 0, and the lowercase type is `public` or `private` |
| ImportMinerd.ValidateHistoricalConsistency | scripts/import-minerd.js:65-76 | holds iff no record accepted earlier in the batch has the same `minerd_code` |
| ImportMinerd.Min3 | scripts/import-minerd.js:111 | `Math.min` of three values is one of them and at most each |
| ImportMinerd.EditDistanceLowerBound | scripts/import-minerd.js:101-120 | the distance of two prefixes is at least the difference of their lengths |
| ImportMinerd.EditDistanceUpperBound | scripts/import-minerd.js:101-120 | the distance of two prefixes is at most the longer length |
| ImportMinerd.EditDistanceNeighbours | scripts/import-minerd.js:109-114 | dropping one character changes the distance by at most one |
| ImportMinerd.EditDistanceMatch | scripts/import-minerd.js:109-110 | equal last characters cost nothing |
| ImportMinerd.EditDistanceMismatch | scripts/import-minerd.js:110-112 | different last characters cost one plus the least of substitute, insert and delete |
| ImportMinerd.EditDistanceSymmetric | scripts/import-minerd.js:101-120 | the distance is symmetric |
| ImportMinerd.EditDistanceZero | scripts/import-minerd.js:101-120 | the distance is 0 iff the prefixes are equal |
| ImportMinerd.LevenshteinProperties | scripts/import-minerd.js:101-120 | Levenshtein distance is symmetric, is 0 iff the strings are equal, and lies between the length difference and the longer length |
| ImportMinerd.NextCost | scripts/import-minerd.js:109-114 | one cell of the row loop computes the recursive distance of its prefixes |
| ImportMinerd.NextRow | scripts/import-minerd.js:105-116 | after the inner loop, the array holds row `i` of the distance table |
| ImportMinerd.GetEditDistance | scripts/import-minerd.js:101-120 | the single-row loop returns the recursive Levenshtein distance |
| ImportMinerd.CalculateStringSimilarity | scripts/import-minerd.js:90-98 | the ratio lies in [0, 1] and is 1 exactly when the strings are equal (two empty strings included) |
| ImportMinerd.RatioBounds | scripts/import-minerd.js:97 | `(n - d) / n` lies in [0, 1] and is 1 iff `d` is 0 |
| ImportMinerd.SimilaritySymmetric | scripts/import-minerd.js:90-98 | the similarity is symmetric in its arguments |
| ImportMinerd.OneCharLongerDistance | scripts/import-minerd.js:101-120 | a string and that string plus one character are at distance 1 |
| ImportMinerd.RatioAboveThreshold | scripts/import-minerd.js:79-85 | `n / (n + 1)` is above the 0.8 threshold once `n` is at least 5 |
| ImportMinerd.SimilarityOneCharLonger | scripts/import-minerd.js:79-98 | names that differ by one trailing character out of six or more count as near duplicates |
| ImportMinerd.FindPotentialDuplicates | scripts/import-minerd.js:79-87 | keeps exactly the pool entries whose lowercase name similarity is above the threshold, in pool order |
| ImportMinerd.SameNameIsDuplicate | scripts/import-minerd.js:79-87 | a pool entry with the same name up to case is always reported |
| ImportMinerd.DuplicatesCounted | scripts/import-minerd.js:79-87 | the duplicates are exactly the near-duplicate pool entries, each as often as in the pool |
| ImportMinerd.TrimAll | scripts/import-minerd.js:162-163 | the record keys are the trimmed headers, one per header |
| ImportMinerd.Cells | scripts/import-minerd.js:159-163 | cell `k` is the trimmed value at `k`, or `''` when it is missing |
| ImportMinerd.FillRecord | scripts/import-minerd.js:160-166 | the record has exactly the header keys; each value is a string, and the last column with a given key wins |
| ImportMinerd.ReadLine | scripts/import-minerd.js:158-167 | one line becomes the record of its cells under the headers |
| ImportMinerd.AppendRow | scripts/import-minerd.js:158 | appending the next line's record keeps the record list in step with the lines |
| ImportMinerd.ReadLines | scripts/import-minerd.js:158-167 | the loop yields one record per line after the header |
| ImportMinerd.ParseCsv | scripts/import-minerd.js:154-168 | one record per line after the header, each read under the trimmed headers; none passes the format layer |
| ImportMinerd.CsvRecordsFailFormat | scripts/import-minerd.js:36-41 | a record read from CSV text fails the number test of the format layer |
| ImportMinerd.PersistOutcome | scripts/import-minerd.js:243-281 | imported iff the province lookup finds a non-zero id and the upsert of the record's row succeeds, and then the outcome carries that row; skipped for no province iff the lookup finds nothing or id 0; skipped with an error iff the lookup throws or the upsert fails, with that message |
| ImportMinerd.RowFor | scripts/import-minerd.js:255-265 | the upserted row: code and name as given, slug of the name, lowercased type, address or `''`, the province id, the student count rounded down, the score |
| ImportMinerd.Classify | scripts/import-minerd.js:214-289 | a record failing the format layer is a plain format skip, one passing it but failing the range layer a range skip, one passing both but repeating an accepted code a repeated-code skip (none of them an error entry); a record is imported only after passing all three layers with no near duplicate and a successful upsert of its row; past those checks the outcome is the lookup-then-upsert one; a fuzzy duplicate iff it passes the layers and has a near duplicate |
| ImportMinerd.Book | scripts/import-minerd.js:215-288 | an import raises `imported`, appends the record and stores the row under its code; a fuzzy duplicate raises `duplicates`; anything else raises `skipped`, and a write error also lists the record's name and message |
| ImportMinerd.BookStep | scripts/import-minerd.js:215-288 | each record raises exactly one of the three counters; `importedRecords` grows only on an import and keeps distinct codes; every accepted record keeps, in the store under its code, a row the upsert wrote |
| ImportMinerd.ImportRun | scripts/import-minerd.js:212-289 | over a batch, the counters grow by the batch length in total, one import per new row, and earlier rows are kept |
| ImportMinerd.LogEntry | scripts/import-minerd.js:292-301 | the log row has source `minerd`, the given clock reading as its import date, the three counters, and a note that starts with the number imported |
| ImportMinerd.BookFailure | scripts/import-minerd.js:271-288 | a write failure is booked as one skip and one error |
| ImportMinerd.BookImported | scripts/import-minerd.js:280-281 | an import is booked as one import and one new accepted record |
| ImportMinerd.PersistRecord | scripts/import-minerd.js:243-288 | the lookup-then-upsert step computes the booking of its outcome |
| ImportMinerd.ImportRecord | scripts/import-minerd.js:213-288 | one iteration of the loop computes the booking of the record's classification |
| ImportMinerd.RunStep | scripts/import-minerd.js:212-289 | the run over one more record is the previous run booked with that record |
| ImportMinerd.ImportSchools | scripts/import-minerd.js:187-328 | a failed read of the existing schools gives exit 1 and no log; otherwise exit 0, the counters sum to the batch length, and the log entry holds them, stamped with the given clock reading |
| ImportMinerd.RerunIsDuplicate | scripts/import-minerd.js:233-240 | a valid record whose name is already in the existing snapshot is a fuzzy duplicate, never a second import |
| ImportMinerd.TextBatchAllSkipped | scripts/import-minerd.js:215-218 | a batch of records that fail the format layer only raises `skipped` |
| TopPublic.Bucket | scripts/update-top-public.js:43-53 | a bucket holds exactly the schools of its province, in fetch order |
| TopPublic.ProvinceIdsSnoc | scripts/update-top-public.js:48-50 | one more school adds its province to the keys |
| TopPublic.BucketSnoc | scripts/update-top-public.js:52 | one more school is appended to its own bucket only |
| TopPublic.GroupsSnoc | scripts/update-top-public.js:45-53 | one loop step creates or extends the school's bucket |
| TopPublic.GroupsSnocAt | scripts/update-top-public.js:45-53 | the effect of one step, bucket by bucket |
| TopPublic.GroupByProvince | scripts/update-top-public.js:43-53 | the grouping loop builds the province-to-bucket map |
| TopPublic.GroupsAreBuckets | scripts/update-top-public.js:43-53 | the grouping has a bucket for exactly the provinces that occur; none is empty and each holds exactly its province's schools |
| TopPublic.BucketsPartition | scripts/update-top-public.js:43-53 | each school lies in exactly one bucket, the one of its province |
| TopPublic.SetMin | scripts/update-top-public.js:61 | a non-empty set of province ids has a least element |
| TopPublic.HasMinimum | scripts/update-top-public.js:61 | every non-empty set of ids has a minimum |
| TopPublic.AscendingKeys | scripts/update-top-public.js:61 | `Object.entries` visits the integer keys in strictly ascending order, each once |
| TopPublic.InsertByScore | scripts/update-top-public.js:63 | inserting one school adds one element |
| TopPublic.SortedByScore | scripts/update-top-public.js:63 | sorting keeps the length |
| TopPublic.InsertPermutes | scripts/update-top-public.js:63 | insertion adds exactly the inserted school to the multiset |
| TopPublic.SortedByScorePermutes | scripts/update-top-public.js:63 | the sorted bucket is a permutation of the bucket |
| TopPublic.InsertKeepsDescending | scripts/update-top-public.js:63 | insertion keeps scores non-increasing |
| TopPublic.SortedByScoreDescending | scripts/update-top-public.js:63 | the sorted bucket is non-increasing by score, with a missing score read as 0 |
| TopPublic.InsertStable | scripts/update-top-public.js:63 | insertion keeps the order among schools of equal score |
| TopPublic.WithScoreSnoc | scripts/update-top-public.js:63 | selecting one score distributes over appending |
| TopPublic.SortedByScoreStable | scripts/update-top-public.js:63 | schools of equal score keep their fetch order |
| TopPublic.InsertLands | scripts/update-top-public.js:63 | a school is inserted after every school scoring at least as much |
| TopPublic.MoveLeft | scripts/update-top-public.js:63 | the shifting loop moves `a[i]` left past lower scores and shifts those right |
| TopPublic.InsertAt | scripts/update-top-public.js:63 | one pass of the sort inserts `a[i]` into the sorted prefix |
| TopPublic.SortBucket | scripts/update-top-public.js:63 | the in-place sort leaves the array equal to the sorted bucket |
| TopPublic.SortedBucket | scripts/update-top-public.js:63 | sorting a bucket through an array gives the sorted bucket |
| TopPublic.TopTenCount | scripts/update-top-public.js:66 | the count is `min(10, n)` |
| TopPublic.TopTen | scripts/update-top-public.js:67 | the first `min(10, n)` schools of the sorted bucket, in order |
| TopPublic.Rest | scripts/update-top-public.js:68 | what follows the top: top and rest concatenate to the sorted bucket |
| TopPublic.TopRestSplit | scripts/update-top-public.js:66-68 | the top and the rest concatenate to the sorted bucket, the top has `min(10, n)` schools, and every top school scores at least as much as every other |
| TopPublic.WritesFor | scripts/update-top-public.js:73-114 | a loop issues at most one write per school, each setting the target |
| TopPublic.WritesForExactly | scripts/update-top-public.js:73-114 | writes go exactly to the schools whose flag differs from the target |
| TopPublic.MarkOne | scripts/update-top-public.js:74-91 | a school already in the target state is untouched; otherwise one write is issued: on success `updated` rises by one, the errors are unchanged and the school carries the target flag; on failure `updated` and the flags are unchanged and one error naming the school, the action (`mark as top` / `mark as non-top`) and the store's message is appended |
| TopPublic.Mark | scripts/update-top-public.js:73-114 | a write loop issues exactly the needed writes; `updated` grows by the number of those writes that succeed, `updated` plus errors grows by their number, and earlier errors are kept |
| TopPublic.Succeeded | scripts/update-top-public.js:80-90 | the number of writes the store accepts, at most the number issued |
| TopPublic.SucceededSnoc | scripts/update-top-public.js:80-90 | one more write adds one to the count exactly when the store accepts it |
| TopPublic.SucceededAll | scripts/update-top-public.js:80-90 | when the store accepts every write, every issued write counts |
| TopPublic.MarkOneCounts | scripts/update-top-public.js:74-91 | one school's step grows `updated` by the accepted part of its writes and keeps the earlier errors as a prefix |
| TopPublic.MarkAllSucceed | scripts/update-top-public.js:73-114 | when every write succeeds a loop adds no error and `updated` grows by the number of writes issued |
| TopPublic.MarkStep | scripts/update-top-public.js:74-91 | one iteration of a write loop |
| TopPublic.MarkAll | scripts/update-top-public.js:73-92 | the write loop computes the booking over its list |
| TopPublic.Run | scripts/update-top-public.js:61-115 | over all provinces, `updated` plus the errors equals the writes issued |
| TopPublic.RunAllSucceed | scripts/update-top-public.js:61-115 | when every write succeeds the run reports no error and `updated` equals the number of writes issued |
| TopPublic.UpdateProvince | scripts/update-top-public.js:62-114 | one province is sorted, split, and marked in both loops |
| TopPublic.RunSnoc | scripts/update-top-public.js:61-115 | the run over one more province is the previous run followed by that province |
| TopPublic.RunProvinces | scripts/update-top-public.js:61-115 | the province loop computes the run |
| TopPublic.UpdateTopPublicSchools | scripts/update-top-public.js:14-136 | a failed fetch exits with 1; otherwise it exits with 0 after processing every province in ascending id order, with `updated` plus errors equal to the writes |
| TopPublic.MarkOneFlag | scripts/update-top-public.js:74-91 | a successful needed write sets the school's flag; other flags stay |
| TopPublic.MarkLast | scripts/update-top-public.js:73-92 | the loop over a list ends with its last school |
| TopPublic.MarkFrame | scripts/update-top-public.js:73-114 | a loop leaves the flags of schools outside its list alone |
| TopPublic.MarkSetsTarget | scripts/update-top-public.js:73-114 | with every write succeeding, each school of the loop ends with the target flag |
| TopPublic.SortedSameSchools | scripts/update-top-public.js:63 | sorting keeps the same schools |
| TopPublic.SortedDistinctIds | scripts/update-top-public.js:63 | sorting keeps ids distinct |
| TopPublic.TopRestIds | scripts/update-top-public.js:67-68 | the top and the rest share no school |
| TopPublic.ProvinceFlags | scripts/update-top-public.js:62-114 | with every write succeeding, the top schools of a province end flagged and the rest unflagged |
| TopPublic.TopLoopFlags | scripts/update-top-public.js:73-114 | the second loop leaves the first loop's flags in place |
| TopPublic.RestLoopFlags | scripts/update-top-public.js:95-114 | the second loop unflags the rest |
| TopPublic.FlaggedCount | scripts/update-top-public.js:66-114 | with the top flagged and the rest not, exactly `min(10, n)` schools of the province are flagged |
| TopPublic.ProvinceFrame | scripts/update-top-public.js:62-114 | a province leaves the flags of other provinces' schools alone |
| TopPublic.FilterKeepsDistinctIds | scripts/update-top-public.js:43-53 | a bucket of distinct schools has distinct ids |
| TopPublic.SameIdSameSchool | scripts/update-top-public.js:20-33 | among schools with distinct ids, an id names one school |
| TopPublic.VisitFrame | scripts/update-top-public.js:61-115 | visiting one province leaves other provinces' flags alone |
| TopPublic.VisitSettles | scripts/update-top-public.js:61-115 | visiting a province settles its schools' flags |
| TopPublic.BucketSettles | scripts/update-top-public.js:62-114 | after its province, a school is flagged iff it is in the top |
| TopPublic.RunFlagsStep | scripts/update-top-public.js:61-115 | one more province keeps every visited province settled |
| TopPublic.RunFlags | scripts/update-top-public.js:61-115 | after the loop, every visited province is settled |
| TopPublic.AllWritesSucceed | scripts/update-top-public.js:61-115 | with every write succeeding, each school ends flagged exactly when it is in its province's top |
| TopPublic.AllWritesSucceedCount | scripts/update-top-public.js:66-114 | with every write succeeding, each province ends with exactly `min(10, n)` flagged schools |
| TopPublic.FilterNone | scripts/update-top-public.js:43-53 | a filter keeping nothing is empty |
| ChangeMonitor.Wrap32 | scripts/check-minerd-updates.js:105-106 | the `& hash` step gives the 32-bit signed value congruent to its input |
| ChangeMonitor.Wrap32Shift | scripts/check-minerd-updates.js:105-106 | wrapping ignores multiples of 2^32 |
| ChangeMonitor.Wrap32Congruent | scripts/check-minerd-updates.js:105-106 | the wrapped value differs from its input by a multiple of 2^32 |
| ChangeMonitor.HashStepIsTimes31 | scripts/check-minerd-updates.js:105-106 | `(h << 5) - h + c` wrapped to 32 bits is `31·h + c` wrapped |
| ChangeMonitor.HashStep | scripts/check-minerd-updates.js:105-106 | one step of the hash loop stays a 32-bit signed integer |
| ChangeMonitor.HashValue | scripts/check-minerd-updates.js:101-107 | the hash is a 32-bit signed integer |
| ChangeMonitor.HashValueIsPolynomial | scripts/check-minerd-updates.js:101-107 | the hash is the base-31 polynomial of the character codes, wrapped to 32 bits |
| ChangeMonitor.HashHex | scripts/check-minerd-updates.js:108 | definition of `hash.toString(16)`; it reads back by `ChangeMonitor.HashHexDecodes` |
| ChangeMonitor.SimpleHash | scripts/check-minerd-updates.js:101-109 | the loop gives the hex text of the hash; the empty string gives `"0"` |
| ChangeMonitor.HashHexDecodes | scripts/check-minerd-updates.js:108 | reading the signed hex text back gives the hash |
| ChangeMonitor.HashHexSame | scripts/check-minerd-updates.js:108 | two hex texts are equal iff the hashes are |
| ChangeMonitor.WindowStart | scripts/check-minerd-updates.js:81 | the window starts at or before the match |
| ChangeMonitor.MatchFor | scripts/check-minerd-updates.js:77-87 | definition of one keyword's match; characterised by `ChangeMonitor.MatchForFound` and `ChangeMonitor.WindowHoldsKeyword` |
| ChangeMonitor.WindowEnd | scripts/check-minerd-updates.js:82 | the window ends after the keyword and within the text |
| ChangeMonitor.MatchForFound | scripts/check-minerd-updates.js:77-87 | a keyword gives a match iff its lowercase form occurs in the text; the match records the keyword as given |
| ChangeMonitor.WindowHoldsKeyword | scripts/check-minerd-updates.js:78-85 | the window has `0 <= start <= idx` and `idx + |kw| <= end <= |text|`, reaches at most 100 characters either side, and contains the keyword |
| ChangeMonitor.KeywordsOf | scripts/check-minerd-updates.js:168 | the keyword list of the matches, element by element |
| ChangeMonitor.KeywordsOfConcat | scripts/check-minerd-updates.js:168 | keyword lists distribute over concatenation |
| ChangeMonitor.FilterSingleton | scripts/check-minerd-updates.js:79 | the filter of one keyword keeps it iff it occurs |
| ChangeMonitor.MatchListKeyword | scripts/check-minerd-updates.js:77-87 | one keyword gives at most one match, exactly when it occurs |
| ChangeMonitor.MatchesPerKeyword | scripts/check-minerd-updates.js:74-88 | the matched keywords are the occurring keywords in list order, one match each |
| ChangeMonitor.MatchesSnoc | scripts/check-minerd-updates.js:76-88 | the matches of one more keyword follow those of the keywords before it |
| ChangeMonitor.MatchOne | scripts/check-minerd-updates.js:77-87 | the loop body gives the keyword's match list: its first occurrence with the trimmed window, or nothing |
| ChangeMonitor.FindMatches | scripts/check-minerd-updates.js:74-88 | the matching loop computes the match list |
| ChangeMonitor.UrlsToCheckDistinct | scripts/check-minerd-updates.js:20-41 | the sources have distinct names |
| ChangeMonitor.NewLinks | scripts/check-minerd-updates.js:158 | the new links are exactly the current links not seen before, in current order |
| ChangeMonitor.SourceNames | scripts/check-minerd-updates.js:136 | the name list of the sources, element by element |
| ChangeMonitor.ChangeSources | scripts/check-minerd-updates.js:165 | the source list of the changes, element by element |
| ChangeMonitor.SourceNamesConcat | scripts/check-minerd-updates.js:136 | source names distribute over concatenation |
| ChangeMonitor.ChangeSourcesConcat | scripts/check-minerd-updates.js:164 | change sources distribute over concatenation |
| ChangeMonitor.CheckSourceChanges | scripts/check-minerd-updates.js:149-172 | one source adds a change exactly when it was fetched, had a previous entry, and its hash differs |
| ChangeMonitor.ChangesAreChangedSources | scripts/check-minerd-updates.js:136-180 | the changes name exactly the changed sources, in list order |
| ChangeMonitor.ChangeContents | scripts/check-minerd-updates.js:158-169 | a change records the source, its URL, the new links and the matched keywords |
| ChangeMonitor.CheckSource | scripts/check-minerd-updates.js:139-179 | definition of one source's iteration; characterised by `ChangeMonitor.CheckSourceChanges`, `ChangeMonitor.ChangeContents` and `ChangeMonitor.CheckSourceEntry` |
| ChangeMonitor.CheckAll | scripts/check-minerd-updates.js:136-180 | definition of the source loop; characterised by `ChangeMonitor.ChangesAreChangedSources` and `ChangeMonitor.SnapshotEntries`, and computed by `ChangeMonitor.CheckSources` |
| ChangeMonitor.CheckSourceEntry | scripts/check-minerd-updates.js:143-179 | a fetched source gets a fresh entry; a failed one keeps its previous entry, or none if it had none |
| ChangeMonitor.SnapshotEntries | scripts/check-minerd-updates.js:136-180 | every source ends with the entry its own fetch decides |
| ChangeMonitor.SnapshotKeys | scripts/check-minerd-updates.js:126-180 | the new snapshot holds only the checked sources, so others are dropped |
| ChangeMonitor.CheckOne | scripts/check-minerd-updates.js:139-179 | one iteration of the loop |
| ChangeMonitor.CheckSources | scripts/check-minerd-updates.js:136-180 | the loop computes the snapshot and the changes |
| ChangeMonitor.CheckForUpdates | scripts/check-minerd-updates.js:124-210 | the snapshot and changes over the fixed source list; the exit code is 78 iff there are changes, else 0 |
| ChangeMonitor.FirstRunNoChanges | scripts/check-minerd-updates.js:151-153 | with no previous snapshot, nothing is reported as changed |
| ChangeMonitor.FilterNoneChanged | scripts/check-minerd-updates.js:151-153 | with no previous snapshot, no source counts as changed |
| ChangeMonitor.ExitCodeIffChanged | scripts/check-minerd-updates.js:186-203 | the exit code is 78 iff some source changed |
| ChangeMonitor.ExitCode | scripts/check-minerd-updates.js:186-203 | the code is 0 or 78, and 78 exactly when some change was recorded |
| Seed.SampleSchoolsCount | scripts/seed.js:26-450 | there are 25 samples: 15 private schools with no top flag, then 10 public top schools |
| Seed.InsertFor | scripts/seed.js:492-510 | definition of the inserted school row; its defaults are the contract of `Seed.InsertDefaults` |
| Seed.EventFor | scripts/seed.js:526-534 | definition of the open-house row; its fields are the contract of `Seed.FateOfEvent` |
| Seed.FateOf | scripts/seed.js:481-541 | definition of one iteration's lookup, insert and optional event; characterised by `Seed.FateOfInsert` and `Seed.FateOfEvent` |
| Seed.Book | scripts/seed.js:483-543 | definition of how a fate moves the counters and lists; characterised by `Seed.BookStep` |
| Seed.SeedRun | scripts/seed.js:478-545 | definition of the loop over the samples; characterised by `Seed.SeedRunCounts`, `Seed.SeedRunRows` and `Seed.SeedRunBounds`, and computed by `Seed.SeedAll` |
| Seed.InsertDefaults | scripts/seed.js:490-512 | `is_top_public` is true only when the sample says true, `verification_status` is `unverified`, and the slug and province id are the ones computed |
| Seed.SeedSlug | scripts/seed.js:15-23 | the seeder's slug has the importer's shape and is idempotent |
| Seed.FateOfInsert | scripts/seed.js:481-523 | a missing or zero province id skips the school; a school is inserted iff the province is found and the insert succeeds; an event is tried only with a date and a returned row |
| Seed.FateOfEvent | scripts/seed.js:523-540 | a created event is built from the sample and the returned row, with time default `10:00`, 200 places and 0 attendees |
| Seed.NoProvinceSkipped | scripts/seed.js:481-485 | a school with no province adds one error and nothing else |
| Seed.EventFailureOnlyWarns | scripts/seed.js:536-540 | a failed event changes neither the school count nor the errors |
| Seed.BookStep | scripts/seed.js:479-544 | one sample raises the school count only on an insert and the event count only on a created event, and adds the matching errors |
| Seed.CountIf | scripts/seed.js:478-545 | a count is at most the number of samples |
| Seed.CountIfImplies | scripts/seed.js:478-545 | counting a weaker condition gives at least as much |
| Seed.SeedRunCounts | scripts/seed.js:478-545 | the counters are the numbers of samples seeded and events created; errors are the unseeded samples plus the thrown events |
| Seed.BookKeepsRows | scripts/seed.js:489-534 | every booked row is well formed |
| Seed.SeedRunRows | scripts/seed.js:478-545 | every inserted school is unverified with a slug-shaped slug; every event has 200 places and 0 attendees |
| Seed.SeedRunBounds | scripts/seed.js:478-545 | events are at most schools, schools are at most samples, and errors are at least the unseeded samples |
| Seed.SeedSchool | scripts/seed.js:479-544 | one iteration books the sample's fate |
| Seed.SeedWithSlug | scripts/seed.js:487-544 | one iteration, given the slug |
| Seed.SeedAll | scripts/seed.js:478-545 | the loop computes the run over the samples |
| Seed.SeedDatabase | scripts/seed.js:469-565 | the run over the 25 samples, with exit code 0 |
| Utils.FormatTuition | src/lib/utils.ts:2-8 | `No reportado` when both are missing or zero; a range when both are given; `Desde` or `Hasta` when only one is |
| Utils.FreeTuitionUnreachable | src/lib/utils.ts:3-4 | the result is never `Gratuito`; zero fees give `No reportado` |
| Utils.FormatTuitionIntended | src/lib/utils.ts:2-8 | zero fees give `Gratuito` |
| Utils.IntendedDiffersOnlyOnFree | src/lib/utils.ts:2-8 | the intended function differs from the written one exactly on zero fees |
| Utils.RatingBand | src/lib/utils.ts:11-24 | the four bands (`>= 9`, `[8,9)`, `[7,8)`, `< 7`) are numbered 0 to 3 |
| Utils.RatingBandMonotone | src/lib/utils.ts:11-24 | a higher rating never falls into a lower band |
| Utils.GetRatingColor | src/lib/utils.ts:11-16 | the colour is the one of the rating's band |
| Utils.GetRatingLabel | src/lib/utils.ts:19-24 | the label is the one of the rating's band |
| Utils.ColorAndLabelAgree | src/lib/utils.ts:11-24 | two ratings share a colour iff they share a label iff they share a band |
| Utils.DropEdgeHyphens | src/lib/utils.ts:33 | removing leading and trailing hyphens never lengthens |
| Utils.DropEdgeHyphensShape | src/lib/utils.ts:33 | dropping the edge hyphens of a collapsed slug gives a URL slug |
| Utils.Slugify | src/lib/utils.ts:27-34 | only `[a-z0-9-]`, no two hyphens in a row, no hyphen at either end |
| Utils.SlugifyFixpoint | src/lib/utils.ts:27-34 | every URL slug is its own slug |
| Utils.SlugifyIdempotent | src/lib/utils.ts:27-34 | slugifying a slug gives it back |
| Utils.EmailDomain | src/lib/utils.ts:39 | no `@` means no domain |
| Utils.EmailDomainAfterFirstAt | src/lib/utils.ts:39 | the domain is the lowercase text after the first `@` and before the next one |
| Utils.IsInstitutionalEmail | src/lib/utils.ts:37-44 | false with no domain; otherwise true iff the domain contains `.edu.` or is not a personal provider |
| Utils.NoDomainNotInstitutional | src/lib/utils.ts:40 | an address ending at its first `@` is not institutional |
| Utils.EduDoSubsumed | src/lib/utils.ts:41 | a domain ending in `.edu.do` already contains `.edu.` |
| Utils.SliceEnd | src/lib/utils.ts:49 | `slice(0, n)` ends at `n`, clamped, counting from the end for negative `n` |
| Utils.Truncate | src/lib/utils.ts:47-50 | text within the limit is unchanged; longer text becomes the trimmed prefix plus `...`, at most `maxLength + 3` long |
| Utils.TruncateNegativeLimit | src/lib/utils.ts:47-50 | a negative limit cuts from the end, so the result can be longer than the limit plus 3 |
| SchoolsApi.TextOr | src/app/api/schools/route.ts:9-15 | a missing or empty parameter takes its default |
| SchoolsApi.OrderFor | src/app/api/schools/route.ts:63-71 | `rating`, `views` and `prueba_nacional` sort descending; anything else sorts by name ascending |
| SchoolsApi.FiltersFor | src/app/api/schools/route.ts:44-60 | definition of the filter chain; characterised by `SchoolsApi.QuerySelectsWanted` and `SchoolsApi.FilterSentIffGiven` |
| SchoolsApi.QueryFor | src/app/api/schools/route.ts:20-74 | definition of the query sent; characterised by `SchoolsApi.Defaults` and `SchoolsApi.RangeSpansLimit`, and computed by `SchoolsApi.BuildQuery` |
| SchoolsApi.KeepsAllConcat | src/app/api/schools/route.ts:44-60 | chained filters keep a row iff each does |
| SchoolsApi.KeepsAllWhen | src/app/api/schools/route.ts:44-60 | a filter applied only for a non-empty value keeps a row iff the value is empty or the row passes |
| SchoolsApi.QuerySelectsWanted | src/app/api/schools/route.ts:44-60 | the query's filters keep exactly the rows the parameters ask for |
| SchoolsApi.FilterSentIffGiven | src/app/api/schools/route.ts:44-60 | each filter is sent iff its parameter is non-empty |
| SchoolsApi.Defaults | src/app/api/schools/route.ts:13-17 | with no parameters: name ascending, page 1, limit 20, rows 0 to 19 |
| SchoolsApi.RangeSpansLimit | src/app/api/schools/route.ts:74 | the inclusive range spans `limit` rows, page 1 starts at 0, and the next page starts right after |
| SchoolsApi.Refine | src/app/api/schools/route.ts:44-60 | one conditional step of the query chain |
| SchoolsApi.ChooseOrder | src/app/api/schools/route.ts:63-71 | the switch picks the order |
| SchoolsApi.BuildQuery | src/app/api/schools/route.ts:20-74 | the step-by-step query is the specified one and keeps exactly the wanted rows |
| SchoolsApi.Ceil | src/app/api/schools/route.ts:91 | `Math.ceil(x)` is the integer in `[x, x + 1)` |
| SchoolsApi.PageCount | src/app/api/schools/route.ts:91 | `ceil(total / limit)`; none for limit 0 |
| SchoolsApi.CastMul | src/app/api/schools/route.ts:91 | integer products agree with real products |
| SchoolsApi.DivideOrdered | src/app/api/schools/route.ts:91 | real division by the limit keeps the order of multiples |
| SchoolsApi.CeilDivBounds | src/app/api/schools/route.ts:91 | the integer ceiling division covers `total` tightly |
| SchoolsApi.CeilUnique | src/app/api/schools/route.ts:91 | the ceiling is unique |
| SchoolsApi.PageCountDiv | src/app/api/schools/route.ts:91 | the page count equals integer ceiling division |
| SchoolsApi.PageCountCovers | src/app/api/schools/route.ts:91 | the pages cover `total` rows with no empty page; 0 rows give 0 pages |
| SchoolsApi.Window | src/app/api/schools/route.ts:74 | one page has at most `limit` rows |
| SchoolsApi.FirstPagesPrefix | src/app/api/schools/route.ts:74 | the first `n` pages are the first `n·limit` rows |
| SchoolsApi.PagesTileRows | src/app/api/schools/route.ts:86-92 | the reported pages, read in order, give back every row exactly once |
| SchoolsApi.Respond | src/app/api/schools/route.ts:78-99 | a store error gives 500 `Failed to fetch schools`, a thrown call gives 500 `Internal server error`, rows give 200 with the page data |
| SchoolsApi.Get | src/app/api/schools/route.ts:4-100 | the response for the query, 500 iff the store did not return rows |
| Http.Error | src/app/api/contact/route.ts:12-15 | an error response carries its status and message |
| EmailFormat.AllPlainNoAt | src/app/api/contact/route.ts:19 | a run of `[^\s@]` holds no `@` |
| EmailFormat.MatchesEmailPattern | src/app/api/contact/route.ts:19 | definition of a match of the pattern; characterised by `EmailFormat.PatternIffShape` |
| EmailFormat.TestValue | src/app/api/contact/route.ts:20 | definition of `regex.test(value)`; characterised by `EmailFormat.TestValueCases` |
| EmailFormat.SplitAt | src/app/api/contact/route.ts:19 | the `@` count of a string is the sum of its parts |
| EmailFormat.FirstAt | src/app/api/contact/route.ts:19 | the first `@` is found at its index |
| EmailFormat.PatternGivesShape | src/app/api/contact/route.ts:19 | a match of the pattern has one `@`, a non-empty local part, and a domain with an inner dot and no whitespace |
| EmailFormat.ShapeGivesPattern | src/app/api/contact/route.ts:19 | every such address matches the pattern |
| EmailFormat.PatternIffShape | src/app/api/contact/route.ts:19 | the pattern matches exactly the addresses of that shape |
| EmailFormat.AcceptsSchoolAddress | src/app/api/contact/route.ts:19 | `ana@colegio.edu.do` matches |
| EmailFormat.RejectsDotlessDomain | src/app/api/contact/route.ts:19 | `ana@do` does not match |
| EmailFormat.RejectsDotAfterAt | src/app/api/contact/route.ts:19 | `ana@.do` does not match |
| EmailFormat.RejectsTwoAts | src/app/api/contact/route.ts:19 | `a@b@c.do` does not match |
| EmailFormat.TestedText | src/app/api/contact/route.ts:20 | the text `regex.test` matches: a string itself, an array of strings joined by `,`, and for every other value a text the pattern rejects |
| EmailFormat.TestValueCases | src/app/api/contact/route.ts:20 | `regex.test(value)` passes exactly for a matching string or an array whose join matches |
| EmailFormat.AcceptsArrayOfOneAddress | src/app/api/contact/route.ts:20 | `["ana@colegio.do"]` passes |
| EmailFormat.RejectsArrayOfTwoAddresses | src/app/api/contact/route.ts:20 | `["a@b.do", "c@d.do"]` fails, as its text has two `@` |
| ContactApi.RowFor | src/app/api/contact/route.ts:28-40 | the row copies the fields, with `parent_phone` null when absent and `status` `pending` |
| ContactApi.Post | src/app/api/contact/route.ts:4-65 | the status is 201, 400 or 500; the table changes only by the new row on 201; bad JSON gives 500 |
| ContactApi.MissingFieldRejected | src/app/api/contact/route.ts:9-16 | a falsy required field gives 400 and no write |
| ContactApi.MalformedEmailRejected | src/app/api/contact/route.ts:19-25 | an e-mail value whose text fails the pattern, checked after the fields, gives 400 and no write |
| ContactApi.AcceptedIff | src/app/api/contact/route.ts:9-57 | 201 iff the fields are present, the e-mail value passes `regex.test` and the store stores the row, which is then appended; the accepted value is a string or an array of strings whose text has the e-mail shape |
| ContactApi.StoreErrorFails | src/app/api/contact/route.ts:42-48 | a store error gives 500 and no row |
| ContactApi.ArrayAddressSubmits | src/app/api/contact/route.ts:19-40 | a parent e-mail sent as `["ana@colegio.do"]` passes the pattern, and the appended row keeps the array as sent |
| NewsletterApi.RowFor | src/app/api/newsletter/route.ts:28-40 | the row has the e-mail value as sent and the time, `name` null and `source` `website` when absent |
| NewsletterApi.Post | src/app/api/newsletter/route.ts:4-65 | the status is 201, 400 or 500; only 201 writes, upserting the row under its e-mail value, which passed `regex.test` |
| NewsletterApi.MissingEmailRejected | src/app/api/newsletter/route.ts:11-16 | a missing or empty e-mail gives 400 and no write |
| NewsletterApi.MalformedEmailRejected | src/app/api/newsletter/route.ts:19-25 | a present e-mail value whose text fails the pattern gives 400 and no write |
| NewsletterApi.AcceptedIff | src/app/api/newsletter/route.ts:11-57 | 201 iff the e-mail value passes `regex.test` and the store stores the row; the value is then a string or an array of strings whose text has the e-mail shape, the table gains at most that key, and the id is the store's |
| NewsletterApi.SubscribeTwiceOneRow | src/app/api/newsletter/route.ts:28-40 | subscribing one address twice leaves one row, holding the second request |
| NewsletterApi.ArrayAddressSubscribes | src/app/api/newsletter/route.ts:19-40 | an e-mail sent as `["ana@colegio.do"]` passes the pattern, and the row keeps the array as sent |
| VerifyApi.GateIsRequiredFields | src/app/api/verify/route.ts:20-33 | the chain of tests rejects exactly the bodies missing one of the seven fields |
| VerifyApi.RowFor | src/app/api/verify/route.ts:39-53 | the request copies the fields, with `documents` defaulting to `[]` and `status` `pending` |
| VerifyApi.MarkedPending | src/app/api/verify/route.ts:64-67 | the update sets the school's status to `pending` and touches no other school |
| VerifyApi.Store.constructor | src/app/api/verify/route.ts:39-67 | no requests yet, the given statuses |
| VerifyApi.Store.InsertRequest | src/app/api/verify/route.ts:39-53 | the row is kept only when stored; statuses are untouched |
| VerifyApi.Store.MarkPending | src/app/api/verify/route.ts:64-67 | a successful update marks the school pending; requests are untouched |
| VerifyApi.Post | src/app/api/verify/route.ts:4-92 | a missing field gives 400 with no write; an insert failure gives 500 with statuses untouched; an update failure gives 500 but the request stays; success gives 201 with the new id |
| Middleware.Route | src/middleware.ts:5-19 | with maintenance off every path passes; on, exactly `/maintenance`, `/_next…` and `/favicon…` pass and the rest are rewritten to `/maintenance` |
| Middleware.PassesDuringMaintenance | src/middleware.ts:10 | definition of the paths served during maintenance; characterised by `Middleware.Route` |
| Middleware.OnlyExactTrue | src/middleware.ts:5 | only the exact value `true` turns maintenance on |
| Middleware.RewriteIsFixpoint | src/middleware.ts:10-15 | a rewritten path passes on the next request |
| VerificationModal.Wizard.constructor | src/components/VerificationModal.tsx:29-37 | step 1, all fields empty, the institutional flag set |
| VerificationModal.LooksInstitutional | src/components/VerificationModal.tsx:42 | definition of the institutional-address test; used by `VerificationModal.Wizard.HandleEmailChange` |
| VerificationModal.Wizard.EditStepOne | src/components/VerificationModal.tsx:29-37 | an input changes its own field only |
| VerificationModal.Wizard.HandleEmailChange | src/components/VerificationModal.tsx:39-44 | sets the e-mail; institutional iff it contains `.edu.do`, `school` or `colegio` |
| VerificationModal.Wizard.HandleFileChange | src/components/VerificationModal.tsx:46-50 | a file list replaces the documents; no list changes nothing |
| VerificationModal.Wizard.HandleContinue | src/components/VerificationModal.tsx:52-62 | step 1 to 2 only with the five fields set, step 2 to 3 only with an e-mail and either an institutional flag or a document; otherwise nothing changes |
| VerificationModal.Wizard.Back | src/components/VerificationModal.tsx:289-291 | step `> 1` goes back one; fields are kept |
| VerificationModal.Wizard.HandleClose | src/components/VerificationModal.tsx:64-74 | back to step 1 with fields and documents cleared and the institutional flag kept |
| VerificationModal.Wizard.EstimatedTime | src/components/VerificationModal.tsx:281 | `1-3 días` iff institutional, else `1-5 días` |
| VerificationModal.Wizard.ContinueLabel | src/components/VerificationModal.tsx:297-302 | the button shows until step 3, with `Continuar` exactly on step 1 and `Verificar` on step 2 |
| VerificationModal.ReachConfirmation | src/components/VerificationModal.tsx:52-62 | filling both steps reaches step 3 iff all six values are non-empty |
| AdModal.InquiryForm.constructor | src/components/AdModal.tsx:12-15 | empty fields, not submitted |
| AdModal.InquiryForm.DisabledIffGuardFails | src/components/AdModal.tsx:144 | the button is disabled exactly when the submit guard fails |
| AdModal.InquiryForm.Edit | src/components/AdModal.tsx:92-122 | an input changes its own field only |
| AdModal.InquiryForm.HandleSubmit | src/components/AdModal.tsx:17-25 | submitted iff the e-mail and message are set; otherwise nothing changes |
| AdModal.InquiryForm.HandleClose | src/components/AdModal.tsx:27-33 | fields cleared, not submitted |
| AdModal.FillAndSubmit | src/components/AdModal.tsx:17-25 | a filled form is submitted iff e-mail and message are non-empty; the company is optional |
| RankingPage.Changed | src/app/ranking/page.tsx:101-107 | the key gets the value; other keys keep theirs, except that a zone change resets the province |
| RankingPage.ChangeIdempotent | src/app/ranking/page.tsx:101-107 | repeating a change changes nothing |
| RankingPage.SortOrder | src/app/ranking/page.tsx:60-74 | ascending only by name; `prueba`, `students` and the rest map to their columns, descending with nulls last; unknown keys sort by rating |
| RankingPage.QueryFor | src/app/ranking/page.tsx:44-76 | definition of the query for the filters; characterised by `RankingPage.QuerySendsChosenFilters` and `RankingPage.InitialQuery`, and computed by `RankingPage.BuildQuery` |
| RankingPage.QuerySendsChosenFilters | src/app/ranking/page.tsx:47-57 | a type filter is sent iff the type is set and not `all`; a province and a search filter iff those are non-empty |
| RankingPage.ProvinceOptionSendsId | src/app/ranking/page.tsx:51-53 | choosing a province option sends its numeric id |
| RankingPage.InitialQuery | src/app/ranking/page.tsx:60-76 | the first query has no filters, sorts by rating descending, and asks for 100 rows |
| RankingPage.BuildQuery | src/app/ranking/page.tsx:44-76 | the step-by-step query is the specified one |
| RankingPage.Feed | src/app/ranking/page.tsx:230-238 | one slot per school, with an ad where the placement rule says |
| RankingPage.AdAfter | src/app/ranking/page.tsx:234 | definition of the ad placement rule; characterised by `RankingPage.AdsInFeed` and `RankingPage.AdsSixApart` |
| RankingPage.AdsBeforeLast | src/app/ranking/page.tsx:234 | the first `k` cards of the feed carry `k / 6` ads |
| RankingPage.AdsInFeed | src/app/ranking/page.tsx:234 | `n` cards carry `(n - 1) / 6` ads, never after the last card |
| RankingPage.AdsSixApart | src/app/ranking/page.tsx:234 | consecutive ads are six cards apart |
| RankingPage.ResultLabel | src/app/ranking/page.tsx:209 | the label starts with the count |
| RankingPage.ResultLabelPlural | src/app/ranking/page.tsx:209 | the label ends in `s` iff the count is not 1 |
| RankingPage.Page.constructor | src/app/ranking/page.tsx:12-21 | no data, loading, the initial filters |
| RankingPage.Page.ProvincesLoaded | src/app/ranking/page.tsx:24-34 | on success the provinces are replaced; otherwise nothing changes |
| RankingPage.Page.SchoolsLoaded | src/app/ranking/page.tsx:78-85 | on success the schools are replaced; loading ends either way |
| RankingPage.Page.HandleFilterChange | src/app/ranking/page.tsx:101-107 | the filters become the changed filters; nothing else changes |
| RankingPage.Page.UniqueZones | src/app/ranking/page.tsx:91-94 | strictly sorted, so duplicate-free, with exactly the provinces' zones |
| RankingPage.Page.FilteredProvinces | src/app/ranking/page.tsx:96-99 | all provinces with no zone; otherwise exactly those in the zone, in order |
| RankingPage.PickThenChangeZone | src/app/ranking/page.tsx:101-107 | a zone change after a province choice clears the province and keeps search and sort |
| OpenHousePage.PadTwo | src/app/openhouse/page.tsx:34 | `padStart(2, '0')` pads to two characters with leading zeros |
| OpenHousePage.MonthText | src/app/openhouse/page.tsx:34 | the month is two digits |
| OpenHousePage.MonthKey | src/app/openhouse/page.tsx:34 | the key is the year, `-`, and the two-digit month |
| OpenHousePage.ParseLeadingZero | src/app/openhouse/page.tsx:34 | a leading zero does not change the number read |
| OpenHousePage.MonthTextParses | src/app/openhouse/page.tsx:34 | the two digits read back as the month number |
| OpenHousePage.MonthKeyInjective | src/app/openhouse/page.tsx:51 | two events share a key iff they share year and month |
| OpenHousePage.MonthKeys | src/app/openhouse/page.tsx:49-52 | one key per event |
| OpenHousePage.EventsIn | src/app/openhouse/page.tsx:63-69 | all events with no month; otherwise exactly those of the month, in order |
| OpenHousePage.CollectDistinct | src/app/openhouse/page.tsx:48-53 | the `Set` filling keeps each key once, in first-seen order |
| OpenHousePage.KeysOfEvents | src/app/openhouse/page.tsx:49-52 | a key is listed iff some event has it |
| OpenHousePage.Page.constructor | src/app/openhouse/page.tsx:13-15 | no events, no month |
| OpenHousePage.Page.Loaded | src/app/openhouse/page.tsx:28-35 | on success the events are shown and the first event's month is selected |
| OpenHousePage.Page.SelectMonth | src/app/openhouse/page.tsx:101 | a click selects its month |
| OpenHousePage.Page.FilteredEvents | src/app/openhouse/page.tsx:63-69 | the events of the selected month, in order |
| OpenHousePage.Page.GetUniqueMonths | src/app/openhouse/page.tsx:47-55 | strictly sorted, so duplicate-free, with exactly the events' keys |
| OpenHousePage.EmptyTextTruthful | src/app/openhouse/page.tsx:194 | on an empty list, the month text means a month is selected and none of the events falls in it, and the general text means there are no events at all; with events loaded the month text is the one shown |
| OpenHousePage.LoadShowsFirstEvent | src/app/openhouse/page.tsx:28-35 | after a non-empty load, the first event is listed |

## Left out

- **Store, network and file I/O.** Supabase queries, `fetch`, `fs`, the snapshot JSON file and `fetchMinerdData`'s choice of source are outside the model. The batch, the fetched pages, the previous snapshot and each store answer are parameters.
- **HTML stripping and link scraping** in the change monitor need a regex engine. The page text is given already stripped of tags, with whitespace collapsed and lowercased, and the links are given as a list.
- **Console output, durations and `Date`.** Console output and `Date.now()` durations are left out. `new Date().toISOString()` is a string parameter where the model keeps the column: the newsletter row's `subscribed_at`, the import log's `import_date`, and the monitor's snapshot time, where one timestamp serves a whole run.
- ImportMinerd.RowFor: the upserted row leaves out `updated_at` (`new Date().toISOString()`, scripts/import-minerd.js:264), as no property of the import depends on it. `students_count` is the floor of the number, where the source has `parseInt(record.students_count) || 0`. The two agree for every count the range layer lets through below 10^21. From 10^21 on, `parseInt` reads the exponent form (`parseInt(1e21)` is 1), which the model does not follow.
- EmailFormat.TestedText: `Value.Arr` holds strings only, so an array with non-string elements cannot be sent. For example, `["ana@colegio.do", 1]` stringifies to `ana@colegio.do,1`, which the source accepts; the model has no such value.
- **Unicode.** `toLowerCase`, `trim`, `\s` and `\w` are modelled on ASCII. `normalize('NFD')` is not modelled: `Utils.Slugify` removes the combining marks U+0300 to U+036F and is exact on input already in NFD form; a precomposed letter such as `í` becomes a hyphen in the model where the source keeps `i`. `charCodeAt` is the code point of a `char`, without UTF-16 surrogate pairs.
- **Numbers.** `parseInt` of the page and limit parameters and NaN are not modelled: they are given as parsed integers. The ranking page's `parseInt` of the province id is modelled on digit text only, which is what its select options hold. `toFixed`, `toLocaleString` and the tuition number format are a `show` parameter. Scores and ratings are exact reals.
- **PostgREST filters.** `ilike` wildcards and escaping are modelled as case-insensitive substring tests. The store's own ordering, range and count, and type casts, are not modelled.
- **Open-house dates.** Parsing `event_date` into a local year and month is left out: events carry year and month. `getMonthLabel` (`toLocaleDateString`) is presentation only and is left out.
- **Process exit codes** are returned as values instead of ending the process.
- **Framework plumbing.** The middleware `matcher` configuration (src/middleware.ts:21-23) is left out. So are React's effect scheduling, the loading skeleton, the `onClose` callbacks and the `setTimeout` auto-close of the inquiry form.
- **RankingPage.Changed**: `handleFilterChange` accepts any string key. The model accepts only the five filter keys, since a spurious key leaves the query unchanged.
- **RankingPage.SortOrder**: `nullsFirst: false` is recorded in the order value, but the store's null placement is not modelled.
- **Seed.InsertFor**: the row is modelled with the fields the loop or the later scripts read (name, slug, type, address, province, top flag, status). The descriptive columns (phone, website, rating, and so on) are not modelled, and the samples carry only the fields the model uses.
- **TopPublic.SortBucket**: the JavaScript sort is modelled by a stable insertion sort on descending score. Any stable sort with this comparator gives the same order, and `Array.prototype.sort` is stable.
- **Other files.** `calculate-ratings.js`, whose rating formula is an SQL function not shown, is not part of this model. Neither are the presentation-only pages and components, nor the type declarations, which only gave the datatype shapes.

## Findings

| source | as written | input that shows it | evidently intended | confidence | as-written member | corrected member |
|---|---|---|---|---|---|---|
| src/lib/utils.ts:3-4 | `formatTuition` tests `!min && !max` before `min === 0 && max === 0`, and 0 is falsy | `formatTuition(0, 0)` returns `No reportado` | a free school (both fees 0) shows `Gratuito` | not executed | Utils.FreeTuitionUnreachable | Utils.FormatTuitionIntended (with Utils.IntendedDiffersOnlyOnFree: the two differ exactly on zero fees) |

# Verification model of the backend's data layer

A Dafny model of the parts of the service whose correctness is a claim about every input or every
interleaving: the PostgreSQL filter compiler, the durable job queue, the spreadsheet reader and
patcher, role inheritance, cursor pagination, the rate limiter, file versions, idempotent requests,
streamed storage, chunked uploads and the record cache. Each module follows one source component
and proves what that component promises.

Check it with `dafny verify dfyconfig.toml`.

| files | what they model |
|---|---|
| `Datetimes`, `Values` | stored timestamps (section 5.1 of RFC 3339), record values, their JSON form and the codec |
| `SqlLiterals`, `SqlText`, `SqlGrammar`, `SqlEval` | SQL as characters, as tokens and as expressions: string and array literals, the lexer, operator precedence, three-valued evaluation over JSONB |
| `SqlFilter` | the compiler `where`, as a class that binds parameters while it emits text |
| `SqlMatcher`, `SqlSpelling`, `SqlBinding`, `SqlProofs`, `SqlTheorems` | the reference matcher, which names survive as text, which operands can be bound, and the proofs that relate the two |
| `JobRecords`, `JobProtocol`, `JobProofs`, `JobTiming`, `JobBudget`, `JobService` | the job queue as a step machine of workers, leases and a clock; safety, the timing that excludes two handlers of one job, the bound on claims; the service's own loop, shown to be runs of that machine |
| `Ods` | the run-length spreadsheet reader against expand-then-trim |
| `Columns`, `SheetEdits`, `SheetPatch` | column names, what changed between two sheets, replacing single cells of a worksheet |
| `Rbac` | role inheritance as reachability, and who may do what |
| `Pagination`, `Collation` | cursor pages over snapshots that change between pages, and rows sorted under the database's collation |
| `RateLimit` | sliding and fixed windows |
| `FileVersions`, `Backfill`, `BackfillRuns` | concurrent uploads of versions, and the migration that flags old records, by one worker, by several, and during an upload |
| `Idempotency` | claim, run, store or release, replay |
| `S3Storage`, `ChunkedUpload` | splitting a stream into parts, assembling chunks |
| `UserStore`, `SessionStore` | cached records against the database |

Where the code and a stated expectation differ, the code is modelled and the difference is proved,
with the exact condition under which the expectation holds:

- The name of an undotted `$exists` goes into the SQL text unchecked, so a quote in it changes what
  the text says, although values are documented as never interpolated, and with U+0000 in it the text
  cannot be sent (`SqlTheorems.TextReadsBack`, `SqlTheorems.QuotedNameBreaks`). A dotted name with a
  part `null`, or one that ends in a newline, reads another value than the name means
  (`SqlTheorems.FieldIsFaithful`).
- An operand that holds U+0000 compiles and is bound, and PostgreSQL refuses the statement, whatever
  else the filter says; so it does beyond the number of parameters a statement can have
  (`SqlTheorems.WhereNeverFaults`, `SqlTheorems.NulOperandBreaks`, `SqlBinding.FilterBinds`).
- An empty `$or` compiles to TRUE (`SqlTheorems.EmptyAnyDiffers`). Booleans against numbers, times
  against the text that encodes them, None against an array that holds null, and list operands match
  differently than in the matcher, and so does an operand of `$exists` that is neither true nor false
  (`SqlProofs.EqualityAgreesExactly`, `SqlProofs.CompareAgrees`, `SqlTheorems.ListOperandDiffers`,
  `SqlProofs.ExistsAgrees`).
- Plain text shaped like a stored timestamp, in digits of any script, does not survive a round trip
  (`Values.DecodeInvertsPrepare`), and unless it is the encoding of a datetime its record cannot be
  read at all (`Values.StampTextReads`). A value that holds U+0000 cannot be stored
  (`Values.StoredReadsBack`).
- Listings are sorted under the database's default collation while cursors compare bytes. The two
  agree on stored timestamps and on tie-breakers of one shape (`Pagination.OrderByIsNewestFirst`), not
  on any text (`Collation.OtherShapesMayNot`).
- The doubled lease excludes two handlers of one job exactly if handlers start within the timeout of
  their claim (`JobTiming.ExclusionNeedsTimelyStarts`).
- A formula behind a character XML forbids is not neutralized but stored as the formula
  (`SheetPatch.LeadingControlCharacter`, `SheetPatch.StoredTextRuns`). A carriage return
  comes back as a line feed, and a number put into a cell with a date format as a date
  (`SheetPatch.CarriageReturnIsLost`, `SheetPatch.NumberBecomesDate`); such a cell is edited again
  whenever the same rows are sent (`SheetPatch.EditedAgain`). A sheet that holds NaN differs from
  itself (`SheetEdits.DiffOfSelf`).
- The migration hides files none of whose records stores a version number
  (`Backfill.CurrentNeedsANumber`), and an upload that lands between its read and its write leaves two
  current versions (`BackfillRuns.StaleReadIsWrong`, `BackfillRuns.UploadDuringBackfill`).
- Counting a failed login is safe for every cache exactly if the record handed over has the stored
  names (`UserStore.HandOverIsSafe`).

## Model

| member | source | states |
|---|---|---|
| Datetimes.CivilOrderIsInstantOrder | app/database/postgres_sql.py:32-35 | comparing UTC datetimes field by field is comparing the microsecond they denote |
| Datetimes.TextOrderIsInstantOrder | app/database/postgres_sql.py:32-35 | stored timestamps compare byte by byte in the same order as the instants they denote |
| Datetimes.FromIsoOfEncode | app/database/postgres_sql.py:62-65 | every encoded datetime has the stored shape and is read back as itself |
| Values.DecodeInvertsPrepare | app/database/postgres_sql.py:46-70 | decoding what was stored gives a nested value back exactly when no plain text in it has the stored timestamp shape, in digits of any script |
| Values.StampTextReads | app/database/postgres_sql.py:62-65 | a plain text of that shape can be read again exactly when it is the encoding of a datetime; a digit of another script, a final newline or an impossible date raises |
| Values.StoredReadsBack | app/database/postgres_sql.py:46-70 | a value is stored and read back as itself exactly when, besides, neither a text nor a key in it holds U+0000 |
| SqlLiterals.QuotedReadsBack | app/database/postgres_sql.py:91-98 | text between quotes is read back as itself exactly when it holds neither a quote nor U+0000 |
| SqlText.LexInvertsRender | app/database/postgres_sql.py:101-157 | spaced tokens, written out and lexed again, are the same tokens exactly when no string constant among them holds a quote or U+0000 |
| SqlGrammar.ParseInvertsPrint | app/database/postgres_sql.py:101-157 | the token text of any properly grouped expression parses back, under SQL precedence, to that very expression |
| SqlGrammar.ParseAllSound | app/database/postgres_sql.py:101-157 | and whatever parses is the printed form of what it parses to |
| SqlGrammar.JoinTextIsChain | app/database/postgres_sql.py:142-157 | joining texts with AND or OR is the text of the left-grouped chain |
| SqlFilter.Query.Bind | app/database/postgres_sql.py:81-85 | each value is appended and gets the number of its place |
| SqlFilter.Query.Equals | app/database/postgres_sql.py:101-107 | the equality text, its one bound operand, or a refused name |
| SqlFilter.Query.Compare | app/database/postgres_sql.py:110-125 | the type-guarded comparison text, or a refused operand |
| SqlFilter.Query.In | app/database/postgres_sql.py:133-135 | one equality per option joined by OR, FALSE for none |
| SqlFilter.Query.Operators | app/database/postgres_sql.py:128-142 | the operators' texts joined by AND, operands bound in order |
| SqlFilter.Query.Where | app/database/postgres_sql.py:145-157 | the flat text built in the loops is that of the compiled conditions, and the parameters are bound in the order the text names them |
| SqlProofs.FieldValue | app/database/postgres_sql.py:91-98 | a plain field, or a dotted one whose path literal reads back, has the stored value, or NULL when it is missing |
| SqlProofs.PathReadsBack | app/database/postgres_sql.py:91-98 | the array literal of an accepted dotted name is never malformed, and reads back as its parts exactly when none is `null` in any case or ends in a newline |
| SqlTheorems.FieldIsFaithful | app/database/postgres_sql.py:91-98 | an accepted name reads what it means in every document exactly under that condition |
| SqlProofs.EqualsValue | app/database/postgres_sql.py:101-107 | what `_equals` evaluates to once its operand is bound: equality or containment; NULL on a missing field |
| SqlProofs.EqualityAgrees | tests/conftest.py:69-72 | wherever no bool meets its number, no time the text that encodes it and None no array that holds null, that is the matcher's equality |
| SqlProofs.EqualityAgreesExactly | tests/conftest.py:69-72 | for every scalar operand and every stored value, SQL and the matcher judge alike exactly when the two do not differ in one of these ways |
| SqlProofs.CompareAgrees | tests/conftest.py:54-68 | wherever the matcher gives an answer, a comparison is TRUE exactly when it holds, but for a bool field the matcher accepts |
| SqlProofs.ComparisonAgrees | app/database/postgres_sql.py:110-125 | the compiled text is an error exactly when the statement cannot run with its parameters, which it can only if the operand holds no U+0000; else it accepts as the matcher does except exactly on those fields |
| SqlProofs.ExistsAgrees | app/database/postgres_sql.py:136-139 | on any operand, an existence test accepts as the matcher does, except exactly for operands that are neither true nor false and whose truthiness is the field's presence |
| SqlBinding.FilterBinds | app/database/postgres_sql.py:81-88 | PostgreSQL takes all the parameters of a filter exactly when no operand bound at any depth holds U+0000 in a text or a key |
| SqlProofs.FilterAgrees | app/database/postgres_sql.py:145-157 | by induction over nested filters: an error exactly when the statement cannot run with its parameters, else TRUE exactly when the matcher accepts |
| SqlTheorems.TextReadsBack | app/database/postgres_sql.py:128-157 | the flat text of any filter, unparenthesised `$or` parts included, parses to the compiled conditions joined by AND: by tokens always, by characters exactly when no undotted `$exists` name holds a quote or U+0000 |
| SqlSpelling.TextLexes | app/database/postgres_sql.py:128-157 | the compiled text lexes to the tokens it was written from exactly when no undotted `$exists` name holds a quote or U+0000 |
| SqlTheorems.QuotedNameBreaks | app/database/postgres_sql.py:136-139 | any such name compiles, and its text never reads back as the test it was meant to be |
| SqlTheorems.NestedFilterSame | app/database/postgres_sql.py:145-157 | the flat text has the very value, NULL included, of the tree in which every part has its own parentheses |
| SqlTheorems.WhereMeansMatch | app/database/postgres_sql.py:7-9 | the characters of the text, lexed, parsed and run with three-valued logic, are TRUE exactly when the matcher accepts the record and neither an operand nor another parameter holds U+0000 nor are they too many, but for the differences listed above, wherever its parameters sit in the statement |
| SqlTheorems.WhereNeverFaults | app/database/postgres_sql.py:110-125 | over any stored document the conditions are TRUE, FALSE or NULL exactly when no operand and no other parameter holds U+0000 and they are not too many, operands of AND evaluated left to right: no cast meets a value it cannot convert |
| SqlTheorems.NulOperandBreaks | app/database/postgres_sql.py:87-88 | the inputs it fails on: an alternative whose operand holds U+0000 beside one that holds, where the matcher accepts and the statement is an error |
| SqlTheorems.MissingFieldIsNull | app/database/postgres_sql.py:101-125 | a missing field makes equality with a value, and every comparison, NULL in a statement that can run |
| SqlTheorems.FilterCompiles | app/database/postgres_sql.py:91-157 | a filter is refused exactly when some name, operator or operand in it is not acceptable; of the comparisons, exactly the three written out here are operators |
| SqlTheorems.ComparisonsMean | app/database/postgres_sql.py:110-132 | `$lt`, `$lte` and `$gt` compile for every good name and every number, text or datetime, and run to TRUE exactly when the record has a value of that kind there below, at most, or above the operand |
| SqlMatcher.IdentifierMeans | app/database/postgres_sql.py:19 | a part of a name is one to 63 letters, digits and underscores, not beginning with a digit, with a newline after it or none |
| SqlMatcher.SplitMeans | app/database/postgres_sql.py:93 | the parts of a name are what gives the name when joined by dots and has no dots itself |
| SqlFilter.FalseOperands | app/database/postgres_sql.py:139 | the operands of `$exists` that ask for absence: None, False, zero and what is empty |
| SqlTheorems.EmptyAnyDiffers | app/database/postgres_sql.py:149-152 | an empty `$or` compiles to TRUE while the matcher says false |
| SqlTheorems.ListOperandMeansSuperset | app/database/postgres_sql.py:106-107 | a list operand asks for a superset of its elements |
| SqlTheorems.ListOperandDiffers | tests/conftest.py:69-72 | for lists of scalars SQL asks for a superset and the matcher for equality, so they disagree exactly when the operand is contained and not equal |
| JobService.Service.Sweep | app/services/jobs.py:116-121 | one write puts every record into its swept form |
| JobService.SweptMeans | app/services/jobs.py:116-121 | exactly the running jobs whose lease has passed are queued again, without a lease, and no other field or record changes |
| JobService.Service.Claim | app/services/jobs.py:148-176 | the conditional claim: won exactly by the writer that finds the job queued, with the snapshot's attempts plus one; a used-up job is buried |
| JobService.Service.Finish | app/services/jobs.py:206-214 | only a record still running under this worker changes |
| JobService.Service.Settle | app/services/jobs.py:178-204 | if the record is still this worker's: done after success, dead after a permanent failure or the last attempt, else queued again after the delay; the lease goes and no other field or record changes |
| JobService.Service.Retry | app/services/jobs.py:240-254 | only a dead job is queued, with no attempts and due now; no other field or record changes |
| JobService.Service.RunTurn | app/services/jobs.py:130-133 | handling one due job is a run of the protocol machine that starts its handler exactly when the claim is won |
| JobService.Service.RunOnce | app/services/jobs.py:113-134 | a whole pass is a run of the machine, leaves the same records, and counts the handlers started |
| JobProofs.StepKeepsInv | app/services/jobs.py:113-214 | every step keeps: snapshots of distinct jobs, attempts within the maximum, a worker at work holds the latest claim or a stale one |
| JobProofs.RecordLife | app/services/jobs.py:113-254 | the life of a record: it begins queued without attempts, and every step changes it along one of eight lines that say who may, to which status, and what stays |
| JobProofs.ReturnedIsForGood | app/services/jobs.py:195-214 | in every run, once a worker that holds the record reports that its handler returned, the job is done and never claimed again |
| JobProofs.OnlyTheLatestClaimSettles | app/services/jobs.py:206-214 | in any run, an outcome that changes a record comes from that record's most recent claim |
| JobProofs.FinalStatesStay | app/services/jobs.py:148-254 | done is never left, and dead only by an administrator's retry |
| JobTiming.NoTwoExecuteTheSameJob | app/services/jobs.py:50 | if handlers start within any slack up to the timeout after their claim and stop at the timeout, the doubled lease keeps any two workers from executing one job at once |
| JobTiming.LateStartOverlaps | app/services/jobs.py:165-184 | for every larger slack, a run within it in which two workers execute one job, from any start with two workers |
| JobTiming.ExclusionNeedsTimelyStarts | app/services/jobs.py:50 | all runs exclude exactly when the slack is within the timeout, or there is one worker, or no attempt is allowed |
| JobBudget.WinLowersPotential | app/services/jobs.py:165-176 | a won claim lowers the sum of what workers hold or could read, although stored attempts may go down |
| JobBudget.ClaimsAreBounded | app/services/jobs.py:113-204 | in any run of W workers with crashes and stale snapshots, at most W (W+1)^max claims per life of a job, and attempts never exceed the maximum |
| JobBudget.OneWorkerClaimsAtMostMax | app/services/jobs.py:148-176 | a lone worker claims a job at most max times per life |
| Ods.RectangleIsTight | app/services/file/ods.py:83-84 | the trimmed rectangle loses no value, and its last row and column each hold one |
| Ods.NodeStandsFor | app/services/file/ods.py:25-26 | a cell with repeat k >= 1 stands for exactly k cells with its value, without one, or with zero or less, for exactly one, and anything else in a row for none |
| Ods.RowStandsFor | app/services/file/ods.py:25-26 | likewise a row, for equal lines |
| Ods.OneMoreRow | app/services/file/ods.py:52-73 | what one more repeated row does to the height and width of the naive reading |
| Ods.ReadRow | app/services/file/ods.py:55-66 | one row's cells are exactly the valued columns of its naive expansion; refused only when a valued run ends past the limit |
| Ods.WideCellIsTooBig | app/services/file/ods.py:61-62 | such a run already makes the rectangle exceed the limit |
| Ods.Scan | app/services/file/ods.py:50-73 | the first pass records exactly the valued rows and the size of the rectangle, or fails exactly when it is over the limit |
| Ods.WriteRun | app/services/file/ods.py:76-79 | a run's rows get their naive values and nothing else changes |
| Ods.ReadTable | app/services/file/ods.py:48-80 | the naive expansion, trimmed and padded, or an error exactly when that rectangle has more than the allowed cells |
| Ods.Read | app/services/file/ods.py:83-92 | every sheet, the last of equal names kept, exactly when all rectangles together fit the cap |
| Ods.LastNamedMeans | app/services/file/ods.py:87-91 | of tables with one name, the rows of the last are read |
| Columns.IndexOfLetters | app/services/file/xlsx_patch.py:55-69 | reading a column's letters gives its number back, for every number |
| Columns.LettersOfIndex | app/services/file/xlsx_patch.py:55-69 | and writing the number of any A-Z text gives that text back |
| Columns.LettersAreOrdered | app/services/file/xlsx_patch.py:55-61 | later columns have longer names, or equally long ones later in the alphabet |
| Columns.ColumnLetters | app/services/file/xlsx_patch.py:55-61 | the dividing loop computes those letters |
| Columns.ColumnIndex | app/services/file/xlsx_patch.py:64-69 | Horner's loop computes that number |
| SheetEdits.Neutralize | app/services/file/spreadsheet_processor.py:43-54 | a text that begins with `=` or `@`, or with a sign and is no number, gets a leading apostrophe, and every other value stays; the result never runs as a formula; numbers may have digits of any script |
| SheetEdits.NumberLikeMeans | app/services/file/spreadsheet_processor.py:38 | the texts taken for numbers: an optional sign, digits with an optional dot and at least one digit, an optional power of ten |
| SheetEdits.NeutralizeTwice | app/services/file/spreadsheet_processor.py:43-54 | neutralizing again changes nothing |
| SheetEdits.DiffersMeans | app/services/file/spreadsheet_processor.py:197-200 | no change are the same values, except NaN, and True and False with one and zero |
| SheetEdits.Diff | app/services/file/spreadsheet_processor.py:185-202 | exactly the positions, anywhere, where the new value differs from the current one, each with its new value neutralized |
| SheetEdits.DiffOfSelf | app/services/file/spreadsheet_processor.py:188-189 | a sheet diffed against itself has no edits exactly when no cell is NaN |
| SheetPatch.ParseRows | app/services/file/xlsx_patch.py:86-101 | the parsing loop gives exactly the rows and cells, or the refusal, that the next four rows describe |
| SheetPatch.RowsParse | app/services/file/xlsx_patch.py:90-99 | refused exactly when a row has no number or a cell no reference |
| SheetPatch.LastRowCounts | app/services/file/xlsx_patch.py:100 | of rows with one number, the last is kept, with its own cells |
| SheetPatch.LastCellCounts | app/services/file/xlsx_patch.py:99 | of a row's cells that name one column, the last is kept |
| SheetPatch.OnlyNumberedRows | app/services/file/xlsx_patch.py:100 | and no number is there that no row has |
| SheetPatch.ApplyEdits | app/services/file/xlsx_patch.py:127-133 | every edit in place and nothing else, refused exactly when one hits the anchor of a multi-cell formula |
| SheetPatch.ParseOfRebuiltRow | app/services/file/xlsx_patch.py:141-143 | a rebuilt row, parsed again, has the same cells, left to right |
| SheetPatch.Patch | app/services/file/xlsx_patch.py:120-144 | parsed again, the output holds exactly the edited and the kept cells; untouched rows are verbatim, rows ascend; the error cases exactly |
| SheetPatch.DiffThenPatch | app/services/file/spreadsheet_processor.py:216-226 | every changed position shows what is stored of its new value neutralized, which is that very value exactly for the kept ones but for numbers under a date format, in the old style and under its own reference; every other keeps its very cell |
| SheetPatch.StoredAsNeutralized | app/services/file/xlsx_patch.py:72-82 | the neutralized value is read back as it is exactly for nothing, booleans, finite numbers under no date format, and texts without carriage returns and characters XML forbids |
| SheetPatch.ForbiddenMeans | app/services/file/xlsx_patch.py:34 | the characters taken out are exactly those XML 1.0 does not allow |
| SheetPatch.CarriageReturnIsLost | app/services/file/xlsx_patch.py:81 | a carriage return in a text is read back as a line feed, alone or before one |
| SheetPatch.NumberBecomesDate | app/services/file/xlsx_patch.py:111-113 | a number put into a cell whose kept style is a date format is read as a date |
| SheetPatch.EditedAgain | app/services/file/spreadsheet_processor.py:188-189 | the same value sent again edits its cell again exactly when it is not read back as sent: not kept, neutralized, or a number under a date format |
| SheetPatch.StoredTextRuns | app/services/file/xlsx_patch.py:72-82 | what is stored runs as a formula exactly for texts that begin with a forbidden character and run without it, for negative infinity, and for other objects whose text runs |
| SheetPatch.LeadingControlCharacter | app/services/file/spreadsheet_processor.py:43-54 | the inputs it happens on: a forbidden character before any formula is neutralized to itself and stored as that formula |
| SheetPatch.PatchWithNothing | app/services/file/spreadsheet_processor.py:188-189 | with no edits every row is the original |
| Rbac.Expansion.Expand | app/services/rbac.py:93-103 | terminates on any graph; what it adds is reachable, closed under inheritance, and contributes exactly its permissions |
| Rbac.ResolveRole | app/services/rbac.py:83-106 | exactly the permissions of the defined roles reachable through `inherits`, cycles included |
| Rbac.InheritsMeans | app/services/rbac.py:93-103 | a defined role gives its own permissions and all that a role it lists gives, an undefined one none |
| Rbac.ResolveUser | app/services/rbac.py:109-132 | exactly what the user holds by role, group role, or active grant to the user or a group |
| Rbac.HoldsMeans | app/services/rbac.py:109-132 | the four ways to hold a permission, and no other: a role, a role of a group, a grant to the user, a grant to a group |
| Rbac.GrantsAreActive | app/services/data/temp_permissions_ops.py:31-47 | the grants counted are the started, unexpired, unrevoked ones |
| Rbac.GrantedMeans | app/services/data/temp_permissions_ops.py:31-47 | a grant counts exactly when it is to that user or group, not revoked, started, and not ended |
| Rbac.Covers | app/services/rbac.py:34-38 | true exactly when some held permission is `*`, the permission, or its resource's wildcard |
| Rbac.CoversMeans | app/services/rbac.py:34-38 | for an action on a resource, exactly `*`, the permission itself, or the resource's wildcard suffices |
| Rbac.WildcardIsPerResource | app/services/rbac.py:34-38 | `resource:*` suffices for an action exactly when the resource is its own |
| Rbac.Allows | app/services/rbac.py:141-146 | allowed exactly when the user holds a sufficient permission and, for a token, its scopes hold one too |
| Pagination.AfterMeansOlder | app/services/data/cursor.py:40-48 | the cursor's filter, read by the matcher, accepts exactly the records after the cursor |
| Pagination.PageFilterMeans | app/services/data/files_ops.py:130-133 | joined with the listing's own filter it accepts exactly those of its records |
| Pagination.PageQuerySelects | app/services/data/files_ops.py:130-137 | compiled to SQL, it is TRUE exactly for the listing's records after the cursor, if neither the listing's operands nor the cursor's tie-breaker hold U+0000 and the statement has not too many parameters, and never otherwise |
| Pagination.DescendingIsUnique | app/services/data/cursor.py:51-52 | newest-first order with a unique tie-breaker determines the listing |
| Pagination.OrderByIsNewestFirst | app/database/postgres_sql.py:160-168 | under any collation that puts digits before letters and both in order, the rows the database sorts are that listing, if the tie-breakers are of one shape |
| Collation.OneShapeCollates | app/database/postgres_sql.py:160-168 | texts that differ in hexadecimal digits only sort under such a collation as their code points do |
| Collation.OtherShapesMayNot | app/database/postgres_sql.py:160-168 | others may not: a collation that ignores hyphens puts `a` before `-b` |
| Pagination.PageIsPrefix | app/services/data/files_ops.py:134-142 | a page is a prefix of what comes after the cursor, and a next cursor is given exactly when more remains |
| Pagination.NothingRepeats | app/services/data/files_ops.py:119-143 | with any inserts and deletes between pages, no record is listed twice and the order never breaks |
| Pagination.NothingIsMissed | app/services/data/files_ops.py:119-143 | once the last page is reached, every record present throughout has been listed |
| Pagination.StaticListingIsComplete | app/services/data/files_ops.py:119-143 | on an unchanged collection the pages together are the whole sorted listing |
| RateLimit.RetryAfter | app/cache/memory.py:75 | a whole number of seconds, above the remaining wait by at most one, and at least one |
| RateLimit.DropExpired | app/cache/memory.py:72-73 | the popping loop leaves exactly the hits still in the window |
| RateLimit.MemoryCache.HitSliding | app/cache/memory.py:70-77 | one sliding hit on one key, its decision and what is stored; other keys and counters untouched |
| RateLimit.MemoryCache.HitFixed | app/cache/memory.py:79-85 | one fixed-window hit on one key, counted on or started over at the reset; other keys and windows untouched |
| RateLimit.RunRemembers | app/cache/memory.py:70-77 | after any run, the stored hits are the newest allowed ones and any hit is a window after the one `limit` before it |
| RateLimit.SlidingAllowsExactly | app/cache/memory.py:70-77 | after any run a hit is allowed exactly when fewer than `limit` allowed hits lie in the window before it, and the count reported is theirs |
| RateLimit.SlidingNeverExceedsLimit | app/cache/memory.py:70-77 | no interval of the window's length holds more than `limit` allowed hits |
| RateLimit.FixedNeverExceedsTwice | app/cache/memory.py:79-85 | in fixed mode at most 2 limit - 1 |
| RateLimit.FixedBoundIsMet | app/cache/memory.py:79-85 | and that many do occur, for every limit and window |
| RateLimit.SlidingRetry | app/cache/memory.py:74-75 | after a refusal and no other hit, the next is allowed exactly once the oldest hit has left; waiting `retry_after` suffices |
| RateLimit.FixedRetry | app/cache/memory.py:79-85 | the same in fixed mode, at the reset |
| FileVersions.StepKeepsInv | app/services/data/files_ops.py:53-73 | reading, inserting, demoting, crashing and soft deletion keep the version invariant |
| FileVersions.VersionsAreSound | app/services/data/files_ops.py:36-73 | in every state of every run: versions 1 to n, the highest flagged latest, alone once its own demotion has run |
| FileVersions.SoleLatestWhenQuiet | app/services/data/files_ops.py:68-72 | without crashes, when no demotion is pending the highest version alone is flagged |
| FileVersions.AlwaysACurrentVersion | app/services/data/files_ops.py:39-42 | a file with a live version always has a live current one |
| FileVersions.FileRecords.Newest | app/services/data/files_ops.py:93-109 | the highest version that is not deleted, or none |
| FileVersions.FileRecords.InsertVersion | app/services/data/schema.py:41 | the new record, live and flagged, unless the unique index has its version |
| FileVersions.FileRecords.Upload | app/services/file/file_service.py:236-245 | reading, inserting and demoting are steps of the machine; undisturbed, the upload gets the next version, live and flagged, and the others lose nothing but their flags |
| FileVersions.FileRecords.Delete | app/services/data/files_ops.py:158-178 | a soft delete marks every version and changes nothing else, exactly when one is live |
| FileVersions.DemotedMeans | app/services/data/files_ops.py:68-72 | exactly the flags below the version go |
| Backfill.Files.FlagFile | app/services/data/migrations.py:55-62 | one file's two updates, interruptible before either: flags written are right, other files untouched |
| Backfill.Files.FlagBatch | app/services/data/migrations.py:54-62 | a batch leaves fewer unflagged records, and none wrong |
| Backfill.Files.FlagLatest | app/services/data/migrations.py:49-62 | terminates; one worker interrupted anywhere, every flag written is right; finished, every record has its flag |
| Backfill.OutcomeIsDetermined | app/services/data/migrations.py:49-62 | the finished flags do not depend on where earlier attempts stopped |
| BackfillRuns.WorkersAgree | app/services/data/migrations.py:3-5 | any number of workers interleaving and stopping anywhere: every flag there is right, and once none is missing they are those of a worker alone |
| BackfillRuns.StaleReadIsWrong | app/services/data/migrations.py:56-59 | flagging what was read as newest keeps flags right exactly if it still is the newest or no record stores that number |
| BackfillRuns.UploadDuringBackfill | app/services/data/files_ops.py:53-72 | the run, for any file, in which an upload in between leaves two current versions and nothing to repair them |
| BackfillRuns.DemotedMeans | app/services/data/files_ops.py:68-72 | an upload takes the flag from exactly the file's flagged records with a lower version |
| Backfill.CurrentNeedsANumber | app/services/data/migrations.py:56-59 | a file gets a current version exactly when one of its records stores a version number |
| Backfill.UnnumberedFileIsHidden | app/services/data/migrations.py:56-59 | a lone record without a version ends up hidden |
| Backfill.AtMostOneCurrent | app/services/data/schema.py:41 | with the unique index at most one record of a file is flagged |
| Idempotency.Capture.Send | app/api/middleware/idempotency.py:114-121 | status, headers, body and the size flag after each message |
| Idempotency.Capture.SendAll | app/api/middleware/idempotency.py:114-121 | the captured body is the concatenation of the chunks the client got, status and headers those of the last message that set them |
| Idempotency.ExecutionsNeverOverlap | app/api/middleware/idempotency.py:88-102 | in no state of any run do two requests of one key run at once |
| Idempotency.StoredIsFinal | app/api/middleware/idempotency.py:129-146 | once a response is stored it stays, and nothing runs any more |
| Idempotency.ReplayIsExact | app/api/middleware/idempotency.py:157-178 | a replay carries the status, kept headers and content another request with the same body was sent |
| Idempotency.RetryIsAnswered | app/api/middleware/idempotency.py:157-178 | in every run a retry gets the stored response exactly if its body is the stored one, a mismatch if another is stored, and a conflict while the key is running or free; the key stays as it is |
| Idempotency.StoredIsReplayed | app/api/middleware/idempotency.py:157-178 | once a response is stored, every later answer to the same body is that response, and to any other a mismatch |
| Idempotency.SettleStoresOrFrees | app/api/middleware/idempotency.py:129-146 | a response is stored exactly when its status and size allow it, else the key is free again |
| Idempotency.KeptInOrder | app/api/middleware/idempotency.py:138-142 | exactly `content-type`, `location` and `content-disposition` are kept, whatever their case, each as often as it was sent and in order |
| Idempotency.Slot.Store | app/api/middleware/idempotency.py:129-146 | what the key holds after the application returned |
| Idempotency.Slot.Handle | app/api/middleware/idempotency.py:88-146 | one request undisturbed is a run of the machine from arrival to its answer; a taken key answers with the stored response, a mismatch or a conflict and stays; a free one runs, its client gets the application's body, and what the key then holds |
| S3Storage.StreamWriter.SendPart | app/services/file/storage/s3.py:162-170 | the part is held under the next number of the one open upload |
| S3Storage.StreamWriter.Accept | app/services/file/storage/s3.py:173-177 | full parts leave the buffer in order, and no byte is lost |
| S3Storage.StreamWriter.Finish | app/services/file/storage/s3.py:178-188 | the object is stored whole or assembled, its upload closed |
| S3Storage.SaveStream | app/services/file/storage/s3.py:151-195 | content equal to the stream, parts all full but a non-empty last; a failing stream or refused overwrite leaves the bucket as it was |
| S3Storage.ObjectIsDetermined | app/services/file/storage/s3.py:172-188 | however a stream is chopped, equal content is stored as the same object |
| ChunkedUpload.StagedStaysBounded | app/services/file/chunked_upload.py:160-164 | chunks of any accepted sizes stay below four times the declared size |
| ChunkedUpload.StagedBytesStayBounded | app/services/file/chunked_upload.py:146-170 | so does what a session has staged at any time |
| ChunkedUpload.EvenSplitIsAccepted | app/services/file/chunked_upload.py:110-117 | accepted totals always admit an even split every chunk of which is accepted |
| ChunkedUpload.Handler.StartUpload | app/services/file/chunked_upload.py:89-135 | accepted exactly for an id of 8 to 64 safe characters and sizes whose chunks can hold the whole, none empty and at most 10 000; a second start keeps the first record |
| ChunkedUpload.Handler.SaveChunk | app/services/file/chunked_upload.py:146-170 | exactly the fitting chunks of known sessions are staged, a retry replacing the earlier attempt |
| ChunkedUpload.Handler.ReceivedChunks | app/services/file/chunked_upload.py:138-144 | the staged numbers of an upload, each once, ascending |
| ChunkedUpload.Handler.Assemble | app/services/file/chunked_upload.py:180-213 | nothing unless complete; else the latest chunks in order, if their length is the declared one |
| ChunkedUpload.ChunkStandsAt | app/services/file/chunked_upload.py:193-200 | in the assembled bytes each chunk stands right behind those of lower numbers |
| ChunkedUpload.Handler.IsComplete | app/services/file/chunked_upload.py:172-178 | comparing the sorted list of staged numbers with the list 1 to the declared count finds out whether exactly the chunks of that range are staged |
| ChunkedUpload.Handler.Cleanup | app/services/file/chunked_upload.py:222-226 | session and chunks are gone, other uploads untouched |
| UserStore.Users.Get | app/services/data/data_service.py:163-178 | cached or not, the answer is the database's: the record with that id, name or address, or none has it |
| UserStore.AnswerIsUnique | app/services/data/schema.py:15-20 | which the unique indexes make one record at most |
| UserStore.Users.ForgetCached | app/services/data/users_ops.py:89-104 | the id, name and address entries are dropped, empty ones skipped |
| UserStore.Users.CreateUser | app/services/data/users_ops.py:106-129 | a fresh user is stored unless a name or address is taken; the cache stays coherent |
| UserStore.Users.UpdateUser | app/services/data/users_ops.py:194-221 | each given field is set, an address may be cleared, no other field or record changes; refused exactly when another user has the new name or address; no key of the old or new record stays stale |
| UserStore.Users.DeleteUser | app/services/data/users_ops.py:223-232 | a deleted user is gone from the cache under every key |
| UserStore.Users.IncrementFailedLogins | app/services/data/users_ops.py:77-87 | the count goes up by one; the cache stays coherent if the record handed over has the stored names, and exactly when every cached copy is under one of its keys |
| UserStore.WriteNeedsForgetting | app/services/data/users_ops.py:89-104 | a write keeps the cache coherent exactly when every cached copy of the record is dropped |
| UserStore.CurrentNamesSuffice | app/services/data/users_ops.py:77-87 | a record whose names are still the stored ones is good enough to hand over |
| UserStore.HandOverIsSafe | app/services/data/users_ops.py:77-87 | handing a record over is safe for every coherent cache exactly when its name, and its address if one is stored, are the stored ones |
| SessionStore.Sessions.CreateSession | app/services/data/sessions_ops.py:45-72 | the session is stored and no stale copy of its id remains |
| SessionStore.Sessions.GetSession | app/services/data/sessions_ops.py:74-91 | always the stored session; a revoked one is active at no time |
| SessionStore.ActiveMeans | app/services/data/sessions_ops.py:19-24 | a session can be used exactly if it is there, not revoked, and expires later |
| SessionStore.Sessions.UpdateSession | app/services/data/sessions_ops.py:108-129 | each given field is set, a revocation cleared or moved included, no other field or session changes, and the cached copy is dropped |
| SessionStore.Sessions.RevokeSession | app/services/data/sessions_ops.py:131-143 | that session gets the time and is revoked from then on; every other session stays as it is |
| SessionStore.Sessions.RevokeUserSessions | app/services/data/sessions_ops.py:145-177 | exactly the user's other sessions that are not revoked and expire later get the time, none is served from the cache, and every other session stays as it is |
| SessionStore.NoneStaysActive | app/services/data/sessions_ops.py:145-177 | afterwards none of the user's sessions but the kept one is active, now or later |

## Left out

- HTTP routes, models, authentication flows, logging, metrics, mail, and the calls into PostgreSQL, Redis, S3 and openpyxl: a record store with atomic conditional updates, an object store and ideal hashes are assumed.
- Naive and non-UTC datetimes, tuples and sets in records: values are already UTC and JSON-like; JSON text is taken for the value it denotes.
- SqlTheorems.WhereMeansMatch: SQL is modelled for the constructs the compiler emits; `$in` takes a list of scalars, and dotted names follow `field` (the matcher of the tests looks up flat keys). Text is a sequence of Unicode characters, so lone surrogates are not modelled, nor are PostgreSQL's limits on the size of one value.
- SqlProofs.CompareAgrees: numbers are finite and exact on both sides. In the program a float operand is bound with its exact binary value while a stored one has its shortest decimal, so `{"$lt": 0.1}` may accept a stored 0.1.
- SqlTheorems.WhereNeverFaults: AND and OR evaluate left to right, which PostgreSQL does not promise.
- Jobs: payloads, errors, `finished_at`, the idempotency key of `enqueue`, the order and size of a batch (any list of due jobs is allowed) and handlers that outlive their cancellation.
- JobService.Service.RunOnce: ties the loop to the machine when nobody else writes during the pass; interleavings are the machine's own.
- Ods.Read: cell values are opaque, so converting their text is not modelled, nor is the writer.
- SheetPatch.Patch: starts from rows and cells already parsed; zip handling, escaping, markup that is refused outright and new sheets are not modelled. Coordinates are from 1, as its callers give them; edits are applied in any order.
- SheetEdits.Diff: dates, the error a reader shows for a date out of range, and other objects compare by their text, integers beyond the range of floats (which raise) are not modelled, and a list as a cell value is not modelled.
- Rbac: the permission cache, its invalidation, and the 10 000 row cap on grants; one time is used for all the grant checks of a decision, where the program reads the clock for each.
- Pagination.PageIsPrefix: takes rows in code point order, which `order_by` gives for tie-breakers of one shape (`Pagination.OrderByIsNewestFirst`), as the generated UUIDs are; other tie-breakers depend on the database's collation.
- Pagination.OrderByIsNewestFirst: a collation weighs characters one by one; contractions and expansions are not modelled.
- Pagination.StaticListingIsComplete: cursors are taken for the key they encode, keys are unique and do not change, and the offset of a first page is not modelled.
- RateLimit.SlidingNeverExceedsLimit: times are real numbers, and the limit is at least one (with zero the sliding branch fails on an empty deque); the Redis scripts are not modelled.
- FileVersions.VersionsAreSound: hard deletes are left out; the program does not protect against them.
- Backfill.Files.FlagLatest: one worker; several, and an upload in between, are `BackfillRuns`. Flags already present are right, and files have at most 10 000 versions.
- Idempotency: one cache key, no expiry and no cache outage; how keys and body hashes are derived, and that equal header names collapse in a replay, is not modelled.
- Idempotency.Slot.Handle: nobody else uses the key meanwhile; interleavings are the machine's own.
- FileVersions.FileRecords.Upload: nobody else writes the file meanwhile; the version limit and the stored bytes are not modelled.
- S3Storage.SaveStream: the failure modelled is the chunk stream's; calls to the store succeed.
- ChunkedUpload.Handler.Assemble: sessions do not expire, and no chunk is replaced while the stream is read.
- UserStore.Users.CreateUser: ids are fresh, and names, ids and addresses are not empty; each operation is atomic, so concurrent cache-aside races are not modelled.
- SessionStore.Sessions.UpdateSession: `updated_at` is not modelled.
- `normalize_user`, `validate_sheet_name`, the cell count of `take`, Redis, quotas, thumbnails, password reset, OAuth and TTL purging: they would add members without a harder property.

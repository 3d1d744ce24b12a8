# A verified model of the SDD Agent core

SDD Agent drives one development task at a time through a fixed lifecycle and keeps everything it must not forget
in a `.sdd/` directory. This project models the parts of it that must be right for that to work, and proves what
they promise:

- **The store** (`Json`, `JsonGrammar`, `JsonLayout`, `JsonNesting`, `Models`, `Journal`, `Paths`, `FileSystem`, `Store`,
  `Refinement`, `LocalStore`, `History`, `StoreMachine`, `StoreJournals`). The file system is names to inodes to text,
  because `os.link` gives the inode of a temporary file a second name. `LocalStore` runs every operation on that tree
  and proves each one equal to an operation on a simple abstract store. `StoreMachine` cuts the writes into system
  calls, journal appends included, lets any number of processes interleave and die between any two of them, and proves
  the same documents and the same journals, torn appends aside, in every reachable state. Documents and journal lines
  are real JSON text: printing, `splitlines`, torn lines, and a scanner that accepts exactly what the grammar of
  RFC 8259 describes.
- **Secret rejection** (`Secrets`): the two walks over a JSON tree, exact at every depth.
- **The candidate** (`GitOutput`, `GitCandidate`, `Candidate`, `Utf8`): Git's NUL-separated output is parsed, two
  sources are merged into a canonical form, and the form is hashed. The proofs connect Git's printers, the canonical
  form and the bytes fed to the digest, which are the UTF-8 of RFC 3629.
- **The gates** (`Gates`, `GateProperties`): which validation result is current, and the chain from READY_FOR_REVIEW
  to commit authorization, as a property of unordered evidence.
- **The lifecycle** (`Transitions`): counting and length facts about every authorized run of the phase graph.
- **The workspace lock** (`Locking`, `LockMachine`): the object and the OS lock on its file, first method by
  method, then step by step with processes that die.

Code that changes things step by step is modelled by classes and by methods with loops; each is proved against a
function of its inputs or of the state before, and the lemmas are about those functions. Pure code is modelled by
functions. A raised exception is an `Err` result. Clocks, uuids, Git's output, file contents, the digest and the two
tests on a single key or string are parameters.

Some results are about what the code does not do:

- Appends that crashes cut short, any number of them, are never misread, but once anything follows a torn line the
  journal is refused at that line (`JournalProperties.JournalIsNeverMisread`, `JournalProperties.ReadableExactly`). An
  append keeps a journal readable exactly if the file is empty or ends in a line feed
  (`JournalProperties.AppendIsReadable`), which the code does not look at.
- A report category named `attempt.json` or `events.jsonl` shares its path with a file of the attempt. Once the file
  is there the report cannot be written (`Refinement.MkdirsFailsExactly` says exactly when). A report that comes first
  makes a directory of that name (`Refinement.MkdirsDisplacesExactly`,
  `StoreMachineTheorems.ReservedCategoryFirst`), and then no record or event of the attempt ever can be
  (`StoreMachineTheorems.DirectoryBlocks`). Nothing else makes such a directory
  (`StoreMachineTheorems.OnlyReportsTake`), and an admitted call differs from the abstract store in these two cases
  only (`Refinement.FilesMatterExactly`).
- A NUL in a path would make the fingerprint ambiguous (`Candidate.NulPathCollides`); Git's `-z` output cannot
  contain one (`GitCandidate.CandidateIsFramed`).
- The adapter's documentation says that every name parses unambiguously; an unmerged record keeps only what follows
  the last space of its path (`GitOutput.UnmergedKeepsPath`). The model follows the code.
- The metadata in the lock file is no evidence that the lock is held (`LockMachine.TornMetadata`).

## Model

| member | source | states |
|---|---|---|
| JsonProperties.ScanStringOfQuoted | src/sdd_agent/adapters/persistence/local_store.py:118 | The string scanner inverts the ASCII-escaping printer for every text, surrogate pairs included (RFC 8259 section 7) |
| JsonProperties.NumberExactly | src/sdd_agent/adapters/persistence/local_store.py:334-348 | The scanner takes the longest number literal a text starts with, and all of a text exactly if it is one: optional minus, integer part, fraction, exponent (RFC 8259 section 6) |
| JsonGrammarProperties.LoadsExactly | src/sdd_agent/adapters/persistence/local_store.py:334-348 | A text is accepted, with this value, if and only if the grammar of RFC 8259 puts it together so: white space, literals, strings with all escapes and surrogate pairs, arrays, objects whose repeated keys keep the last value |
| JsonGrammarProperties.EscapeIsShortest | src/sdd_agent/adapters/persistence/local_store.py:118 | Every character is written in the shortest printable ASCII way the grammar has for it |
| JsonLayout.LayoutExactly | src/sdd_agent/adapters/persistence/local_store.py:283 | The texts of the items, or of the members in the order of their keys, stand between brackets on one line, or on lines of their own and moved right by two spaces |
| JsonProperties.LoadsInvertsDumps | src/sdd_agent/adapters/persistence/local_store.py:283 | Parsing inverts printing for every JSON tree, in the one-line and in the indented layout with sorted keys |
| JsonProperties.ObjectTextIsPrefixFree | src/sdd_agent/adapters/persistence/local_store.py:334-348 | No proper prefix of a JSON object's text is JSON |
| JsonProperties.CompactIsPrintable | src/sdd_agent/adapters/persistence/local_store.py:118 | One-line JSON text has printable ASCII characters only, so nothing in it breaks a line |
| JsonNesting.JsonIsBalanced | src/sdd_agent/adapters/persistence/local_store.py:377-378 | Whatever parses as JSON closes every bracket and every quote |
| JsonNesting.TornIsUnfinished | src/sdd_agent/adapters/persistence/local_store.py:377-378 | A proper beginning of an object's text leaves a bracket open |
| JsonNesting.GluedIsUnfinished | src/sdd_agent/adapters/persistence/local_store.py:377-378 | However much of an event's text follows unfinished text, the whole stays unfinished, also when the tear was inside a string |
| ModelProperties.AttemptRoundTrip | src/sdd_agent/domain/models/attempt.py:26-46 | A saved attempt reads back as itself exactly when its schema version is the current one |
| ModelProperties.EventRoundTrip | src/sdd_agent/domain/models/event.py:26-37 | A printed event line parses back to that event exactly when its schema version is the current one |
| ModelProperties.ReadAttemptExactly | src/sdd_agent/domain/models/attempt.py:38-46 | Validation accepts exactly the dumps of valid attempts of the current version, with or without the members that hold null, and nothing with an extra or a missing field |
| ModelProperties.ReadEventExactly | src/sdd_agent/domain/models/event.py:29-37 | Validation accepts exactly the dumps of valid events of the current version, with or without a null candidate and an empty payload |
| ModelProperties.VersionFirst | src/sdd_agent/adapters/persistence/local_store.py:321-331 | Data is refused for its version exactly if schema_version is not there or not 1, whatever else is wrong |
| Journal.SplitLinesExactly | src/sdd_agent/adapters/persistence/local_store.py:131 | The lines are the only way to cut the text at the documented boundaries, a carriage return never apart from its line feed |
| Journal.WhiteExactly | src/sdd_agent/adapters/persistence/local_store.py:132 | A line is blank if it holds nothing but the code points of the class White_Space and the separators U+001C to U+001F |
| Journal.ReadEvents | src/sdd_agent/adapters/persistence/local_store.py:130-135 | The loop over the lines skips blank ones and stops at the first corrupt one, with its number |
| JournalProperties.JournalRoundTrip | src/sdd_agent/adapters/persistence/local_store.py:113-135 | After any sequence of appends a read returns exactly those events in append order |
| JournalProperties.ReadableWhenCurrent | src/sdd_agent/adapters/persistence/local_store.py:321-331 | A journal of whole lines reads back as its events if every one has the current schema version, and otherwise the first that has not is refused |
| JournalProperties.StaleEventBlocks | src/sdd_agent/adapters/persistence/local_store.py:391-397 | The first event of another schema version makes the whole journal unreadable, at that line |
| JournalProperties.TornAppendIsNeverMisread | src/sdd_agent/adapters/persistence/local_store.py:119-135 | After an append cut anywhere, a read returns the earlier events, or those and the whole event, or refuses exactly that line |
| JournalProperties.GluedLineIsNotJson | src/sdd_agent/adapters/persistence/local_store.py:375-383 | The line made of a torn event and of whatever later appends wrote, torn again or not, is no JSON |
| JournalProperties.JournalIsNeverMisread | src/sdd_agent/adapters/persistence/local_store.py:119-135 | After any sequence of appends, each cut anywhere by a crash or not at all, a read returns exactly the events whose whole text was written, in order, or refuses the first torn or stale line |
| JournalProperties.ReadableExactly | src/sdd_agent/adapters/persistence/local_store.py:119-135 | Reading such a file succeeds if and only if no append was torn, except that the last may lack its line feed, and every event written has the current version |
| JournalProperties.AppendIsReadable | src/sdd_agent/adapters/persistence/local_store.py:119-122 | An append to a readable journal leaves it readable, with the event at its end, if and only if the file was empty or ended in a line feed |
| JournalProperties.LinesAreEvents | src/sdd_agent/adapters/persistence/local_store.py:131-134 | Every line that is JSON at all is the whole text of one appended event, however many appends around it were torn |
| JournalProperties.WholeJournalReads | src/sdd_agent/adapters/persistence/local_store.py:334-348 | The whole text of a journal is JSON only where it is the one event in it |
| Paths.AttemptDirIs | src/sdd_agent/adapters/persistence/local_store.py:190-194 | Valid identifiers give exactly the layout's directory |
| Paths.CategoryDirIs | src/sdd_agent/adapters/persistence/local_store.py:196-199 | Valid identifiers give exactly the layout's report directory |
| Paths.LocateIs | src/sdd_agent/adapters/persistence/local_store.py:219-240 | A path is built if and only if every identifier is an acceptable component, and it is the layout's path |
| Paths.ComponentExactly | src/sdd_agent/adapters/persistence/local_store.py:219-240 | An identifier is refused if and only if it holds a NUL or does not name a child of every directory, on POSIX or where backslashes and drive letters separate |
| Paths.LocateIsInjective | src/sdd_agent/adapters/persistence/local_store.py:190-204 | Different identifiers never share a path |
| Paths.LocateStaysBelowRoot | src/sdd_agent/adapters/persistence/local_store.py:206-216 | No identifier leads out of the store's root |
| Refinement.PublishStores | src/sdd_agent/adapters/persistence/local_store.py:289-318 | Renaming or linking a complete temporary file adds exactly that document to the abstract store |
| Refinement.AppendStores | src/sdd_agent/adapters/persistence/local_store.py:119-122 | Text written at the end of a journal's file is added at the end of that one journal and changes nothing else |
| Refinement.TempPathIsInjective | src/sdd_agent/adapters/persistence/local_store.py:275-276 | Two temporary names are the same only for one path and one uuid |
| Refinement.MkdirsFailsExactly | src/sdd_agent/adapters/persistence/local_store.py:280 | The directory of a document cannot be made if and only if a file of the attempt, or a temporary file, has the name of the report's category |
| Refinement.MkdirsDisplacesExactly | src/sdd_agent/adapters/persistence/local_store.py:280 | Making it puts a directory in the place of a record or a journal if and only if it is for a report of that category of that attempt, and in the place of no other document |
| Refinement.FilesMatterExactly | src/sdd_agent/adapters/persistence/local_store.py:275-318 | The outcome and effect of an admitted call differ from the abstract store's if and only if a file stands where the report's directory belongs or a directory where the record or the journal belongs |
| LocalStore.LocalPersistenceStore.constructor | src/sdd_agent/adapters/persistence/local_store.py:76-77 | A new store on an empty tree is the empty abstract store |
| LocalStore.LocalPersistenceStore.WriteTempFile | src/sdd_agent/adapters/persistence/local_store.py:275-286 | The temporary file holds the whole text under a name of its own and the store is unchanged; nothing is written exactly where the directory is obstructed; which places directories take is stated exactly |
| LocalStore.LocalPersistenceStore.AtomicReplaceJson | src/sdd_agent/adapters/persistence/local_store.py:289-297 | Sets exactly one document, whatever document was there; fails and changes nothing where the directory is obstructed or a directory has the document's place |
| LocalStore.LocalPersistenceStore.AtomicCreateJson | src/sdd_agent/adapters/persistence/local_store.py:300-318 | Adds the document if there is none; fails without a change to the store if there is one, if a directory has its place or if its own directory is obstructed |
| LocalStore.LocalPersistenceStore.SaveCurrent | src/sdd_agent/adapters/persistence/local_store.py:85-89 | Outcome and new state are those of the abstract store; it is refused exactly if the dumped attempt holds a secret |
| LocalStore.LocalPersistenceStore.SaveAttemptRecord | src/sdd_agent/adapters/persistence/local_store.py:99-103 | Outcome and new state are those of the abstract store, or a refusal that changes nothing where a directory has the record's place |
| LocalStore.LocalPersistenceStore.AppendReport | src/sdd_agent/adapters/persistence/local_store.py:139-150 | For any category, reserved or not: outcome and new state are those of the abstract store, or a failure that changes nothing exactly where a file has the category's name; the directory it makes takes the place of the record or the journal exactly if the category is reserved |
| LocalStore.LocalPersistenceStore.AppendEvent | src/sdd_agent/adapters/persistence/local_store.py:113-122 | Outcome and new state are those of the abstract store, or a failure that changes nothing where a directory has the journal's place |
| LocalStore.LocalPersistenceStore.LoadCurrent | src/sdd_agent/adapters/persistence/local_store.py:91-95 | Returns what the abstract store holds as current attempt |
| LocalStore.LocalPersistenceStore.LoadAttemptRecord | src/sdd_agent/adapters/persistence/local_store.py:105-109 | Returns the reading of the abstract store's record, nothing if there is none, an error for a bad identifier |
| LocalStore.LocalPersistenceStore.ReadEvents | src/sdd_agent/adapters/persistence/local_store.py:124-135 | Returns the abstract store's journal of the attempt |
| LocalStore.LocalPersistenceStore.LoadReport | src/sdd_agent/adapters/persistence/local_store.py:152-168 | Returns the reading of the abstract store's report, an error if there is none |
| LocalStore.LocalPersistenceStore.ListReportIds | src/sdd_agent/adapters/persistence/local_store.py:170-174 | Lists exactly the report ids of the category in the abstract store, in the order of their code points; a bad identifier is refused by name, the category first |
| LocalStore.LocalPersistenceStore.LoadReports | src/sdd_agent/adapters/persistence/local_store.py:176-186 | Returns all those reports in that order, or the first error; a bad identifier is refused by name |
| LocalStore.LoadRecoveredState | src/sdd_agent/adapters/persistence/recovery.py:45-59 | On the file tree, recovery gives what it would give on the abstract store |
| Store.Admit | src/sdd_agent/adapters/persistence/local_store.py:85-150 | A call is let through to its layout path if and only if every identifier is acceptable and its data is clean; a bad identifier is reported first, in the order of the checks |
| History.RunOneMore | src/sdd_agent/adapters/persistence/local_store.py:85-150 | After any run one more call is refused exactly for a bad identifier, a secret or an existing document, changing nothing, and otherwise stores exactly its document or event |
| History.LoadedRecord | src/sdd_agent/adapters/persistence/local_store.py:99-109 | After any run load_attempt_record returns the attempt of the first admitted save_attempt_record for the key if its version is current, and is refused if it is not |
| History.LoadedReport | src/sdd_agent/adapters/persistence/local_store.py:139-168 | After any run load_report returns the report of the first admitted append_report for the key if its version is current, and is refused if it is not |
| History.ListedIds | src/sdd_agent/adapters/persistence/local_store.py:170-174 | After any run the ids listed for a category are exactly those of the admitted append_report calls |
| History.LoadedReports | src/sdd_agent/adapters/persistence/local_store.py:176-186 | After any run load_reports returns for each id, in order, the report first appended under it, unless one has another version |
| History.ReadEventsAfter | src/sdd_agent/adapters/persistence/local_store.py:113-135 | After any run read_events returns exactly the events appended for the key, in order, unless one has another version |
| History.RecoveryEqualsHistory | src/sdd_agent/adapters/persistence/recovery.py:45-59 | After any run, recovery gives nothing unless the last save was for that task, and otherwise that attempt with exactly its events, in order; other schema versions and bad identifiers are refused |
| History.HistoryIsAppendOnly | src/sdd_agent/adapters/persistence/local_store.py:99-150 | In every longer run records and reports are unchanged and journals only grow at the end |
| History.SecondCreatorIsRefused | src/sdd_agent/adapters/persistence/local_store.py:300-318 | A second creator of a document fails, and the document stays the first one's |
| StoreMachineProperties.InvAlways | src/sdd_agent/adapters/persistence/local_store.py:275-318 | The invariant of every interleaving with crashes: the files are the documents of the committed calls and the journals as appended, every inode being written is reachable only through its writer's temporary name, and only the holder of the workspace lock writes to a journal |
| StoreJournals.JournalsAlways | src/sdd_agent/adapters/persistence/local_store.py:113-122 | In every reachable state each journal holds exactly the committed events of its attempt, in order, with torn appends between them only if a process died, and nothing the secret check refuses |
| StoreMachineTheorems.EveryStateIsTheCommittedStore | src/sdd_agent/adapters/persistence/local_store.py:85-186 | In every reachable state the files hold exactly the documents of the committed calls, run one after the other, and journals whose whole lines are the committed events |
| StoreMachineTheorems.UndisturbedJournals | src/sdd_agent/adapters/persistence/local_store.py:113-135 | Where nobody died and nobody is writing, every journal reads as the committed calls alone would have it |
| StoreMachineTheorems.ListedReportsStay | src/sdd_agent/adapters/persistence/local_store.py:170-186 | A report listed in one state is listed and loads the same in every later state, so a list followed by loads sees no report vanish or change |
| StoreMachineTheorems.OutcomesAreJustified | src/sdd_agent/adapters/persistence/local_store.py:243-318 | In every run a call takes effect once if and only if it returns normally; it is refused for its first bad identifier, or else for a secret, exactly if there is one, and fails otherwise only for an existing document, a directory in the place of its record or journal, or something that had the name of its report's category: the attempt's record, its journal or perhaps a temporary file |
| StoreMachineTheorems.CallAlone | src/sdd_agent/adapters/persistence/local_store.py:85-150 | From any reachable state in which nobody holds the workspace lock, a call that nobody interrupts is refused exactly for bad identifiers, secrets or an existing document, fails exactly where a file or directory is in its way, and otherwise stores exactly its data; it leaves no other file |
| StoreMachineTheorems.CommitsFollowTime | src/sdd_agent/adapters/persistence/local_store.py:289-318 | A call that starts after another took effect takes effect after it |
| StoreMachineTheorems.CurrentIsOneCallersData | src/sdd_agent/adapters/persistence/local_store.py:289-297 | current.json is absent or holds exactly one earlier caller's complete data, at every moment |
| StoreMachineTheorems.FilesAreAppendOnly | src/sdd_agent/adapters/persistence/local_store.py:300-318 | Once there, a record or report never changes and a journal only grows at its end |
| StoreMachineTheorems.OneCreatorPerDocument | src/sdd_agent/adapters/persistence/local_store.py:308-316 | Of all concurrent creators of one document at most one succeeds |
| StoreMachineTheorems.PartialDocumentReads | src/sdd_agent/adapters/persistence/local_store.py:282-286 | A partly written document reads as no JSON at all |
| StoreMachineTheorems.NoSecretsOnDisk | src/sdd_agent/adapters/persistence/local_store.py:243-286 | No file, temporary files and torn writes included, ever reads as a tree the check refuses |
| StoreMachineTheorems.NoSecretsInJournals | src/sdd_agent/adapters/persistence/local_store.py:113-122 | Nor does any line of any journal, however many events and torn appends are in it |
| StoreMachineTheorems.NoOffendingNodeOnDisk | src/sdd_agent/adapters/persistence/local_store.py:243-286 | With the two walks as the check, no file as a whole and no line of a journal ever has an offending key or value at any depth |
| StoreMachineTheorems.NoLeftovers | src/sdd_agent/adapters/persistence/local_store.py:294-297 | When all calls have finished and nobody died, no temporary file is left |
| StoreMachineTheorems.RecoverAfterCrash | src/sdd_agent/adapters/persistence/recovery.py:45-59 | After any interleaving and any crashes, in the middle of appends too, a fresh process recovers exactly what the committed calls and the appends say, and where no append to the journal of the last saved attempt was torn what the committed calls alone say |
| StoreMachineTheorems.TornAppendIsReached | src/sdd_agent/adapters/persistence/local_store.py:119-122 | Every proper beginning of an event line can be what a death leaves in the journal |
| StoreMachineTheorems.TornTempIsReached | src/sdd_agent/adapters/persistence/local_store.py:279-286 | Every proper beginning of a document can be what a death leaves, under its temporary name only |
| StoreMachineTheorems.ReservedCategoryFirst | src/sdd_agent/adapters/persistence/local_store.py:139-150 | A first report of a reserved category makes a directory where the record or the journal belongs |
| StoreMachineTheorems.DirectoryBlocks | src/sdd_agent/adapters/persistence/local_store.py:300-318 | Once a directory has the place of a record or a journal, no call for it has ever taken effect and none ever will, whatever else is called and whoever dies |
| StoreMachineTheorems.OnlyReportsTake | src/sdd_agent/adapters/persistence/local_store.py:139-150 | In every run a directory has the place of a record or a journal only if an admitted append_report named that category for that attempt |
| StoreMachineTheorems.UndisplacedOutcomes | src/sdd_agent/adapters/persistence/local_store.py:99-122 | With no such report, record and event calls have the outcomes of the abstract store only, whatever other categories are used |
| Secrets.FindSecretLikeKeys | src/sdd_agent/configuration/secrets.py:48-60 | The recursive loop reports the dotted path of every offending key and nothing else |
| Secrets.FindSecretLikeValues | src/sdd_agent/configuration/secrets.py:88-102 | The recursive loop reports the dotted path of every offending value and nothing else |
| Secrets.PathTextIsInjective | src/sdd_agent/configuration/secrets.py:48-60 | Keys are spelled after dots and indices in brackets, so where no key has a dot or a bracket the reported text tells the node |
| ModelProperties.NatTextExactly | src/sdd_agent/configuration/secrets.py:59 | An index is spelled as its decimal numeral without leading zeros |
| Secrets.KeyWaysExact | src/sdd_agent/configuration/secrets.py:48-60 | Each node with an offending key is found exactly once, at every depth |
| Secrets.ValueWaysExact | src/sdd_agent/configuration/secrets.py:88-102 | Each offending string is found exactly once, at every depth |
| Secrets.CleanExactly | src/sdd_agent/adapters/persistence/local_store.py:252-256 | A tree is let through if and only if no key and no value at any depth offends |
| Secrets.RejectSecrets | src/sdd_agent/adapters/persistence/local_store.py:243-256 | Refuses exactly the trees that are not clean |
| Utf8.EncodeIsInjective | src/sdd_agent/domain/models/candidate.py:96 | No two texts share a UTF-8 encoding (RFC 3629 section 3) |
| Utf8.EncodeExactly | src/sdd_agent/domain/models/candidate.py:96 | The encoding of a text is the one byte sequence that the syntax of RFC 3629 section 4 allows for it, shortest forms only |
| Ordering.LessExactly | src/sdd_agent/adapters/git/cli.py:118 | Texts are ordered by the code points where they first differ, a beginning before what it begins |
| Utf8.ZeroIsNul | src/sdd_agent/domain/models/candidate.py:97 | A zero byte in encoded text is a NUL in the text and nothing else |
| Candidate.ValidatorAcceptsExactly | src/sdd_agent/domain/models/candidate.py:78-85 | The validator's two tests accept exactly the strictly ascending path lists |
| Candidate.Fingerprint | src/sdd_agent/domain/models/candidate.py:87-104 | The loop digests, entry by entry, the UTF-8 (RFC 3629) of path, kind, mode and hash, each with a zero byte after it |
| Candidate.StreamIsInjective | src/sdd_agent/domain/models/candidate.py:94-103 | Equal byte streams come from equal entry lists when no field holds a NUL; the kind rule tells an absent mode or hash from an empty one |
| Candidate.IdentityIsTheCandidate | src/sdd_agent/domain/models/candidate.py:107-122 | Equal candidates have equal identities, and unequal ones with one identity collide under the hash |
| Candidate.NulPathCollides | src/sdd_agent/domain/models/candidate.py:94-103 | With a NUL in a path one entry has the byte stream of two |
| GitOutput.ReadStatus | src/sdd_agent/adapters/git/cli.py:68-107 | The loop fills the four lists record by record, or fails on the first malformed record |
| GitOutput.SplitExactly | src/sdd_agent/adapters/git/cli.py:70-98 | Splitting gives the only parts that join to the text with no separator in them, except in the last once the limit is reached |
| GitOutput.AfterLastExactly | src/sdd_agent/adapters/git/cli.py:93 | The last part is the end of the text after its last separator |
| GitOutput.RecordRoundTrip | src/sdd_agent/adapters/git/cli.py:81-99 | Each printed status record is read as meant, with any spaces in its path |
| GitOutput.StatusRoundTrip | src/sdd_agent/adapters/git/cli.py:68-107 | The parser inverts the porcelain printer: the four lists hold exactly the right paths in order |
| GitOutput.UnmergedKeepsPath | src/sdd_agent/adapters/git/cli.py:90-95 | An unmerged record lists its path, as staged and unstaged, if and only if the path has no space |
| GitOutput.CleanExactly | src/sdd_agent/domain/models/git_status.py:31-40 | The worktree is clean if and only if Git reports no change but ignored files |
| GitOutput.DivergesExactly | src/sdd_agent/domain/models/git_status.py:42-48 | Divergence holds exactly when some path is listed as staged and as unstaged |
| GitOutput.DivergenceIsOneRecord | src/sdd_agent/domain/models/git_status.py:42-48 | When each tracked path is reported once, that is one record changed on both sides |
| GitCandidate.HashFile | src/sdd_agent/adapters/git/cli.py:163-169 | Reading in chunks digests the whole content |
| GitCandidate.TrackedEntries | src/sdd_agent/adapters/git/cli.py:121-152 | The index loop files the entry of each record under its path, or fails as the first bad record does |
| GitCandidate.DiffRoundTrip | src/sdd_agent/adapters/git/cli.py:121-152 | The token loop inverts the raw-diff printer: two tokens a record, never past the end |
| GitCandidate.LastRecordWins | src/sdd_agent/adapters/git/cli.py:138-151 | Each path is mapped to the entry of its last record |
| GitCandidate.CandidateSnapshot | src/sdd_agent/adapters/git/cli.py:109-119 | Fails exactly where the output is malformed or a file is missing, and otherwise gives ascending unique paths, the union of tracked and untracked, tracked entries first, by code points, which the validator accepts; an untracked file's entry is told from the file itself |
| GitCandidate.UntrackedExactly | src/sdd_agent/adapters/git/cli.py:154-175 | An untracked file becomes an added entry with mode 100755 exactly if it is executable and the digest of its content; only a missing file or an empty path fails |
| GitCandidate.EntryTellsTheFile | src/sdd_agent/adapters/git/cli.py:154-175 | An untracked file's entry determines its path, its executable bit and its digest |
| GitCandidate.CandidateIsUnique | src/sdd_agent/adapters/git/cli.py:109-119 | The canonical form depends on the set of paths, the tracked entries and the files only |
| GitCandidate.OrderDoesNotMatter | src/sdd_agent/adapters/git/cli.py:109-119 | Any reordering of Git's records gives the same entries and the same identity |
| GitCandidate.GitOutputIsReadable | src/sdd_agent/adapters/git/cli.py:109-152 | On what Git prints about files that are there the adapter never fails |
| GitCandidate.CandidateIsFramed | src/sdd_agent/adapters/git/cli.py:70-123 | No field of a candidate built from NUL-separated output holds a NUL |
| GitCandidate.SameIdentitySameCandidate | src/sdd_agent/domain/models/candidate.py:107-122 | End to end, one identity means one baseline and one snapshot, or a hash collision |
| Gates.ReadyForReview | src/sdd_agent/domain/policies/ready_for_review.py:45-75 | The loop collects the reasons of the condition, the report and each required obligation, in order |
| Gates.WaiverEligibility | src/sdd_agent/domain/policies/waiver_eligibility.py:44-72 | Eligible if and only if the result is the obligation's, did not run, may be waived and is classified ENVIRONMENT |
| Gates.ReviewGate | src/sdd_agent/domain/policies/review_gate.py:21-29 | Opens if and only if the review is for this context and has no blocker and no important finding |
| Gates.ReadyToCommit | src/sdd_agent/domain/policies/ready_to_commit.py:20-39 | Opens if and only if both decisions passed, the repository is intact and nothing blocks; the reasons are those of what failed, in order |
| Gates.Authorize | src/sdd_agent/domain/policies/commit_authorization.py:25-45 | Authorizes if and only if READY_TO_COMMIT passed and both it and the approval are for the current context; each reason is given exactly when it applies |
| GateProperties.CurrentExactly | src/sdd_agent/domain/policies/ready_for_review.py:123-153 | A result is selected if and only if it is listed once and strictly later than every other applicable one; otherwise the lookup is ambiguous, or empty when nothing applies |
| GateProperties.MetExactly | src/sdd_agent/domain/policies/ready_for_review.py:78-107 | A required obligation gives no reason exactly when its current result passed, or did not run and is waived for that very result |
| GateProperties.ReasonIsTheCause | src/sdd_agent/domain/policies/ready_for_review.py:78-107 | An obligation gives at most one reason, and each kind exactly when its cause holds of the bag of results |
| GateProperties.ReadyExactly | src/sdd_agent/domain/policies/ready_for_review.py:45-75 | The gate opens exactly when nothing blocks, the report is complete for this context and every required obligation is met |
| GateProperties.ReadyReasonsExactly | src/sdd_agent/domain/policies/ready_for_review.py:55-75 | Each reason is given exactly when its cause holds: the condition, a missing, stale or incomplete report, or a required obligation that gives it |
| GateProperties.OnlyApplicableEvidenceMatters | src/sdd_agent/domain/policies/ready_for_review.py:128-132 | Evidence that agrees on the required obligations in this context gives the same decision and reasons |
| GateProperties.OrderOfEvidence | src/sdd_agent/domain/policies/ready_for_review.py:10-26 | Permuting results and waivers changes neither the decision nor the reasons |
| GateProperties.IrrelevantEvidence | src/sdd_agent/domain/policies/ready_for_review.py:128-132 | A result or waiver of another context or obligation changes nothing, wherever it is inserted |
| GateProperties.OrderOfObligations | src/sdd_agent/domain/policies/ready_for_review.py:70-75 | Permuting obligations keeps the decision, and the reasons as a bag |
| GateProperties.LaterFailureBlocks | src/sdd_agent/domain/policies/ready_for_review.py:98-99 | A strictly later FAILED result blocks the gate under every waiver list |
| GateProperties.FailureIsSticky | src/sdd_agent/domain/policies/ready_for_review.py:147-153 | Once the current result is FAILED, only a strictly later applicable result can open the gate again |
| GateProperties.WaiversNeverRevoke | src/sdd_agent/domain/policies/ready_for_review.py:156-180 | More waivers never close an open gate |
| GateProperties.WaiversMatterExactly | src/sdd_agent/domain/policies/waiver_eligibility.py:51-72 | Waivers make a difference to an obligation exactly when its current result is eligible for one under ENVIRONMENT |
| GateProperties.AuthorizeCommit | src/sdd_agent/domain/policies/commit_authorization.py:25-45 | The whole chain authorizes exactly when the two contexts are one, the approval is for it, and report, review, integrity and every required obligation stand for it |
| GateProperties.AuthorizeTwice | src/sdd_agent/domain/policies/commit_authorization.py:33-45 | Fixed evidence authorizes at most one context: of two runs of the chain, with any contexts and approvals, both pass only for the same one |
| GateProperties.DecidingEvidence | src/sdd_agent/domain/policies/ready_for_review.py:78-107 | Behind an authorized commit each required obligation has a current result of this context that passed, or an eligible one with a waiver for that very result |
| Transitions.EdgesByTarget | src/sdd_agent/domain/workflow/transitions.py:71-95 | The authorized edges, each phase with exactly the phases it may be entered from |
| Transitions.ClosingTakes | src/sdd_agent/domain/workflow/transitions.py:25-95 | Every run from READINESS to CLOSED takes at least 8 steps, 3 more for each entry to FIX and 2 more for each return to READINESS |
| Transitions.ClosingTakesNoMore | src/sdd_agent/domain/workflow/transitions.py:25-95 | For any numbers of fixes and returns some authorized run takes exactly that many steps |
| Transitions.PipelineCounts | src/sdd_agent/domain/workflow/transitions.py:25-82 | In every run and prefix, CLOSED, CI, PUSH, COMMIT, READY_TO_COMMIT, reviews, VALIDATION and implementations or fixes are entered in non-decreasing numbers |
| Transitions.CommitIsEarned | src/sdd_agent/domain/workflow/transitions.py:25-36 | Every COMMIT comes from an IMPLEMENTATION or FIX through exactly VALIDATION, a review phase and READY_TO_COMMIT |
| Transitions.CommitsAreSeparated | src/sdd_agent/domain/workflow/transitions.py:25-36 | Between two COMMITs the work was implemented or fixed anew |
| Transitions.TerminalIsLast | src/sdd_agent/domain/workflow/transitions.py:19-23 | A closed or abandoned run is over |
| Locking.WorkspaceLock.Acquire | src/sdd_agent/workspace/lock.py:69-95 | Takes a free lock and leaves exactly its metadata in the file; refused, it leaves the holder, the OS lock, the handles and the file as they were |
| Locking.WorkspaceLock.Release | src/sdd_agent/workspace/lock.py:97-105 | Frees the lock if this object holds it and otherwise changes nothing |
| LockMachine.ExecKeeps | src/sdd_agent/workspace/lock.py:69-105 | The invariant of every interleaving of acquires, releases and crashes, system call by system call |
| LockMachine.AtMostOneHolds | src/sdd_agent/workspace/lock.py:65-95 | At most one live object says it is held; it owns the OS lock and the file holds exactly its metadata |
| LockMachine.OwnerLives | src/sdd_agent/workspace/lock.py:7-12 | The OS lock is never left with a dead process |
| LockMachine.HolderIsUndisturbed | src/sdd_agent/workspace/lock.py:79-86 | Whatever others do in any number of steps, a holder keeps the lock and its metadata until it releases or dies |
| LockMachine.RefusalsAreJustified | src/sdd_agent/workspace/lock.py:79-86 | In every run, behind each refused acquire there is a moment at which another living object owned the lock |
| LockMachine.CrashFrees | src/sdd_agent/workspace/lock.py:7-12 | The death of the owner's process frees the lock |
| LockMachine.AcquireAlone | src/sdd_agent/workspace/lock.py:69-95 | Left alone, acquire succeeds on a free lock, after any crashes, and is refused without a trace on an owned one |
| LockMachine.ReleaseAlone | src/sdd_agent/workspace/lock.py:97-105 | Left alone, release on a held lock frees it, closes its handle and changes nothing else; a second one changes nothing |
| LockMachine.ReleaseHandsOver | src/sdd_agent/workspace/lock.py:69-105 | After a release the next acquire of another object succeeds |
| LockMachine.AcquireTwice | src/sdd_agent/workspace/lock.py:69-74 | Acquire on an object that holds the lock is refused and changes nothing |
| LockMachine.TornMetadata | src/sdd_agent/workspace/lock.py:141-148 | After a death during the write the file may hold any beginning of the metadata with nobody owning the lock |

## Left out

- Lone surrogates in JSON strings and in paths (`surrogateescape`), and the literals NaN and Infinity: strings are Unicode scalar values and numbers are RFC 8259 number literals.
- Pydantic's lax conversions: a schema version written as `true` or `1.0`, which equal 1 in Python, is refused here; `occurred_at` is an opaque string, and its default value is left out.
- The fields of report models: a report is the JSON object it dumps to, and reading it checks the JSON, the object and the schema version only.
- The regular expressions and the URL parser of the secret tests: they are two arbitrary predicates on one key and on one string. Keys of one mapping are visited in sorted order, which changes only the order of the report.
- Two processes that write to journals at the same time: the workspace lock is taken for each append, which lets more interleavings happen than a lock held throughout.
- Power loss, `fsync` and directory entries that are lost: a crash is the death of a process.
- Temporary names are new when they are opened, as uuids are.
- Symbolic links, case-insensitive file systems, the Windows branches, permissions.
- Universal newlines, the recursion limit and memory limits of Python's JSON parser.
- Changes to the worktree between `git status`, `git diff` and the hashing of the files: `GitCandidate.Worktree` is one snapshot.
- Running `git` and the validation commands, their failures and timeouts; SHA-256, which is an arbitrary function of the bytes.
- Comparing naive with aware datetimes, which raises in Python: times are comparable numbers.
- Exceptions raised while the lock metadata is written, and one lock object used by two threads at once.
- Routing, readiness precedence, next actions, the closure checklist, the human gates and configuration models: small finite tables.
- Diagnostics, log events and message texts: a reason or an error is a value that names its case and its arguments.

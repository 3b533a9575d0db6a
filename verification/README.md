# ForensiX, modelled and proved

ForensiX reads a Chrome profile into a Case database and serves lists over it. Most of what it promises
is about whole runs: nothing lost, nothing counted twice, what is listed is what is claimed. These Dafny
files model the parts that carry those promises and prove them for all inputs. `dafny verify
dfyconfig.toml` checks the whole project.

Each module follows one component. A loop or an object that the program updates step by step is a method
or a class here, with a pure function as its specification; the promises are lemmas about that function.

| module | component |
|---|---|
| `CaseStore` | result and finding rows, the statements of an Analysis Run, its transaction |
| `Keyset`, `PagedRead` | one keyset page, its cursor, and the client loop that follows cursors while runs commit |
| `Completeness` | the current outcome of each (Source, Profile), and the Profiles on offer |
| `Calendar`, `ForensicTime`, `Instants`, `HistoryBounds` | UTC texts, their order, the bounds a query takes |
| `SimpleEntry`, `SimpleIndex`, `SuperFastHash`, `CacheRecords`, `Hex`, `Bytes` | Chromium's Simple Cache |
| `Acquisition`, `AcquisitionCoverage` | the Source scan that may fail or change anywhere, and its retry |
| `WorkingCopy`, `WorkingCopyDirectories` | the files and directories a scan leaves, against what verification allows |
| `Bundle` | checking an Acquisition Bundle and copying a Source out of it |
| `PaginatedList`, `Router`, `UrlText` | the client's list protocol and its address |
| `IdentityCandidates`, `Favicons`, `HistorySummaries`, `SourceRows` | grouping, ranking, citing, summing |
| `PayloadFiles` | content-addressed writes, cut by a crash at any step |
| `Csv` | the CSV profile of an Extract, read back |
| `Outcomes`, `Orders`, `Decimal` | option and result types, strict orders and sorting, decimal text |

## How the world is modelled

- The database is sequences of rows. A run is the list of statements it issues; a statement takes effect
  or is refused by a constraint or stopped by a fault, and a transaction that does not commit leaves the
  tables as they were. One artifact family has one results table and one table of findings; the rows that
  their foreign keys point to are sets.
- SHA-256 over a JSON text is the text itself, so two query fingerprints agree exactly when what they
  cover agrees. JSON and base64url around a cursor are an inverse pair; the decimal codec and the range
  checks inside are modelled.
- The file system answers each observation of a scan as the tree node says: a value, a failure, a
  change. A read of a file that is made twice is two answers.
- After a crash a name may show any state the directory had since its last sync, and bytes that were
  never synced may be any bytes.
- CRC-32, SHA-1, SHA-256, the host's time zone and the Selection Policy are function parameters.
- Characters are Unicode scalar values. `Orders.TextLess` compares code by code, as UTF-8 bytes and SQLite
  do; `Orders.UnitLess` compares UTF-16 code units, as `<` and `sort()` do, which differs above U+FFFF
  (`Orders.UnitOrderIsNotTextOrder`). Identity Candidates, the profile pick and the start of a run are
  compared by code units.

## What the code does that its documentation does not say

- `readPages` with a cap of 0 reads no page and still reports `complete`, as `Follows` states; with a cap
  of at least 1 it reports `complete` exactly when it holds every row (client/src/read-pages.ts:57-80).
- `normalizeInstant` refuses one real day, 0000-02-29, because `Date.UTC` reads the years 0 to 99 as 1900
  to 1999 (core/src/finding-query.ts:148-188); `Instants.AcceptsExactlyInstants` gives the exact condition.
- Text order is not time order everywhere. `ForensicTime.TextOrderExactly` gives the exact condition for an
  earlier and a later instant: both years are in 0..9999, or both are after 9999, or they are one year
  before 0, or the first is before 0 and the second in 0..9999. So a visit after the year 9999 is lost by
  every `from` of the years 0..9999 and admitted by every such `to` (`HistoryBounds.LateVisit`), and two
  instants in different years before 0 sort backwards (`HistoryBounds.TextOrderRunsBackBeforeYearZero`);
  `HistoryBounds.RightExactlyWhenDecided` says of each bound when it is right.
- In a results table that pools two artifacts (Bookmarks and its backup) the row that Completeness names can
  depend on the order in which the rows of one (Source, Profile) are read. It never does exactly when no
  (Source, Profile) has two active results (`Completeness.CurrentIsOrderIndependentExactly`), and the
  outcome never does (`Completeness.OutcomeIgnoresOrder`).
- `discardDirectoryObservation` removes a directory of copies but leaves its empty parents
  (core/src/acquisition.ts:325-355 against 135-158), which `findUnexpectedEntries` (core/src/verify.ts:56-117)
  then refuses: an ingest can succeed and its verification fail. `WorkingCopyDirectories.RefusedExactly` says
  when: some directory that stable directories lead to `Holds` after its children though no copied file is
  left below it. A directory holds when the last child that was copied at all was in the copy, even if
  discarded, or failed beside one that is kept. Without a directory discarded inside another nothing is
  refused, whatever copies failed (`NoNestedDiscardNoLeftover`); where no copy failed, a directory is left
  exactly when a copy was tried below it (`LeftWithoutFailures`); `NestedDiscardLeavesParent` is a tree that
  is refused.
- A payload that its name shows can still be lost. After a call that failed at the directory sync the next
  call finds the payload held and syncs nothing (`PayloadFiles.HeldButNotSafe`); `PayloadFiles.DurableExactly`
  says when a name is safe, and a call that wrote anything leaves each payload safe exactly when its file
  is synced (`PayloadFiles.PayloadDirectory.WritePayloadFiles`).

## Model

| member | source | states |
|---|---|---|
| `CaseStore.CaseDatabase.Execute` | core/src/case-findings.ts:365-368 | a statement takes effect exactly when no foreign key, CHECK clause, unique index, integer range or fault stops it, and otherwise changes nothing |
| `CaseStore.CaseDatabase.InsertRun` | core/src/case-findings.ts:1560-1580 | the run row is added exactly when its id is new and every Source it names exists |
| `CaseStore.CaseDatabase.PersistArtifact` | core/src/case-findings.ts:1479-1497 | leaves exactly the first `done` statements of the artifact applied, and stops early only where a fault or a constraint stops it |
| `CaseStore.CaseDatabase.PersistArtifacts` | core/src/case-findings.ts:1466-1499 | the same for a whole family; for a storable run only a fault can stop it |
| `CaseStore.CaseDatabase.StoreAnalysisWrites` | core/src/case-findings.ts:1546-2025 | the run and all families stored whole, or the database as before; a rollback has a cause |
| `CaseStore.OneActiveAtEveryStatement` | core/src/case-findings.ts:1474-1497 | cut after any statement, each subject has at most one active result and it is complete |
| `CaseStore.AcceptableRunIsAdmitted` | core/src/case-findings.ts:352-368 | a run whose rows cite existing runs, Sources and Manifest entries, name each subject once and fit their columns is refused at no statement |
| `CaseStore.ScriptKeepsValid` | core/src/case-findings.ts:1466-1499 | after a run each subject's active result is its newest complete one, and the tables have only grown |
| `CaseStore.RunIsSafe` | core/src/case-findings.ts:1546-2009 | committed or rolled back, a run keeps the table valid and only extends it |
| `CaseStore.HistoryIsSafe` | core/src/case-findings.ts:1466-1499 | after any sequence of runs the active results are the newest complete ones, and a deactivated result never returns |
| `CaseStore.RunIsHeld` | core/src/case-findings.ts:1501-1540 | after a committed run its i-th result holds the run id, subject, status, path, reason and ordinal of write i, the findings that cite it are that write's records in order, each once and under that run, and every earlier row holds what it held |
| `CaseStore.HistoryIsHeld` | core/src/case-findings.ts:1466-1540 | the same after any later runs, and the tables hold as many rows as the committed runs brought: nothing is lost, nothing is stored twice |
| `CaseStore.AdmitsExactly` | core/src/case-findings.ts:352-368 | over a sound table a statement is admitted exactly when a rowid is left and the table stays sound: every row cites rows that exist, values fit, one result of a run and one active result for each subject |
| `CaseStore.RegistersExactly` | core/src/case-findings.ts:1560-1580 | a run is registered exactly when its id is new and the rows it adds cite rows that exist |
| `CaseStore.RunStaysSound` | core/src/case-findings.ts:1466-1499 | a storable run leaves the table sound at every statement |
| `Keyset.MintedCursorDecodes` | core/src/finding-query.ts:273-328 | every minted cursor, integer or text, decodes to the same key and id under its own query |
| `Keyset.PastPosition` | core/src/finding-query.ts:362-409 | the keyset condition selects exactly the rows behind a listed row, in order |
| `Keyset.PageIsSlice` | core/src/finding-query.ts:330-423 | a read with the cursor after k rows returns the next rows of the sorted list, and a cursor exactly when rows remain |
| `Keyset.ListedRowIsMintable` | core/src/finding-query.ts:376-391 | the position of every listed row passes the range checks a cursor is read with |
| `Keyset.SameActiveSameListing` | core/src/finding-query.ts:253-267 | later states of a Case with the same active results list the same rows |
| `Keyset.ListedExactly` | core/src/finding-query.ts:362-409 | a query lists each finding of an active result that meets its filters, once, and nothing else |
| `Keyset.ListingRuns` | core/src/finding-query.ts:387-402 | ascending, each row has a smaller key than every later one, or the same key and a smaller id; descending, the reverse, by `<` on numbers and text comparison on texts |
| `Keyset.PageRuns` | core/src/finding-query.ts:330-423 | so do the rows of a page, each of them listed, as many as the limit or the rest of the list allows |
| `Keyset.DecodedIsMintable` | core/src/finding-query.ts:284-328 | whatever a client sends, a cursor is taken only for the query it was minted for, with an id in the rowid range and the key its text says |
| `PagedRead.LaterRead` | core/src/finding-query.ts:340-360 | after runs committed, a cursor gives the next page of the same list, or INVALID_CURSOR exactly when the active results changed |
| `PagedRead.StaleStaysStale` | core/src/finding-query.ts:340-360 | over any history of runs, a cursor refused once is refused ever after |
| `PagedRead.ChangedStaysChanged` | core/src/case-findings.ts:1474-1497 | active results that differ from an earlier state's never become the same again |
| `PagedRead.ReadPages` | client/src/read-pages.ts:57-80 | rows are whole pages of the served list; `complete` says whether they are all of it; the page count is max(1, ceil(n / limit)) |
| `PagedRead.CaseRouteServes` | core/src/finding-query.ts:330-423 | a route over a changing Case serves the first state's list for as long as the active results stand |
| `PagedRead.ReadCase` | client/src/read-pages.ts:57-80 | a whole client read over a changing Case never mixes two active sets, and fails only when the active results changed |
| `PagedRead.FollowsIsListed` | client/src/read-pages.ts:57-80 | the rows a client read holds are listed ones, in the direction of the sort, each once, and all of them when it is complete |
| `PagedRead.RunsGrow` | core/src/case-findings.ts:1546-2009 | states of a Case between which any runs commit or roll back are states such a read may meet |
| `PagedRead.GrowingStepByStep` | core/src/case-findings.ts:1546-2009 | states each extending the one before all extend the first |
| `Completeness.BuildStatement` | core/src/case-overview.ts:151-180 | the loop computes the fold that picks the current row of each scope |
| `Completeness.FoldIsCurrent` | core/src/case-overview.ts:151-180 | each scope of the rows has one current row: an active one if there is any, else the most recent attempt |
| `Completeness.ProducedExactlyWhenActive` | core/src/case-overview.ts:151-196 | `produced` is said exactly when some result is active, which is exactly when some run completed |
| `Completeness.CurrentIsOrderIndependentExactly` | core/src/case-overview.ts:142-180 | the current rows are the same for every order of the rows exactly when no (Source, Profile) has two active results, also among the orders the query allows |
| `Completeness.CurrentIgnoresOrder` | core/src/case-overview.ts:151-180 | with one active result at most in each (Source, Profile), any two orders of the rows name the same current rows |
| `Completeness.OrderShows` | core/src/case-overview.ts:142-180 | with two active results in one, an order that keeps the Sources and Profiles in place names the other |
| `Completeness.OutcomeIgnoresOrder` | core/src/case-overview.ts:181-196 | for every valid table, every two orders and every (Source, Profile) the outcome is the same |
| `Completeness.OutcomesSay` | core/src/case-overview.ts:181-196 | `absent` or `unavailable` is said exactly when nothing is active and the newest attempt has that status, `produced` exactly when something is active |
| `Completeness.CurrentIsOrderIndependent` | core/src/case-overview.ts:151-180 | a table of one artifact has one active result at most in each (Source, Profile), so the order does not show |
| `Completeness.PooledTableNamesFirstRead` | core/src/case-overview.ts:11-22 | with both Bookmarks files active, the row named is the one read first |
| `Completeness.ReadActiveProfiles` | core/src/case-overview.ts:259-278 | the Profiles with an active result in any results table, a missing table having none |
| `Completeness.ActiveProfilesAreProduced` | core/src/case-overview.ts:243-278 | the Profile filter offers exactly the Profiles for which the statement of some artifact says `produced` |
| `ForensicTime.FloorDivisionRoundsDown` | core/src/forensic-time.ts:16-25 | truncating BigInt division corrected for the remainder is division rounded down |
| `ForensicTime.UtcIsInstantText` | core/src/forensic-time.ts:27-41 | the text is the proleptic Gregorian UTC time with six fraction digits, or none outside the Date range |
| `ForensicTime.TextOrderIsTimeOrder` | core/src/forensic-time.ts:27-41 | over the years 0 through 9999 comparing texts compares instants, and equal texts are equal instants |
| `ForensicTime.TextOrderExactly` | core/src/forensic-time.ts:27-41 | for any two instants of the Date range the texts are in the order of the instants exactly under the condition on their years, and in the other order otherwise |
| `Calendar.DayOrder` | core/src/forensic-time.ts:27-41 | day numbers and calendar dates are in the same order, one date per day |
| `Calendar.EpochDay` | core/src/forensic-time.ts:27-41 | day 0 is 1970-01-01 |
| `Calendar.MonthLengths` | core/src/forensic-time.ts:27-41 | the lengths of the months, February after the leap year rule |
| `ForensicTime.YearTextSays` | core/src/forensic-time.ts:27-41 | a year is written with four digits, or a sign and six, and reads back |
| `Instants.AcceptsExactlyInstants` | core/src/finding-query.ts:148-188 | the field checks accept every calendar instant but those of 0000-02-29, and nothing else |
| `Instants.ReadsWritten` | core/src/finding-query.ts:148-188 | a bound written with any fields, fraction and zone reads back as those |
| `Instants.ReadsOnlyWritten` | core/src/finding-query.ts:148-188 | and a text with the pattern of a bound is one written out so |
| `Instants.NormalizeKeepsInstant` | core/src/finding-query.ts:148-188 | an accepted bound becomes the text of the very instant it denotes, offset applied, to the microsecond |
| `Instants.NormalizeFixesInstantText` | core/src/finding-query.ts:148-188 | the text of an instant is fixed by normalizing, 0000-02-29 aside |
| `HistoryBounds.BoundsSelect` | core/src/history-query.ts:157-162 | for a visit of any year and any accepted bounds, what the text comparisons select |
| `HistoryBounds.BoundsSelectClosedInterval` | core/src/history-query.ts:157-162 | the text bounds select the closed time interval of every visit that both of them decide about |
| `HistoryBounds.RightExactlyWhenDecided` | core/src/history-query.ts:157-162 | a bound answers rightly for a visit exactly when their texts are in the order of their instants |
| `HistoryBounds.FourDigitYearsAreDecided` | core/src/history-query.ts:157-162 | which is so for all visits and bounds of the years 0 through 9999 |
| `HistoryBounds.LateVisit` | core/src/history-query.ts:157-162 | every visit after the year 9999 is lost by every such `from` and admitted by every such `to` |
| `HistoryBounds.TextOrderEndsWithYear9999` | core/src/forensic-time.ts:27-41 | the first instant of the year 10000 is such a visit, and sorts before the last of 9999 |
| `HistoryBounds.TextOrderRunsBackBeforeYearZero` | core/src/forensic-time.ts:27-41 | the first instant of the year -1 sorts before the last of -2 |
| `SimpleEntry.ParsesEncoded` | core/src/cache-format.ts:294-352 | parsing an encoded entry returns it |
| `SimpleEntry.AcceptsExactlyEncodings` | core/src/cache-format.ts:294-352 | the parser accepts exactly the files header, key, stream 1, trailer, stream 0, optional key hash, trailer |
| `SimpleEntry.AcceptedIsEncoded` | core/src/cache-format.ts:294-352 | the parts of an accepted file cover it with no overlap and no gap |
| `SimpleEntry.ReencodesParsed` | core/src/cache-format.ts:294-352 | re-encoding a parsed entry gives the same bytes, up to the fields the parser ignores |
| `SimpleEntry.EncodingIsInjective` | core/src/cache-format.ts:257-352 | two entries with the same bytes are the same entry |
| `SimpleEntry.ParsedIsChecked` | core/src/cache-format.ts:294-352 | a stream declares a checksum exactly when its trailer's flag does and is valid exactly when its bytes have it; the key hash is valid exactly when the key has it |
| `SimpleEntry.MagicBytes` | core/src/cache-format.ts:32-34 | the eight bytes that begin an entry file and a trailer |
| `SimpleEntry.ParsesEof` | core/src/cache-format.ts:257-270 | a trailer is read at the place it was written, from its first twenty bytes |
| `SimpleIndex.ParseSimpleIndex` | core/src/cache-format.ts:401-492 | the moving cursor computes the index, and on success ends after the records and the time, inside the payload |
| `SimpleIndex.RoundTrip` | core/src/cache-format.ts:401-492 | an encoded index of distinct hashes gives back exactly the map of its records |
| `SimpleIndex.AcceptsExactlyEncodings` | core/src/cache-format.ts:401-492 | an index is accepted exactly when it is the encoding of a well-formed pickle under its length and checksum |
| `SimpleIndex.DistinctRecords` | core/src/cache-format.ts:454-477 | distinct hashes give one record each, under their own key |
| `SimpleIndex.RecordSays` | core/src/cache-format.ts:454-477 | a record packed as chunks of 256 bytes and hint bits has that size in bytes and the two low bits, under its hash's key, and its last-used text is that of its time |
| `SimpleIndex.IndexMagicBytes` | core/src/cache-format.ts:36-37 | the eight bytes that begin the index payload |
| `SimpleIndex.HeaderSays` | core/src/cache-format.ts:432-492 | version, count, cache size, write reason and time are those written |
| `SimpleIndex.InternalTimeSays` | core/src/cache-format.ts:454-490 | a time has no text exactly when it is 0 or outside the Date range, and otherwise that of the instant counted from 1601-01-01 |
| `SimpleIndex.EpochIs1601` | core/src/cache-format.ts:205-219 | the offset is the time from the first instant of 1601 to 1970 |
| `Hex.KeysAreInjective` | core/src/cache-format.ts:461-466 | the 16-digit key is injective on 64-bit hashes |
| `SuperFastHash.SuperFastHash` | core/src/cache-format.ts:154-200 | the loop over JavaScript numbers computes the 32-bit word definition |
| `SuperFastHash.MixStep` | core/src/cache-format.ts:165-171 | one pass of the loop reads inside the data, forms an exact sum and is the word mix of four bytes |
| `SuperFastHash.TailStep` | core/src/cache-format.ts:172-192 | the one to three bytes left over, the last as a signed byte, every sum exact |
| `SuperFastHash.Get16IsHalf` | core/src/cache-format.ts:163-164 | the or of a byte and its shifted neighbour is the little-endian half |
| `SuperFastHash.OrIsSum` | core/src/cache-format.ts:163-164 | of bits in ranges that do not meet, the or is the sum |
| `SuperFastHash.BitsSay` | core/src/cache-format.ts:159-200 | the exclusive or, the or and the and work on each binary digit alone |
| `SuperFastHash.LengthSplit` | core/src/cache-format.ts:159-162 | `& 3` and `>>= 2` split the length into fours and a rest |
| `SuperFastHash.AddWord` | core/src/cache-format.ts:163-200 | adding a signed byte stays exact and wraps to the word sum |
| `SuperFastHash.SignedByte` | core/src/cache-format.ts:172-192 | `<< 24 >> 24` is the byte as a signed number |
| `CacheRecords.GroupFiles` | core/src/cache.ts:240-261 | the copied entry files grouped by hash, the last `_0` file as stream 0 |
| `CacheRecords.BuildSimpleRecords` | core/src/cache.ts:191-461 | the loops compute the records: hashes on disk in order, then evicted references |
| `CacheRecords.RecordsPartition` | core/src/cache.ts:263-461 | each hash seen on disk or in a usable index has exactly one record; Finding exactly when it parses and is indexed or no index is usable; ranks are 1..N in order |
| `CacheRecords.PayloadFilesHoldBodies` | core/src/cache.ts:263-461 | payloads are named by their digest and every Finding with a body has its payload |
| `CacheRecords.LiveExactly` | core/src/cache.ts:240-300 | a hash is a Finding exactly when the last copied file named `<hash>_0` parses and the index lists the hash or cannot be used |
| `CacheRecords.RecordsSay` | core/src/cache.ts:263-461 | what each Finding and Candidate says: its hash, its files, its stream 0, the state of its index, and the kind of a Candidate with its reason |
| `CacheRecords.IndexStateSays` | core/src/cache.ts:205-239 | the index is used exactly when the first file of its name was copied and parses; otherwise the reason says which failed |
| `CacheRecords.PayloadsExactly` | core/src/cache.ts:263-461 | the payload files are exactly the nonempty bodies of the entries on disk that parse |
| `Acquisition.ScanContext.InspectFile` | core/src/acquisition.ts:160-264 | the entry the read calls for; a copy kept under its parents exactly when the read was stable, and removed otherwise with the parents it leaves empty |
| `Acquisition.ScanContext.RemoveEmptyParents` | core/src/acquisition.ts:135-158 | directories removed upward until one is not empty, missing or the root |
| `Acquisition.ScanContext.DiscardDirectoryObservation` | core/src/acquisition.ts:325-355 | entries cut back to where the directory began, its subtree of the copy removed and nothing above it, one unavailable entry in their place; a removal that fails ends the scan |
| `Acquisition.ScanContext.InspectDirectory` | core/src/acquisition.ts:357-447 | entries, copied files, directories and Profiles after a directory are those of its observation, whatever failed below |
| `Acquisition.ScanContext.InspectNode` | core/src/acquisition.ts:449-512 | the same for any node |
| `Acquisition.ScanContext.UnavailableParent` | core/src/acquisition.ts:514-530 | the walk over the prefixes finds an unavailable directory exactly when some prefix names one |
| `Acquisition.ParentLookup` | core/src/acquisition.ts:514-530 | with distinct paths that is exactly when an unavailable directory lies above |
| `Acquisition.ScanContext.AddExpectedEntries` | core/src/acquisition.ts:532-565 | each expected path not met gets one placeholder |
| `Acquisition.ScanContext.ScanOnce` | core/src/acquisition.ts:567-631 | one scan returns the Manifest of what was observed; the Working Copy holds exactly its copied paths, in the directories that its steps leave |
| `Acquisition.AcquireDirectory` | core/src/acquisition.ts:633-664 | the result is that of the one scan returned, the Working Copy files are exactly its copied paths and its directories what that scan left; a second root change fails the ingest |
| `Acquisition.ObserveIsSound` | core/src/acquisition.ts:357-512 | for every tree and pattern of failures: distinct paths, nothing below an unavailable directory, copied entries stable and of a copied tier |
| `Acquisition.ExpectedAreCovered` | core/src/acquisition.ts:532-565 | every expected path has one entry, absent exactly when no ancestor is unavailable |
| `Acquisition.OnlyPlaceholdersBelow` | core/src/acquisition.ts:532-565 | nothing but `parent_unavailable` placeholders lies below an unavailable directory |
| `Acquisition.ScanKeepsPromise` | core/src/acquisition.ts:567-631 | the sorted Manifest of every successful scan keeps all of this |
| `Acquisition.ScanSucceeds` | core/src/acquisition.ts:567-631 | only a throw or a changed root fails a listed Source; the refusal of a repeated path is never reached |
| `Acquisition.ScanCopiesByTier` | core/src/acquisition.ts:160-264 | in the Manifest of every successful scan an observed file with a value is copied exactly when it is of Tier 1, or of Tier 2 and that tier was asked for; nothing else is copied |
| `Acquisition.ExpectedPathsAre` | core/src/selection-policy.ts:385-424 | a path is expected exactly when it is that of an expected artifact of the browser or of a Profile found, or a sidecar of a database of one |
| `Acquisition.ProfilesFound` | core/src/acquisition.ts:449-512 | the Profiles found are the top-level directories with a Profile name, sorted, those discarded later included; a Profile Dir is its own |
| `Acquisition.PathsHoldNoBackslash` | core/src/acquisition.ts:449-512 | no entry of a scan has a backslash in its path, because the scan fails instead |
| `Acquisition.ScanIsSorted` | core/src/acquisition.ts:567-631 | the Manifest of a scan is in the order of its lines |
| `AcquisitionCoverage.ScanListsReached` | core/src/acquisition.ts:357-512 | the entries are exactly those of the nodes that stable directories lead to, each with what was read there |
| `AcquisitionCoverage.RootScanListsReached` | core/src/acquisition.ts:595-605 | the same for the whole Source: nothing reached is lost and nothing else is listed |
| `AcquisitionCoverage.EntrySaysNode` | core/src/acquisition.ts:160-512 | every entry says what was read at its node: the type, state, size, digest and reason of that reading |
| `AcquisitionCoverage.ReachedFileIsCopied` | core/src/acquisition.ts:160-264 | every file that stable directories lead to and that was read whole is in the Manifest with its size and digest, and in the Working Copy exactly when it is of Tier 1, or of Tier 2 and that tier was asked for |
| `WorkingCopyDirectories.NodeEffect` | core/src/acquisition.ts:135-512 | the scan of any node changes the Working Copy in one of three ways: its copies and directories with their parents, its parents cleaned up, or nothing |
| `WorkingCopyDirectories.ScanLeaves` | core/src/acquisition.ts:567-631 | a whole scan leaves the copied files and exactly the directories that hold |
| `WorkingCopyDirectories.DirectoriesLeft` | core/src/acquisition.ts:135-512 | a directory is left exactly when stable directories lead to it and it holds |
| `WorkingCopyDirectories.ParentsAreLeft` | core/src/acquisition.ts:160-186 | every directory above a copied file is there |
| `WorkingCopyDirectories.ExpectedExactly` | core/src/verify.ts:56-117 | nothing is unexpected exactly when every directory that holds has a copied file below |
| `WorkingCopyDirectories.RefusedExactly` | core/src/verify.ts:56-117 | the Working Copy of a successful scan is refused exactly when some directory holds with no copied file below |
| `WorkingCopyDirectories.NoNestedDiscardNoLeftover` | core/src/acquisition.ts:135-140 | without a directory discarded inside another, the directories are exactly those above copied files, whatever copies failed |
| `WorkingCopyDirectories.LeftWithoutFailures` | core/src/acquisition.ts:135-158 | where no copy failed below a directory, it is left exactly when a copy was tried below it |
| `WorkingCopyDirectories.NestedDiscardLeavesParent` | core/src/acquisition.ts:325-355 | a directory discarded inside another after a copy leaves the other, and the copy is refused |
| `Bundle.DecodeFiles` | core/src/acquisition-bundle.ts:211-231 | a file list is refused exactly when a path is not canonical, repeats or names the manifest, a size is not safe or a digest is not 64 lower-case hex digits |
| `Bundle.CanonicalExactly` | core/src/acquisition-bundle.ts:142-153 | a path is canonical exactly when it names something, resolves to itself and has no backslash |
| `Bundle.InspectBundle` | core/src/acquisition-bundle.ts:405-530 | the loops compute the records and the digest of what the disk holds |
| `Bundle.OneRecordPerPath` | core/src/acquisition-bundle.ts:477-530 | one record for each path the manifest lists or a non-directory on disk has |
| `Bundle.RecordsSay` | core/src/acquisition-bundle.ts:477-530 | a listed file is missing exactly when no node has its path, and its record holds the listed and the found size and digest; a node that no file lists has a record of what was found |
| `Bundle.RecordsAreSorted` | core/src/acquisition-bundle.ts:477-530 | the records come in the order of their paths |
| `Bundle.MatchingIsSame` | core/src/acquisition-bundle.ts:477-530 | every record matches exactly when the disk holds the listed files, each with its size and digest, and nothing more |
| `Bundle.VerifiedIsSame` | core/src/acquisition-bundle.ts:865-876 | `verified` implies the disk files equal the manifest files and no Source diverged |
| `Bundle.VerifiedExactlySame` | core/src/acquisition-bundle.ts:865-876 | for an ordered file list under its true digest, `verified` holds exactly then |
| `Bundle.ChildNodesAre` | core/src/acquisition-bundle.ts:391-403 | the nodes below a directory, named from there, each once |
| `Bundle.Materializer.CopyVerifiedFile` | core/src/acquisition-bundle.ts:730-763 | a copy stays exactly when the second read is stable and gives the recorded size and digest |
| `Bundle.Materializer.MaterializeEntry` | core/src/acquisition-bundle.ts:776-836 | entry, record and copy of one Manifest path, or the whole copy is given up |
| `Bundle.Materializer.Materialize` | core/src/acquisition-bundle.ts:765-863 | the loops compute the judged entries and records, and the Working Copy is what they wrote |
| `Bundle.JudgedOncePerPath` | core/src/acquisition-bundle.ts:765-863 | every Manifest path and every disk path is judged once |
| `Bundle.MaterializedIsExact` | core/src/acquisition-bundle.ts:765-863 | one entry per Manifest or disk path; the copied entries are exactly the files written, each with its recorded size and digest |
| `Bundle.MatchingSourceIsItsManifest` | core/src/acquisition-bundle.ts:765-863 | when every record of a Source matches, its entries are its Manifest, and anything more is a directory |
| `Bundle.MaterializedSays` | core/src/acquisition-bundle.ts:603-863 | a copied entry matches exactly when the disk still holds its file, and is then written again; it is missing exactly when nothing has its path; anything else, and every node without an entry, shows what is there and is recorded, directories aside |
| `PaginatedList.PaginatedList.RenderWith` | client/src/use-paginated-list.ts:57-100 | a change of parameters or hold ends the generation and starts the next; no change does nothing |
| `PaginatedList.PaginatedList.LoadNextPage` | client/src/use-paginated-list.ts:102-132 | asks for the next page unless held, at the end, or while a read is in flight |
| `PaginatedList.PaginatedList.RetryRead` | client/src/use-paginated-list.ts:134-147 | asks again for the page that failed, else starts over |
| `PaginatedList.PaginatedList.Settle` | client/src/use-paginated-list.ts:78-95 | a reply changes the list only in its own generation |
| `PaginatedList.StepKeepsValid` | client/src/use-paginated-list.ts:46-147 | every event keeps: one current read at most, rows the pages of the generation joined, the read in flight asks for the next page |
| `PaginatedList.EveryRunShowsPages` | client/src/use-paginated-list.ts:46-147 | in every interleaving the rows are the pages of the current generation, each asked for after the one before, at most one read in flight |
| `PaginatedList.EveryRunShowsFirstPages` | client/src/use-paginated-list.ts:46-147 | against one unchanging listing they are its first k pages |
| `PaginatedList.StaleForever` | client/src/use-paginated-list.ts:50-56 | a request of an ended generation never changes the list, whenever its reply arrives |
| `PaginatedList.RestartEndsGeneration` | client/src/use-paginated-list.ts:55-99 | a restart ends the generation of every request on the wire |
| `PaginatedList.RenderAsks` | client/src/use-paginated-list.ts:57-100 | a render with new parameters or a new hold ends every earlier generation, empties the list and asks for those parameters unless held; any other changes nothing |
| `PaginatedList.MoreAsks` | client/src/use-paginated-list.ts:102-132 | asking for more asks for the page after those shown, once |
| `PaginatedList.RetryAsks` | client/src/use-paginated-list.ts:134-147 | a retry repeats the page that failed behind rows shown, or starts over with the same parameters |
| `PaginatedList.ReplyShows` | client/src/use-paginated-list.ts:78-132 | the reply to the read in flight adds its page behind the rows or shows its message, and frees the list |
| `PaginatedList.FailureKeepsRows` | client/src/use-paginated-list.ts:120-147 | a failed read keeps rows and cursor, and the retry repeats the failed request |
| `PaginatedList.RetryAfterErrorKeepsRows` | client/src/use-paginated-list.ts:134-147 | whenever an error is shown, retrying loses no row |
| `UrlText.Utf8RoundTrip` | client/src/router.ts:108-108 | decoding UTF-8 undoes encoding it |
| `UrlText.TextRoundTrip` | client/src/router.ts:140-165 | any text survives the urlencoded format |
| `UrlText.QueryRoundTrip` | client/src/router.ts:108-140 | any list of names and values survives, repeats and empty texts included |
| `UrlText.ByteIsWritten` | client/src/router.ts:140-165 | which bytes are written as themselves, as `+`, and as `%` with two upper-case digits |
| `UrlText.HexBytesAre` | client/src/router.ts:108-116 | the hexadecimal digits of either case and their values |
| `Router.CanonicalProfilesAre` | client/src/router.ts:56-62 | the form of a pick is its non-empty names in ascending code unit order |
| `Router.SamePickSameForm` | client/src/router.ts:54-62 | two picks have one form exactly when they name the same Profiles |
| `Router.NormalizedRange` | client/src/router.ts:91-100 | each end is open or a real day, never reversed, and normalizing twice is normalizing once |
| `Router.RangeRunsForward` | client/src/router.ts:79-100 | a closed range runs forward in the calendar |
| `Router.DaysAreDateTexts` | client/src/router.ts:79-89 | a text is a day exactly when it is that of a calendar day of the years 0 through 9999 |
| `Router.RangeIsKept` | client/src/router.ts:91-100 | days that run forward stay as they are, reversed ones are swapped, anything else leaves its end open |
| `Router.ParseOfPlain` | client/src/router.ts:104-169 | a view with such ends, a sorted pick and no empty texts reads back as itself, part by part |
| `Router.ParsedIsPlain` | client/src/router.ts:104-135 | whatever is read from an address is such a view |
| `Router.FormatSays` | client/src/router.ts:139-169 | the address is the page and the parameters that are not left out, in their order |
| `Router.ComponentRoundTrip` | client/src/router.ts:109-116 | `decodeURIComponent` undoes `encodeURIComponent` |
| `Router.FormatLocation` | client/src/router.ts:139-169 | the appends compute the hash of the parameters in their fixed order |
| `Router.ParseOfFormat` | client/src/router.ts:104-169 | reading back a printed view gives its canonical form, for every view |
| `Router.CanonicalPrintsAlike` | client/src/router.ts:139-169 | a view and its canonical form have one URL, and the form is its own form |
| `Router.ParsedIsCanonical` | client/src/router.ts:104-135 | whatever the address, the view read from it is canonical |
| `Router.FormatSettles` | client/src/router.ts:104-169 | printing what was parsed settles after one step |
| `Router.SameLocationIsSameForm` | client/src/router.ts:171-174 | two views have one URL exactly when their canonical forms are equal |
| `Orders.UnitOrderIsTotal` | core/src/identity-candidates.ts:173-186 | comparing UTF-16 code units is a strict order, total on every set of texts |
| `Orders.UnitOrderIsNotTextOrder` | core/src/identity-candidates.ts:173-186 | it differs from the order of code points above U+FFFF |
| `Orders.TextOrderIs` | core/src/identity-candidates.ts:173-186 | a text is before another exactly when they agree on a first part and there the first ends or has the lesser character |
| `Orders.UnitsSay` | core/src/identity-candidates.ts:173-186 | a character above U+FFFF is the surrogate pair that adds up to it, and units keep their order |
| `IdentityCandidates.RowOrderIs` | core/src/identity-candidates.ts:169-186 | rows are in the order of Source, digits of the ordinal, database, table and row id |
| `IdentityCandidates.RowKeyIsInjective` | core/src/identity-candidates.ts:169-171 | source, ordinal, database, table and row id can be read off the joined key |
| `IdentityCandidates.ChooseDisplay` | core/src/identity-candidates.ts:388-401 | the commonest spelling, of several the least by code units, in whatever order the map is walked |
| `IdentityCandidates.BuildGroup` | core/src/identity-candidates.ts:414-433 | distinct rows by key, bases and display of one bucket |
| `IdentityCandidates.BuildGroups` | core/src/identity-candidates.ts:403-440 | the loops compute the ranked groups, whatever order the maps are walked in |
| `IdentityCandidates.NominateKind` | core/src/identity-candidates.ts:541-555 | one Candidate per group, in rank order |
| `IdentityCandidates.CandidatesAreWellRanked` | core/src/identity-candidates.ts:434-439 | at most 100, ranks dense, order strict by distinct-row count then key, and no omitted value outranks a kept one |
| `IdentityCandidates.CandidateIsWellSupported` | core/src/identity-candidates.ts:451-475 | the count is of all supporting rows; the rows carried are the least of them, at most 200; the display is canonical; the bases are those of the evidence, in order |
| `IdentityCandidates.RankedHaveRows` | core/src/identity-candidates.ts:456-461 | the refusal of a group without rows is never reached |
| `IdentityCandidates.NominationIgnoresOrder` | core/src/identity-candidates.ts:403-475 | the same evidence in any order nominates the same Candidates |
| `Favicons.IconMappingsByIcon` | core/src/favicons.ts:151-183 | mappings grouped by integer icon id, sorted by row id; an inexact row id fails |
| `Favicons.FaviconRecords` | core/src/favicons.ts:123-144 | the favicons row of each id; an inexact id fails |
| `Favicons.FaviconProvenance` | core/src/favicons.ts:222-261 | the primary row and the supporting rows of one Finding, or no citable row |
| `Favicons.BuildFavicons` | core/src/favicons.ts:409-481 | bitmaps in turn, then the icons without one in ascending order, or the first inexact id |
| `Favicons.IconIsCitable` | core/src/favicons.ts:231-245 | an icon without a bitmap always has a citable row |
| `Favicons.EveryRowIsCited` | core/src/favicons.ts:222-261 | the rows cited are exactly every bitmap, every favicons row and every mapping with an integer icon id |
| `Favicons.FindingCount` | core/src/favicons.ts:409-481 | bitmaps plus distinct bitmap-less icons, and the failure for a row that cannot be cited is unreachable |
| `Favicons.BitmapFindingSays` | core/src/favicons.ts:409-449 | the Finding of a bitmap stands on it, has the last favicons row of its icon, the icon's mappings by row id, the addresses that can be read and the count of those that cannot |
| `Favicons.IconFindingSays` | core/src/favicons.ts:450-481 | the Finding of an icon without a bitmap says the same of the icon, stands on its favicons row, else on its first mapping, and the ids ascend |
| `HistorySummaries.DurationSummaryFields` | core/src/history.ts:548-571 | counts, total and average of a group |
| `HistorySummaries.AverageRounds` | core/src/history.ts:564-570 | the average is the total over the known durations rounded toward zero, and absent with them |
| `HistorySummaries.SummaryProvenance` | core/src/history.ts:527-546 | the first visit's row with every other row of the group, set by key; its own Provenance when there is none |
| `HistorySummaries.SummaryCitesEveryRow` | core/src/history.ts:527-546 | every row the visits cite is cited by their summary |
| `HistorySummaries.SupportingRowsAre` | core/src/history.ts:527-546 | each supporting key once, none but the visits' own, never the primary |
| `HistorySummaries.BuildSummaries` | core/src/history.ts:573-704 | the loops compute the summaries, and no check of a summary's Provenance throws |
| `HistorySummaries.UrlGroupsPartition` | core/src/history.ts:578-594 | one group per key, holding the visits of that key in order |
| `HistorySummaries.GroupedExactly` | core/src/history.ts:573-704 | of one Profile's visits two share a URL group exactly when they have one Commit State and one URL id, or without ids one URL value; and an activity group exactly when they have one Commit State, local date and hour |
| `HistorySummaries.SummariesAre` | core/src/history.ts:573-704 | for each URL and each hour, in the order they first occur, one summary that counts the visits like its first and sums their durations; nothing else |
| `HistorySummaries.AlikeCountsId` | core/src/history.ts:578-620 | where every visit has a URL id, the count of a URL is that of the visits with its id |
| `HistorySummaries.GroupsKeepStates` | core/src/history.ts:581-594 | no group mixes Commit States |
| `HistorySummaries.SummariesConserve` | core/src/history.ts:573-704 | per Commit State the most-visited counts, the duration totals and the activity counts add up to those of the visits |
| `HistorySummaries.SummaryIsCitable` | core/src/forensic-model.ts:159-191 | a summary of visits that passed the Provenance checks passes them |
| `HistorySummaries.CitableSays` | core/src/forensic-model.ts:159-211 | rows that pass the checks name their Source, file, database, table and row; a recovery is of another entry of that Source, and exactly a journal's rows have one |
| `HistorySummaries.RecoveryIsCited` | core/src/forensic-model.ts:193-211 | every summary passes the Provenance checks, has the Commit State of every visit of its group, and cites a recovery entry exactly when each of them does |
| `PayloadFiles.PayloadDirectory.HoldsPayload` | core/src/payload-files.ts:20-34 | true exactly when the node can be read and the name shows the payload bytes |
| `PayloadFiles.PayloadDirectory.WritePayload` | core/src/payload-files.ts:58-73 | every step keeps the digest names; on success the name holds the whole payload, on failure the temporary file is removed |
| `PayloadFiles.PayloadDirectory.WritePayloadFiles` | core/src/payload-files.ts:43-83 | every step of the call is safe; on return every payload is held, those written survive a crash, and after a call that wrote anything each survives exactly when its file is synced; a call with all held changes nothing |
| `PayloadFiles.CutIsSafe` | core/src/payload-files.ts:36-42 | cut at any step, a digest name is as it could have been before or holds its whole payload |
| `PayloadFiles.LiveIsSafe` | core/src/payload-files.ts:36-42 | the same of what a reader finds without a crash |
| `PayloadFiles.HeldStaysHeld` | core/src/payload-files.ts:36-42 | a name that holds its payload through a crash keeps it through every step |
| `PayloadFiles.DurableExactly` | core/src/payload-files.ts:36-42 | a name is safe exactly when every state of the directory since its last sync leads it to a synced file of the payload |
| `PayloadFiles.HeldButNotSafe` | core/src/payload-files.ts:74-82 | after a call cut at the directory sync the name shows the payload, the next call finds it held, and a crash can still take it |
| `PayloadFiles.UnsyncedMayBeDamaged` | core/src/payload-files.ts:62-68 | without the sync of the file before the rename a crash could leave any bytes under the digest name |
| `Csv.CsvBytes` | core/src/export.ts:637-674 | the emitted bytes are the printed table: header, then one line per row |
| `Csv.CellBack` | core/src/export.ts:552-557 | a printed cell reads back as itself, quotes, commas and line breaks included |
| `Csv.TableRoundTrip` | core/src/export.ts:637-674 | reading by the quoting rules of section 2 of RFC 4180 with LF line ends returns exactly the table |
| `Csv.ExtractReadsBack` | core/src/export.ts:637-674 | decoding the bytes and reading them returns the table of cells, every line of one width |
| `Csv.PlainExactly` | core/src/export.ts:552-557 | a cell is printed as it is exactly when it has no quote, comma or line break |
| `Csv.ColumnsSay` | core/src/export.ts:637-674 | under each of its first names a row has that value: where it is from, what it is, and the row it cites |
| `Csv.FieldColumnsSay` | core/src/export.ts:564-674 | there is one column for each field name of any row, in byte order, and under it each row has the text of that field, `[absent]` where it has none |

## Left out

- SQLite itself, WAL checkpointing, file locks, and one `runs` row per run: the database is rows and atomic transactions.
- The child tables of a family are one table of findings, and the conditions of `createConditions` are one predicate of the History query; the other surfaces' queries add filters of the same kinds.
- Keyset.MintedCursorDecodes: base64url and JSON around the token are taken as inverse, because they are not this repository's code.
- `once`, `withCommitState` and the abort signal of client/src/read-pages.ts: no row depends on them.
- CaseStore.CaseDatabase.Execute: a column's type, NOT NULL and enumerated CHECK clauses hold by the types of the rows; the `forensic_candidates` child table is not part of this model.
- CaseStore.RunIsHeld: the schema version, integrity and recovery status of a result, each bound from one field, are not part of its row.
- Completeness.ReadActiveProfiles: a set, because the source sorts it by the host's locale; the statement's own sort is left out with it.
- Leap seconds, which the bound pattern refuses.
- SimpleEntry.AcceptsExactlyEncodings: says nothing of the CRC-32, SuperFastHash and SHA-1 values reported beside the streams, because they are function parameters.
- The blockfile cache backend and its header (core/src/cache-format.ts:500-511).
- CacheRecords.BuildSimpleRecords: a Finding is its hash, files, index state, entry and index record, a Candidate its kind, hash, rank and count; their other fields and Provenance rows are copied from these.
- Acquisition.ScanContext.InspectFile: a failing removal of a dropped copy is ignored by the source and would leave the file; the model has it removed.
- WorkingCopyDirectories.ExpectedExactly: compares all directories with those above copied files; the walk that reports them stops at the first one that is refused.
- Acquisition.ScanKeepsPromise: asks that the expected paths be distinct, which the Selection Policy (core/src/selection-policy.ts) is taken to ensure.
- Manifest entries carry no file kind, modification time, link target or `unclassified` mark: each is copied from one reading.
- Bundle.Materializer.Materialize: asks that Manifest paths and disk paths be distinct, which reading the Manifest (core/src/acquisition-bundle.ts:330-348) and walking the tree ensure.
- Bundle.InspectBundle: reading each Source's header and Manifest is a parameter, the errors it reports, because it is field by field decoding.
- Bundle.DecodeFiles: the JSON types of the fields and the other members of a bundle manifest.
- HistorySummaries.BuildSummaries: the checks of `createFinding` on the fields of a summary, each of which is built with a Field State.
- PaginatedList.EveryRunShowsPages: a handler and the render it causes are one step, because React runs them so; events after an unmount are replies only.
- Lone surrogates in a view's texts, which become U+FFFD when printed, and the part of the address before the hash.
- Router.ParseOfFormat: `withPage`, which only resets fields, is not part of this model.
- The collectors of Candidate evidence and `normalizeKey`: pattern matching over field names, settled by one reading.
- IdentityCandidates.BuildGroups: asks that one ordinal of a Source be one Manifest entry and that key texts hold no NUL, because two rows with one key would otherwise keep whichever comes last.
- The field values of a Favicon Finding, its signature, and the merge of committed and recovered passes.
- HistorySummaries.GroupedExactly: asks that the visits be of one Profile, as those of one call are, and that a local date hold no NUL, because both are parts of the key.
- `localDateAndHour` is a function parameter; `boundedSortInteger` and search texts of summaries are not part of this model.
- HistorySummaries.UrlGroupsPartition: the key falls back from URL id to URL text to visit id as text, so equal texts of different kinds share a group, as in the code.
- PayloadFiles.PayloadDirectory.WritePayloadFiles: takes SHA-256 as injective on the payloads given, because a name can hold only one of them.
- A failing `mkdir` before the first payload, which writes nothing.
- The JSONL profile, redaction and the Extract's own manifest.

# ContractRadar: proved models

Dafny models of the parts of ContractRadar where a mistake is expensive: the byte writers behind
exported notices, the deadline engine, connector scopes and synchronisation, the rate limiter, the
dispatch of notices, the life cycles of deadlines and uploads, and clause segmentation.  Each model
follows its TypeScript source branch by branch; each main result is a statement about all inputs or
all runs.  To verify the project, run `dafny verify dfyconfig.toml`.

| modules | subject |
|---|---|
| Folds, Slices, Results, Texts | iteration, slices, outcomes, JavaScript strings and UTF-8 |
| CrcDivision, Crc32, Bytes | the CRC-32 loop against polynomial division |
| RecordFields, ZipLayout, ZipReader, ZipStore, ZipDamage | the ZIP writer against a reader with the numbers of APPNOTE.TXT; what the checksums detect |
| PdfSyntax, Escapers, PdfFile, SimplePdf | the escapers and the PDF writer against readers written from ISO 32000-1 and XML 1.0 |
| BusinessCalendar, DeadlineEngine | the calendar loops and `calculateDeadline` |
| ScopeRules, ConnectorSync | globs and scopes, paging and import runs |
| RateLimit | the in-memory fixed-window limiter |
| DispatchDomain, DispatchPreparation, DispatchProtocol, DispatchMeaning, DispatchService | aggregation, attachments, keys; what goes into a snapshot; the dispatch state machine; what its steps mean row by row; the service functions |
| DeadlineLifecycle, DeadlineMeaning, DeadlineService | calculations and tracked deadlines: the state machine, what its steps mean row by row, the service functions |
| StatusTransitions, UploadLifecycle, UploadMeaning, UploadService | the transition tables; sessions, versions, runs and events; what the steps mean row by row; the service functions |
| ClauseSegmentation | the clause-boundary line machine |

Strings are sequences of UTF-16 code units and byte strings sequences of numbers below 256; the CRC
register is a 32-bit word.  A moment is a local day number and a millisecond of the day.  A database
transaction is one step: it commits, or it throws and changes nothing.  Rows are numbered by their
position.  Clocks, storage and provider answers, and what a hash or an external library computes are
inputs.

The main operations are described twice: as the source computes them, and by what they mean, a predicate
over rows, bytes, lines or days that uses none of the operation's own functions and constants.  A lemma
ties the two together.

## Where the code does not do what one would expect

These are results, proved with the exact condition under which the expected statement holds.

- A later trigger can give an earlier deadline when the exact time of day is kept and two days are
  moved to one (`DeadlineEngine.TriggerMonotone`, `DeadlineEngine.LaterTriggerEarlierDeadline`).  Where
  days are adjusted and the guard suffices, only a calendar without a single day off prevents it
  (`DeadlineEngine.MonotoneOnlyWithoutRest`).
- A rule that includes the trigger day takes one day off even when the trigger day is no business
  day.  While the guard of 5000 days does not cut, that makes the deadline a business day early
  (`BusinessCalendar.IncludedTriggerDay`, with the exact condition for any guard): it can fall on a
  Saturday (`DeadlineEngine.DeadlineOnASaturday`).
- Adding business days in two steps differs from one step once the guard of 5000 days cuts in
  (`BusinessCalendar.AddTwice`); the guard of 370 days is safe for 52 holidays and not for 53.
- A fixed window allows up to 2 * limit - 1 calls in a window length, and both bounds are attained.
- A record that fails to import is left behind by the checkpoint and never tried again
  (`ConnectorSync.NothingIsRetried`).  The row of an aborted run is set to FAILED and rolled back
  with the transaction (`ConnectorSync.SyncService.RunSyncForScope`).  A completed run writes its
  position over the reference patterns and the MIME list of a new scope
  (`ConnectorSync.PatternsAreForgotten`, `ConnectorSync.ForgettingDecides`): a PDF-only scope then
  imports HTML pages (`ConnectorSync.HtmlSlipsIn`), and one with approved types compares references
  with media types (`ConnectorSync.PdfIsKeptOut`).
- An acknowledgment can leave an attempt with a status that is not the aggregate of its recipients
  (`DispatchDomain.AcknowledgmentKeepsAgreement`, `DispatchDomain.AcknowledgmentCanDisagree`); the
  readiness report compares the attachments with themselves.
- A recalculation that is blocked leaves a live deadline without a due time that no function of the
  service can move again (`DeadlineLifecycle.StuckInEveryRun`, `DeadlineLifecycle.BlockedRunSticks`).
  After any recalculation the live deadline is on a calculation nobody has verified
  (`DeadlineLifecycle.OnlyRecalculationUnverifies`).
- A completion with a wrong client checksum, or of a duplicate without a decision, leaves an upload
  session VALIDATING.  The service never moves it again, deciding to cancel a duplicate always
  throws, and such sessions use up the quota of their user (`UploadLifecycle.ValidatingArises`,
  `UploadLifecycle.ValidatingForever`, `UploadLifecycle.CancellingSameAgain`,
  `UploadLifecycle.QuotaCanBeUsedUp`).  Content that the worker has not accepted yet is no duplicate
  (`UploadLifecycle.NotYetADuplicate`).
- Text with carriage returns is not read back as it was from PDF literals and XML
  (`Escapers.SafeRoundTrip`, `Escapers.XmlRoundTrip`, `Escapers.CarriageReturnIsLost`).

## Model

| member | source | states |
|---|---|---|
| `Crc32.ComputeCrc32` | packages/notice-drafting/src/export.ts:221-228 | the bitwise register loop computes `Checksum`, the complemented register after all bytes |
| `Crc32.EightBitSteps` | packages/notice-drafting/src/export.ts:225 | the inner loop applies the conditional shift-and-xor step eight times |
| `Crc32.ChecksumIsRemainder` | packages/notice-drafting/src/export.ts:221-228 | the complement of the checksum is the remainder, over GF(2), of the message (low bit first, 32 zeros appended, first 32 bits inverted) divided by the generator polynomial |
| `CrcDivision.FeedDivides` | packages/notice-drafting/src/export.ts:224-225 | clocking bits through the register one after the other is polynomial long division |
| `CrcDivision.FeedInjective` | packages/notice-drafting/src/export.ts:224-225 | the register machine is invertible: equal registers after the same input were equal before |
| `CrcDivision.FeedLinear` | packages/notice-drafting/src/export.ts:224-225 | the register machine is linear in register and input together |
| `Crc32.BurstDetected` | packages/notice-drafting/src/export.ts:221-228 | two messages of equal length that differ only within 32 consecutive bits never have the same checksum |
| `Crc32.FourByteChangeDetected` | packages/notice-drafting/src/export.ts:221-228 | changing up to four consecutive bytes always changes the checksum |
| `Crc32.ResidueIffChecksum` | packages/notice-drafting/src/export.ts:221-228 | running on over four bytes leaves the register at 0xdebb20e3 (APPNOTE.TXT section 4.4.7) exactly when they are the little-endian checksum of the data |
| `Bytes.CrcValueDetects` | packages/notice-drafting/src/export.ts:221-228 | the same detection for the checksum as a number over octets |
| `ZipLayout.WriteUIntLE` | packages/notice-drafting/src/export.ts:238-250 | writes a 16- or 32-bit little-endian field and fails exactly when the number does not fit |
| `ZipLayout.FillHeader` | packages/notice-drafting/src/export.ts:237-271 | a header buffer is the encoding of its field table followed by the name, and fails exactly when a field overflows |
| `ZipLayout.WriteStored` | packages/notice-drafting/src/export.ts:230-286 | the writer succeeds exactly when every size, count and offset fits its field, and then produces local regions, directory and end record in this order |
| `RecordFields.DecodeEncode` | packages/notice-drafting/src/export.ts:237-284 | reading a record by the field widths of the standard gives back every number the writer put there |
| `ZipReader.StoredRoundTrip` | packages/notice-drafting/src/export.ts:230-286 | a reader with the numbers of APPNOTE.TXT sections 4.3.7, 4.3.12 and 4.3.16 reads back exactly the entries written |
| `ZipReader.LocalHeaderAt` | packages/notice-drafting/src/export.ts:237-250 | where the region of entry i starts there are the bytes 50 4B 03 04, version 20, no flags, method 0 and the sizes of the entry, byte by byte, and then its name |
| `ZipReader.CentralHeaderAt` | packages/notice-drafting/src/export.ts:252-271 | likewise 50 4B 01 02 and the fields of directory header i, with the offset of the region |
| `ZipReader.StartIsSigned` | packages/notice-drafting/src/export.ts:237-250 | an archive with an entry starts with 50 4B 03 04 |
| `ZipReader.EndIsSigned` | packages/notice-drafting/src/export.ts:274-284 | its last 22 bytes start with 50 4B 05 06 |
| `ZipReader.Tiling` | packages/notice-drafting/src/export.ts:236-272 | the local regions tile the file from 0 to the directory: each starts where the one before ends and holds its own header, name and data |
| `ZipReader.DirectoryNamesRegions` | packages/notice-drafting/src/export.ts:252-271 | directory header i describes entry i and names the start of its local region |
| `ZipReader.ArchiveLength` | packages/notice-drafting/src/export.ts:274-285 | the file has 22 bytes plus 76 + 2 * name + data for every entry |
| `ZipStore.WriteZip` | packages/notice-drafting/src/export.ts:230-286 | whatever is written is read back by the checksum-verifying reader as the same entries, starts with the bytes 50 4B 03 04 (if there is an entry) and ends in a record that starts with 50 4B 05 06; it fails exactly when a field overflows |
| `ZipStore.RoundTrip` | packages/notice-drafting/src/export.ts:230-286 | reading with checksum verification inverts writing |
| `ZipDamage.DamageIsDetected` | packages/notice-drafting/src/export.ts:236-285 | up to four consecutive bytes of the written file, inside the data of any entry, are overwritten: the file is not read as an archive any more if and only if that changed anything |
| `ZipDamage.DamagedArchive` | packages/notice-drafting/src/export.ts:236-285 | overwriting bytes of the file inside the data of entry k gives exactly the archive of the entries so changed, with the checksums as they were |
| `ZipStore.BuildAttachmentZip` | packages/notice-drafting/src/export.ts:152-159 | rejects exactly the lists with a path that contains "..", starts with "/" or contains a backslash; otherwise the archive reads back as the files |
| `Texts.NormalizeIdentity` | packages/notice-drafting/src/export.ts:84-90 | normalizing line ends changes a text exactly when it has a carriage return |
| `Texts.SplitJoin` | packages/notice-drafting/src/export.ts:91 | splitting a text into lines loses nothing and leaves no separator in a line |
| `Texts.JoinSplit` | packages/notice-drafting/src/export.ts:91 | lines without the separator are recovered from their join |
| `Escapers.SafeIsOnePass` | packages/notice-drafting/src/export.ts:84-90 | the four chained replacements equal one per-character escaping |
| `Escapers.SafeReadsBack` | packages/notice-drafting/src/export.ts:84-93 | a reader written from ISO 32000-1 section 7.3.4.2 takes exactly the escaped text and its closing parenthesis, and gets the sanitized text with normalized line ends |
| `Escapers.SafeRoundTrip` | packages/notice-drafting/src/export.ts:84-90 | it gets the sanitized text itself if and only if there is no carriage return |
| `Escapers.XmlIsOnePass` | packages/notice-drafting/src/export.ts:125-126 | the three chained replacements equal one per-character escaping: the ampersands they write are not escaped again |
| `Escapers.XmlRoundTrip` | packages/notice-drafting/src/export.ts:125-130 | a reader written from XML 1.0 sections 2.4, 2.11 and 4.6 gets the text back with normalized line ends, so unchanged if and only if there is no carriage return |
| `Escapers.CarriageReturnIsLost` | packages/notice-drafting/src/export.ts:84-90 | for instance two lines with CR LF between them: both readers get LF, a text shorter by one |
| `PdfFile.WriteObjects` | packages/notice-drafting/src/export.ts:108-113 | the loop that appends objects collects the byte position of each |
| `PdfFile.WriteFile` | packages/notice-drafting/src/export.ts:108-121 | the file is header, objects, table, trailer, position of the table and end marker |
| `PdfFile.EntryNamesObject` | packages/notice-drafting/src/export.ts:108-119 | for any list of objects with offsets of at most ten digits the reader finds the table by `startxref`, and entry n holds the position of object n |
| `PdfFile.EntryIsTwentyBytes` | packages/notice-drafting/src/export.ts:117 | a table entry has 20 bytes if and only if its offset has at most ten digits |
| `PdfFile.Located` | packages/notice-drafting/src/export.ts:108-121 | from the end of the file alone a reader written from ISO 32000-1 sections 7.5.4 and 7.5.5 reaches object n |
| `PdfFile.RootIsFirst` | packages/notice-drafting/src/export.ts:115-121 | the file starts with its version line, `startxref` holds the position of the table and the trailer names object 1 as root |
| `Texts.PaddedValue` | packages/notice-drafting/src/export.ts:117 | padding a number with zeros does not change its value |
| `SimplePdf.CommandReads` | packages/notice-drafting/src/export.ts:93 | one text command is read back as its height and its sanitized line |
| `SimplePdf.ContentReads` | packages/notice-drafting/src/export.ts:91-94 | the content stream is read back as all lines, in order |
| `SimplePdf.StreamReads` | packages/notice-drafting/src/export.ts:102-104 | `/Length` equals the byte count of the stream: a reader that trusts it (ISO 32000-1 section 7.3.8) gets exactly the stream |
| `SimplePdf.ContentShort` | packages/notice-drafting/src/export.ts:91-95 | because of the cuts to 40 lines and 90 characters the stream has at most 8480 bytes, all ASCII |
| `SimplePdf.EveryObjectIsFound` | packages/notice-drafting/src/export.ts:84-121 | for every title and body all five offsets fit ten digits, every entry has 20 bytes and leads to its own object, and `startxref` leads to the table |
| `SimplePdf.PageReadsBack` | packages/notice-drafting/src/export.ts:84-121 | from the file alone a reader gets exactly the first forty lines, each cut to ninety characters and sanitized, at their heights |
| `SimplePdf.DisplaysAt` | packages/notice-drafting/src/export.ts:91-93 | line k shows at height 750 - 14 k |
| `SimplePdf.BuildSimplePdf` | packages/notice-drafting/src/export.ts:84-121 | the bytes are ASCII; what the reader gets from them has min(40, line feeds of the text + 1) entries, entry k at height 750 - 14 k with at most 90 units of line k as it is printed; the lines joined by LF are title, LF LF and body |
| `SimplePdf.PagePrints` | packages/notice-drafting/src/export.ts:91-93 | the display list shows the lines of title, LF LF and body: how many, at which height, and the unit printed for each unit of a line |
| `SimplePdf.ContentsFound` | packages/notice-drafting/src/export.ts:96-121 | the reader finds the content stream from the trailer over catalog, pages and page, by the tokens of ISO 32000-1 sections 7.3 and 7.7 |
| `BusinessCalendar.AddBusinessDays` | packages/contract-rules/src/deadline-engine.ts:233-243 | the loop stops on the first day by which the wanted number of business days has passed, or 5000 days on if there are too few |
| `BusinessCalendar.AdjustNonWorking` | packages/contract-rules/src/deadline-engine.ts:153-166 | the loop computes `Adjusted` |
| `BusinessCalendar.CalendarSets` | packages/contract-rules/src/deadline-engine.ts:143-151 | how weekend, holidays and special working days decide: a day is a business day in the empty calendar, and what each added weekday, holiday and special day changes |
| `BusinessCalendar.WeekdayFollows` | packages/contract-rules/src/deadline-engine.ts:143-151 | day 0 is a Thursday, and the weekdays follow each other from 1 to 7 |
| `BusinessCalendar.AddIsNth` | packages/contract-rules/src/deadline-engine.ts:233-243 | the day reached is the n-th business day after the start, counted as a set, or the one 5000 days on |
| `BusinessCalendar.AdjustedIsMoved` | packages/contract-rules/src/deadline-engine.ts:153-166 | the adjusted day is the day itself if it is a business day or nothing is adjusted, else the nearest one in the direction, or the one 370 days away |
| `BusinessCalendar.AdvanceIsNth` | packages/contract-rules/src/deadline-engine.ts:233-243 | closed form of adding business days: the least distance that holds them, capped by the guard |
| `BusinessCalendar.AdvanceUnique` | packages/contract-rules/src/deadline-engine.ts:233-243 | the closed form determines the day |
| `BusinessCalendar.SeekIsNearest` | packages/contract-rules/src/deadline-engine.ts:153-166 | closed form of adjusting: the nearest business day in the direction, or exactly the guard away |
| `BusinessCalendar.AddTwice` | packages/contract-rules/src/deadline-engine.ts:233-243 | adding a and then b business days is adding a + b if and only if a or b is zero or 5000 days hold a + b business days |
| `BusinessCalendar.IncludedTriggerDay` | packages/contract-rules/src/deadline-engine.ts:369-400 | taking a day off for an included trigger day counts it as the first business day: on a business day right if and only if the guard holds n - 1 days more, on any other day only if the guard ends just on the (n - 1)th; never later if and only if 4999 days hold n - 1 business days |
| `BusinessCalendar.AddGuardIsSafe` | packages/contract-rules/src/deadline-engine.ts:233-243 | with a working weekday and 7 * (n + holidays) <= 5000 the guard never cuts: exactly n business days are added, and for n > 0 the result is one |
| `BusinessCalendar.AdjustGuardIsSafe` | packages/contract-rules/src/deadline-engine.ts:153-166 | with a working weekday and at most 52 holidays an adjusted day is always a business day, in both directions |
| `BusinessCalendar.AdjustGuardIsTight` | packages/contract-rules/src/deadline-engine.ts:153-166 | with 53 holidays there is a calendar where the search ends after 370 days on a day that is no business day |
| `BusinessCalendar.AddMonotoneInDays` | packages/contract-rules/src/deadline-engine.ts:233-243 | more business days never lead to an earlier day |
| `BusinessCalendar.AddMonotoneInStart` | packages/contract-rules/src/deadline-engine.ts:233-243 | a later start never leads to an earlier day, guard included |
| `BusinessCalendar.AddMonotoneInCalendar` | packages/contract-rules/src/deadline-engine.ts:233-243 | a calendar with fewer business days never leads to an earlier day |
| `BusinessCalendar.AdjustedMonotone` | packages/contract-rules/src/deadline-engine.ts:153-166 | adjusting keeps the order of days |
| `BusinessCalendar.ForwardMonotoneInCalendar` | packages/contract-rules/src/deadline-engine.ts:153-166 | with fewer business days adjusting forward never ends earlier |
| `BusinessCalendar.BackwardMonotoneInCalendar` | packages/contract-rules/src/deadline-engine.ts:153-166 | with fewer business days adjusting backward never ends later |
| `BusinessCalendar.AddCollapse` | packages/contract-rules/src/deadline-engine.ts:233-243 | two successive start days lead to one day if and only if the second is skipped and the guard does not cut |
| `BusinessCalendar.AdjustedTogether` | packages/contract-rules/src/deadline-engine.ts:153-166 | two days, in either direction, are adjusted to one if and only if no business day lies before the later one has been reached and one follows within the guard of the first |
| `DeadlineEngine.ValidateExecutableRule` | packages/contract-rules/src/deadline-engine.ts:168-199 | collects exactly the reasons that apply; there is none if and only if the rule is approved, unambiguous and has the value its unit needs |
| `DeadlineEngine.NoReasonApplies` | packages/contract-rules/src/deadline-engine.ts:178-197 | a rule is executable if and only if no reason applies to it |
| `DeadlineEngine.CountPeriod` | packages/contract-rules/src/deadline-engine.ts:369-456 | the day arithmetic ends on `FinalDay`, with the convention that takes one day off |
| `DeadlineEngine.CalculateDeadline` | packages/contract-rules/src/deadline-engine.ts:245-520 | calculates if and only if rule, calendar, trigger and month roll allow it, and else blocks for exactly the reasons that apply; the deadline lies on the day counted and adjusted, at the first moment of that day for START_OF_DAY, at the last for END_OF_DAY and at the time of the trigger for EXACT_TIMESTAMP; the trace lists exactly the operations taken |
| `DeadlineEngine.DeadlineIs` | packages/contract-rules/src/deadline-engine.ts:360-484 | where the deadline lies: value days, weeks of seven days or business days on, one day less if the trigger day counts, then adjusted; and at which moment of the day |
| `DeadlineEngine.DayBounds` | packages/contract-rules/src/deadline-engine.ts:458-484 | no moment of a day is before millisecond 0 and none after 86399999 |
| `DeadlineEngine.BeforeOnTheClock` | packages/contract-rules/src/deadline-engine.ts:360-484 | the order of moments is that of their milliseconds since day 0 |
| `DeadlineEngine.MendingTakesItsReason` | packages/contract-rules/src/deadline-engine.ts:178-197 | mending one fault of a rule takes away exactly the reason that belongs to it |
| `DeadlineEngine.MilestonesBetween` | packages/contract-rules/src/deadline-engine.ts:487-507 | there is a milestone for exactly the offsets with room, each strictly between trigger and deadline |
| `DeadlineEngine.LongerIsNotEarlier` | packages/contract-rules/src/deadline-engine.ts:360-484 | a longer period never gives an earlier deadline |
| `DeadlineEngine.LaterTriggerIsNotAnEarlierDay` | packages/contract-rules/src/deadline-engine.ts:360-484 | a later trigger never gives an earlier deadline day |
| `DeadlineEngine.TriggerMonotone` | packages/contract-rules/src/deadline-engine.ts:360-484 | a later trigger never gives an earlier moment if and only if the exact time is not kept or the calendar merges no two successive trigger days, said in business days, counts and guards alone |
| `DeadlineEngine.MergesToOneDay` | packages/contract-rules/src/deadline-engine.ts:369-456 | for every unit, months included: two successive trigger days have one final day if and only if the calendar merges them |
| `DeadlineEngine.MonotoneOnlyWithoutRest` | packages/contract-rules/src/deadline-engine.ts:369-484 | for exact times, days or weeks adjusted in either direction, a working weekday and at most 52 holidays: a later trigger never gives an earlier moment if and only if every day is a business day |
| `DeadlineEngine.LaterTriggerEarlierDeadline` | packages/contract-rules/src/deadline-engine.ts:445-484 | a concrete rule and two triggers where the later one has the earlier deadline |
| `DeadlineEngine.FewerBusinessDaysAreNotEarlier` | packages/contract-rules/src/deadline-engine.ts:360-484 | for business-day rules, and unless adjusting backward, a calendar with fewer business days never gives an earlier deadline |
| `DeadlineEngine.FewerBusinessDaysAreNotLater` | packages/contract-rules/src/deadline-engine.ts:360-484 | unless it counts business days or adjusts forward, such a calendar never gives a later one |
| `DeadlineEngine.DeadlineOnASaturday` | packages/contract-rules/src/deadline-engine.ts:369-400 | one business day, trigger day included, triggered on a Saturday: the deadline is the end of that Saturday, under every adjustment, and the first business day would be the Monday |
| `ScopeRules.MatchesPattern` | packages/connectors/src/scope-rules.ts:4-18 | the single greedy scan without backtracking decides exactly the glob `*pattern*` on lower-cased text |
| `ScopeRules.ScanParts` | packages/connectors/src/scope-rules.ts:12-17 | the scan finds the parts if and only if they can be embedded in order without overlap |
| `ScopeRules.MatchesIsEmbedding` | packages/connectors/src/scope-rules.ts:10-17 | backtracking glob matching of `*p*` holds if and only if the non-empty parts between the stars can be embedded in order |
| `ScopeRules.GreedyStep` | packages/connectors/src/scope-rules.ts:14-16 | taking the first occurrence is the best choice (exchange argument) |
| `ScopeRules.MatchesInside` | packages/connectors/src/scope-rules.ts:4-18 | text around a match does not undo it |
| `ScopeRules.MatchesEverything` | packages/connectors/src/scope-rules.ts:7-11 | a pattern matches every text if and only if it holds nothing but stars; so does the empty pattern |
| `ScopeRules.RecordMatchesScope` | packages/connectors/src/scope-rules.ts:101-124 | the checks run in order: the answer is a pass if and only if the record meets patterns, dates, references and types, each stated of the record itself, and else the reason of the first it does not meet |
| `ScopeRules.PassingMeans` | packages/connectors/src/scope-rules.ts:101-124 | that, of the specification: no exclude pattern and some include pattern matches, it was modified within the dates, some reference matches, its type is allowed |
| `ScopeRules.TitleAndBody` | packages/connectors/src/scope-rules.ts:105 | the text that is searched is title, line feed and body, without the line feed if one of them is empty |
| `ScopeRules.BodyAndTitleCount` | packages/connectors/src/scope-rules.ts:101-124 | a pattern that matches the body alone matches, and one that matches the title alone |
| `ScopeRules.IsMimeAllowed` | packages/connectors/src/scope-rules.ts:74-92 | an empty list allows everything; otherwise the type, without parameters and in lower case, must be named or fall under an entry for all subtypes |
| `ScopeRules.AllowedByMeans` | packages/connectors/src/scope-rules.ts:74-92 | an entry that ends in a slash and a star admits exactly the types that start with what is before the star; any other admits only itself |
| `ScopeRules.ExcludingNeverAdmits` | packages/connectors/src/scope-rules.ts:26-34 | with exclude patterns added a record passes if and only if it passed before and none of them matches |
| `ScopeRules.IncludingNeverRejects` | packages/connectors/src/scope-rules.ts:26-34 | adding to a non-empty include list never rejects a record |
| `ScopeRules.StarExcludesEverything` | packages/connectors/src/scope-rules.ts:31 | an exclude pattern of stars only, or an empty one, keeps every record out |
| `ConnectorSync.FakeProvider.ListChangedRecords` | packages/connectors/src/providers.ts:124-147 | returns the next two records from the checkpoint and moves the cursor behind them |
| `ConnectorSync.SyncService.ExecuteSyncRun` | apps/web/src/server/services/connectors.ts:264-395 | imported is the number of records visited that were in scope, importable and without a row, and of documents added; failed, skipped and duplicates are the numbers of those that failed, were absent or out of scope, or had a row; SUCCEEDED exactly if none failed, PARTIALLY_SUCCEEDED exactly if one failed and one was imported |
| `ConnectorSync.SyncService.RunSyncForScope` | apps/web/src/server/services/connectors.ts:241-262 | runs exactly for an active import-only scope; what it reports is counted from the records visited, as many documents are added as it reports imported, and the stored row is the one reported; an aborted run changes nothing |
| `ConnectorSync.RunAccountsForAll` | apps/web/src/server/services/connectors.ts:264-388 | a completed run visits every record from the checkpoint on exactly once, in order, and counts each once; an aborted run stops at the record whose metadata could not be read |
| `ConnectorSync.RunReports` | apps/web/src/server/services/connectors.ts:264-395 | over a whole run each counter is the number of the records it stands for, said of the records and the rows before the run |
| `ConnectorSync.ResultReports` | apps/web/src/server/services/connectors.ts:375-392 | the result tells those counts, and its status follows from them |
| `ConnectorSync.NeverImportedTwice` | apps/web/src/server/services/connectors.ts:302-390 | over any number of runs of any scopes no key is imported twice |
| `ConnectorSync.RunsKeepConsistent` | apps/web/src/server/services/connectors.ts:338-390 | documents and external-record rows stay in one-to-one correspondence, and imported documents stay |
| `ConnectorSync.OneRowPerCompletedRun` | apps/web/src/server/services/connectors.ts:241-395 | over any runs there is one row for each completed run, with the status its counters stand for, and the imported counts of all rows add up to the number of documents |
| `ConnectorSync.NewDocumentsAreInScope` | apps/web/src/server/services/connectors.ts:274-383 | every new document is of a record behind the checkpoint that is in scope and could be imported |
| `ConnectorSync.NothingOutOfScopeIsImported` | apps/web/src/server/services/connectors.ts:285-300 | what a run imports passes `ScopeRules.Decide` under the rules read from its scope |
| `ConnectorSync.PatternsAreForgotten` | apps/web/src/server/services/connectors.ts:60-77 | a completed run writes its position over the patterns of a new scope: the approved types stand in for the references and the MIME list is empty; the rules stay the same if and only if they were that before |
| `ConnectorSync.ForgettingDecides` | apps/web/src/server/services/connectors.ts:60-77 | for exactly which records the decision turns round: those whose references match an approved type (or none is approved) and that the own patterns reject, and the other way round |
| `ConnectorSync.NextRunImports` | apps/web/src/server/services/connectors.ts:264-395 | a record added to the list and new to the scope is imported by the next run if and only if it passes the later rules |
| `ConnectorSync.HtmlSlipsIn` | apps/web/src/server/services/connectors.ts:80-92 | a scope for PDF files only keeps an HTML page out, but imports it if it comes up after a run over an empty list |
| `ConnectorSync.PdfIsKeptOut` | apps/web/src/server/services/connectors.ts:80-92 | a scope with PDF as approved type imports a PDF file without references, but not after such a run |
| `ConnectorSync.CheckpointLeavesBehind` | apps/web/src/server/services/connectors.ts:381-395 | the run after a completed one visits only records added since |
| `ConnectorSync.NothingIsRetried` | apps/web/src/server/services/connectors.ts:314-381 | over the same list it changes nothing: what failed or was skipped is never tried again |
| `RateLimit.Limiter.LimitWithMemory` | apps/web/src/server/auth/rate-limit.ts:67-81 | one call changes the bucket of its key alone: it opens a window of that length or counts as one more call of the open one; it is allowed as one of the first `limit` calls, and told how many more would be and the least number of seconds until the window is over |
| `RateLimit.KeysAreIndependent` | apps/web/src/server/auth/rate-limit.ts:67-81 | over any run the bucket of a key depends on the calls of that key alone |
| `RateLimit.SlidingBoundOfRun` | apps/web/src/server/auth/rate-limit.ts:67-81 | in any run over any keys, with non-decreasing times, at most 2 * limit - 1 calls of a key are allowed in an interval of one window length, and 2 * limit if both ends count |
| `RateLimit.WindowBound` | apps/web/src/server/auth/rate-limit.ts:70-80 | at most limit calls are allowed within an opened window |
| `RateLimit.DeniedWhenUsedUp` | apps/web/src/server/auth/rate-limit.ts:67-81 | a call is denied if and only if the window open then has allowed `limit` calls already |
| `RateLimit.BoundIsAttained` | apps/web/src/server/auth/rate-limit.ts:67-81 | 2 * limit - 1 is attained, for every limit and window |
| `RateLimit.ClosedBoundIsAttained` | apps/web/src/server/auth/rate-limit.ts:67-81 | 2 * limit is attained with both ends |
| `RateLimit.RetryAfterIsEnough` | apps/web/src/server/auth/rate-limit.ts:75-80 | a denied caller who waits as told, with no other call on the key, is allowed |
| `RateLimit.RetryAfterIsNeeded` | apps/web/src/server/auth/rate-limit.ts:75-80 | a whole second less is too early |
| `RateLimit.RemainingIsExact` | apps/web/src/server/auth/rate-limit.ts:72-79 | exactly the announced number of further calls is allowed within the window |
| `DispatchDomain.AggregateOfSet` | packages/notice-delivery/src/domain.ts:27-61 | the aggregate depends only on the set of statuses |
| `DispatchDomain.FailureIsNeverHidden` | packages/notice-delivery/src/domain.ts:27-61 | with an unsuccessful recipient the result is FAILED if no other kind is present, else PARTIALLY_DELIVERED if some recipient was reached, else DELIVERY_PENDING |
| `DispatchDomain.DeliveredMeansAll` | packages/notice-delivery/src/domain.ts:29-46 | DELIVERED, SENT and FAILED each mean what they say of all recipients |
| `DispatchDomain.LooksWell` | packages/notice-delivery/src/domain.ts:27-61 | over the set of statuses that occur: DELIVERED exactly if there is one and all are delivered, acknowledged or confirmed; SENT exactly if one is sent and none is worse |
| `DispatchDomain.LooksIll` | packages/notice-delivery/src/domain.ts:27-61 | FAILED exactly if none is other than failed, bounced or rejected; PARTIALLY_DELIVERED exactly if some were reached and some not |
| `DispatchDomain.LooksEven` | packages/notice-delivery/src/domain.ts:27-61 | SUBMITTED and PREPARED exactly if that is the only status |
| `DispatchDomain.AcknowledgmentKeepsAgreement` | apps/web/src/server/services/notice-delivery.ts:1186-1191 | after an acknowledgment the stored attempt status is still the aggregate if and only if a condition on the other recipients holds |
| `DispatchDomain.AcknowledgmentCanDisagree` | apps/web/src/server/services/notice-delivery.ts:1186-1191 | a concrete attempt that stays PARTIALLY_DELIVERED although the aggregate is SENT |
| `DispatchDomain.ValidateAttachmentChecksums` | packages/notice-delivery/src/domain.ts:158-173 | accepts exactly when the counts agree and each expected entry is the last with its id; else the error is the first thing that is wrong: the count, a missing id, a checksum or a file name |
| `DispatchDomain.AcceptsPermutations` | packages/notice-delivery/src/domain.ts:158-173 | with distinct expected ids it accepts exactly the permutations of what is expected |
| `DispatchDomain.DistinctIdsAreNeeded` | packages/notice-delivery/src/domain.ts:158-173 | accepting means "a permutation", for all attachments, if and only if the expected ids are distinct |
| `DispatchDomain.SelfComparisonAccepts` | apps/web/src/server/services/notice-delivery.ts:709-711 | the readiness report compares a list with itself, which accepts it if and only if entries with the same id are equal |
| `DispatchDomain.SortCanonical` | packages/notice-delivery/src/domain.ts:69 | two recipient lists sort to the same list if and only if they are permutations of each other |
| `DispatchDomain.KeyIdentifies` | packages/notice-delivery/src/domain.ts:63-73 | for ids without separators and an injective hash two keys are equal if and only if authorization, channel, attempt number and multiset of recipients are |
| `DispatchDomain.KeyReads` | packages/notice-delivery/src/domain.ts:63-73 | the text that is hashed is read back: authorization, channel, attempt in decimal and the recipients in order, separated by bars and commas |
| `DispatchDomain.OrderIsLexicographic` | packages/notice-delivery/src/domain.ts:69 | that order is the one of the first code unit that differs, a prefix first |
| `DispatchProtocol.RunsAreSafe` | apps/web/src/server/services/notice-delivery.ts:327-1053 | every run of steps in any interleaving keeps the tables safe |
| `DispatchProtocol.StepSafe` | apps/web/src/server/services/notice-delivery.ts:327-1053 | every committed step keeps them safe |
| `DispatchProtocol.SnapshotsStay` | apps/web/src/server/services/notice-delivery.ts:377-424 | no step of any run changes or drops a snapshot |
| `DispatchProtocol.EveryAttemptWasAuthorized` | apps/web/src/server/services/notice-delivery.ts:508-1053 | every attempt is the only one of its authorization, which was granted with all six reviews by someone other than requester and snapshot creator where that is enforced, is on an operational channel of the right kind, and had not expired; one made by hand has exactly the recipients of its snapshot |
| `DispatchProtocol.OneAttemptExactlyIfUsed` | apps/web/src/server/services/notice-delivery.ts:789-1024 | an authorization has one attempt if it is USED and none otherwise, e-mail and manual together |
| `DispatchProtocol.RunsAgree` | apps/web/src/server/services/notice-delivery.ts:841-894 | in every run without acknowledgments each sent attempt has the aggregate of its recipients as its status |
| `DispatchProtocol.StepsAgree` | apps/web/src/server/services/notice-delivery.ts:1506-1541 | sending and webhook events keep that agreement |
| `DispatchProtocol.AcknowledgmentAgrees` | apps/web/src/server/services/notice-delivery.ts:1150-1207 | an acknowledgment keeps it if and only if the attempt is manual or the other recipients leave the aggregate where it was |
| `DispatchProtocol.PackageAfterSending` | apps/web/src/server/services/notice-delivery.ts:841-894 | after sending, recipient i has the status that reply i names, and the package shows them: confirmed, failed, partial or sent, each with its exact condition |
| `DispatchProtocol.PackageAfterEvent` | apps/web/src/server/services/notice-delivery.ts:1506-1541 | after a new event the first recipient of each reported preparation has the last status reported for it, all others keep theirs, and the package shows the recipients |
| `DispatchProtocol.EventUpdates` | apps/web/src/server/services/notice-delivery.ts:1506-1524 | what the loop over the reports does to the recipients, for any reports |
| `DispatchProtocol.OperationalMeans` | packages/notice-delivery/src/domain.ts:14-25 | a channel can be used if and only if it is a manual one or the controlled e-mail |
| `DispatchProtocol.RedeliveryChangesNothing` | apps/web/src/server/services/notice-delivery.ts:1486-1494 | however much happens in between, an event with a recorded id changes nothing |
| `DispatchProtocol.FinalStatesStay` | apps/web/src/server/services/notice-delivery.ts:592-685 | rejected, revoked and used authorizations are never changed |
| `DispatchProtocol.ClosedStaysClosed` | apps/web/src/server/services/notice-delivery.ts:592-685 | over any run nothing is ever sent under a rejected or revoked authorization, which stays as it is |
| `DispatchProtocol.GrantsStay` | apps/web/src/server/services/notice-delivery.ts:552-569 | who granted an authorization, under which reviews and until when, is never changed afterwards |
| `DispatchProtocol.GrantsStayInRuns` | apps/web/src/server/services/notice-delivery.ts:552-685 | over whole runs a granted authorization changes only its status |
| `DispatchProtocol.NothingAfterExpiry` | apps/web/src/server/services/notice-delivery.ts:743-1053 | once an authorization is granted until e, no send and no manual record under it commits after e, whatever happens in between |
| `DispatchProtocol.MapProviderStatus` | apps/web/src/server/services/notice-delivery.ts:280-297 | each of the eight kinds a provider knows is stored unchanged and everything else as UNKNOWN, so a provider can never acknowledge or confirm |
| `DispatchMeaning.PrepareMeans` | apps/web/src/server/services/notice-delivery.ts:327-444 | when a package can be prepared, in terms of the notice, its bundles and its preparations |
| `DispatchMeaning.SnapshotMeans` | apps/web/src/server/services/notice-delivery.ts:327-444 | what the snapshot then holds |
| `DispatchMeaning.DecisionsMean` | apps/web/src/server/services/notice-delivery.ts:508-685 | when an authorization can be granted, rejected or revoked |
| `DispatchMeaning.UsesMean` | apps/web/src/server/services/notice-delivery.ts:743-1053 | when a package can be sent or recorded by hand: the authorization is of this package, granted and unused, not expired, and its channel fits |
| `DispatchMeaning.EventMeans` | apps/web/src/server/services/notice-delivery.ts:1450-1544 | what an event changes: the attempt of its message, the package, the list of events, and nothing else |
| `DispatchPreparation.BuildRecipientSnapshots` | apps/web/src/server/services/notice-delivery.ts:203-239 | the verified preparations, those required and those copied, in order |
| `DispatchPreparation.EveryVerifiedIsIncluded` | apps/web/src/server/services/notice-delivery.ts:203-239 | the recipients are exactly the verified preparations, each as often as it was prepared |
| `DispatchPreparation.ValidateRecipientsForDispatch` | packages/notice-delivery/src/domain.ts:142-156 | passes if and only if there is a required recipient and each has a name, a contact and a method; otherwise the reason is the first thing missing of the first one at fault |
| `DispatchPreparation.CompleteMeans` | apps/web/src/server/services/notice-delivery.ts:203-239 | in terms of the preparations: some verified one is not just copied, and all such can be reached |
| `DispatchPreparation.PreparedIff` | apps/web/src/server/services/notice-delivery.ts:327-400 | when a draft can be made a snapshot, field by field |
| `DispatchPreparation.SpacesAre` | apps/web/src/server/services/notice-delivery.ts:203-239 | the code units that count as white space, listed |
| `DispatchPreparation.BestIsSelected` | apps/web/src/server/services/notice-delivery.ts:256-268 | the three searches find the first bundle of the best format for the revision, and nothing if and only if there is none |
| `DispatchPreparation.SelectedIsBest` | apps/web/src/server/services/notice-delivery.ts:256-268 | and what they find is such a bundle |
| `DispatchService.Service.CreateDispatchPackageSnapshot` | apps/web/src/server/services/notice-delivery.ts:327-444 | the snapshot names the active approved revision, a bundle of that revision, and the verified recipients, each as often as prepared; some is required and all required ones can be reached; otherwise nothing changes |
| `DispatchService.Service.RequestDispatchAuthorization` | apps/web/src/server/services/notice-delivery.ts:446-506 | a new authorization for a snapshot of the package, with nothing reviewed, granted or sent |
| `DispatchService.Service.AuthorizeDispatch` | apps/web/src/server/services/notice-delivery.ts:508-590 | the authorization is then ready for use: reviewed in all points, by somebody who may, with no attempt under it |
| `DispatchService.Service.RejectDispatchAuthorization` | apps/web/src/server/services/notice-delivery.ts:592-640 | the authorization is then rejected and final, with no attempt under it |
| `DispatchService.Service.RevokeDispatchAuthorization` | apps/web/src/server/services/notice-delivery.ts:642-685 | the authorization is then revoked and final, with no attempt under it |
| `DispatchService.Service.SendApprovedNoticeEmail` | apps/web/src/server/services/notice-delivery.ts:743-917 | the authorization was ready for use and not expired and had no attempt, now it has one; the attempt agrees with its recipients, and the package shows whether all or none were delivered |
| `DispatchService.Service.RecordManualDispatch` | apps/web/src/server/services/notice-delivery.ts:919-1053 | the authorization was ready for use and not expired and had no attempt, now it has one, to exactly the recipients of its snapshot |
| `DispatchService.Service.ProcessDeliveryWebhook` | apps/web/src/server/services/notice-delivery.ts:1450-1544 | a recorded event changes nothing and is reported as a duplicate; a new one is recorded; attempts that agreed with their recipients still do, and there are no more of them |
| `DispatchService.Service.RecordAcknowledgment` | apps/web/src/server/services/notice-delivery.ts:1150-1207 | the recipient is acknowledged; the attempts still agree if and only if this one is manual or the others leave the aggregate where it was |
| `DeadlineLifecycle.RunsAreSafe` | apps/web/src/server/services/deadlines.ts:801-1131 | every run of calculate, verify, track and recalculate steps keeps the tables safe |
| `DeadlineLifecycle.LiveDeadlines` | apps/web/src/server/services/deadlines.ts:801-983 | at most one live deadline per calculation, none on a superseded calculation, and each is due when its calculation says |
| `DeadlineLifecycle.SupersessionIsOrderly` | apps/web/src/server/services/deadlines.ts:902-918 | a calculation is superseded at most once, by a strictly higher version of the same event and assessment, and then marked |
| `DeadlineLifecycle.ChainsEndLive` | apps/web/src/server/services/deadlines.ts:944-950 | following the successors of any deadline ends at a live one after finitely many steps |
| `DeadlineLifecycle.LiveDeadlinesAreConserved` | apps/web/src/server/services/deadlines.ts:875-983 | recalculating keeps the number of live deadlines; only tracking adds one |
| `DeadlineLifecycle.NoDeadlineIsLost` | apps/web/src/server/services/deadlines.ts:801-983 | after any run there are as many live deadlines as were tracked |
| `DeadlineLifecycle.BlockedRecalculationSticks` | apps/web/src/server/services/deadlines.ts:902-942 | recalculating a tracked calculation with a blocked result leaves a live deadline without a due time on the blocked calculation |
| `DeadlineLifecycle.StuckArises` | apps/web/src/server/services/deadlines.ts:875-983 | that is the only way such a deadline arises |
| `DeadlineLifecycle.StuckInEveryRun` | apps/web/src/server/services/deadlines.ts:752-900 | no later run of the service ever moves it |
| `DeadlineLifecycle.BlockedRunSticks` | apps/web/src/server/services/deadlines.ts:711-983 | from empty tables: calculate, verify by another user, track, recalculate with a blocked result, and the live deadline is stuck whatever follows |
| `DeadlineLifecycle.StuckHasNoDueTime` | apps/web/src/server/services/deadlines.ts:925-942 | the live deadlines without a due time are exactly the stuck ones |
| `DeadlineLifecycle.OnlyRecalculationUnverifies` | apps/web/src/server/services/deadlines.ts:801-950 | live deadlines stay on verified calculations if and only if the step does not recalculate a tracked one |
| `DeadlineLifecycle.RecalculationHandsOver` | apps/web/src/server/services/deadlines.ts:918-950 | after recalculating, the prior calculation has no live deadline and the new one has one if the prior had |
| `DeadlineMeaning.StepMeans` | apps/web/src/server/services/deadlines.ts:711-1093 | when each operation commits, and which rows are different then |
| `DeadlineMeaning.RunsNumberVersions` | apps/web/src/server/services/deadlines.ts:1048-1052 | over every run the calculations for an event and an assessment are numbered 1, 2, 3 and so on |
| `DeadlineService.Service.CalculateEventDeadline` | apps/web/src/server/services/deadlines.ts:711-750 | there is one new calculation, the next version for its event and assessment, to be reviewed if it has a due time and blocked if not; nothing else changes |
| `DeadlineService.Service.VerifyDeadlineCalculation` | apps/web/src/server/services/deadlines.ts:752-799 | verified exactly if it was to be reviewed or calculated and, with segregation of duties, by somebody else; it has a due time, and only its status changes |
| `DeadlineService.Service.CreateTrackedDeadline` | apps/web/src/server/services/deadlines.ts:801-873 | tracked exactly if the calculation is verified and has no open deadline; it has exactly one then, due when it says, and there is one live deadline more |
| `DeadlineService.Service.RecalculateDeadline` | apps/web/src/server/services/deadlines.ts:875-983 | exactly for a verified or reviewable calculation: it is superseded by the next version, its open deadline, if any, by one for that version with its due time, and nothing else changes; no live deadline is lost |
| `StatusTransitions.AtMostFourMoves` | apps/web/src/server/documents/status-transitions.ts:3-13 | along the table a session makes at most four moves, and none from a terminal status |
| `StatusTransitions.OneWayToAcceptance` | apps/web/src/server/documents/status-transitions.ts:3-13 | the table has one way from INITIATED to ACCEPTED, over authorized, uploaded and validating |
| `StatusTransitions.TerminalMeans` | apps/web/src/server/documents/status-transitions.ts:3-13 | a status is terminal if and only if no move leads out of it |
| `StatusTransitions.EveryDocumentCanBeArchived` | apps/web/src/server/documents/status-transitions.ts:15-26 | from every document status the table leads to ARCHIVED, which alone is final |
| `UploadLifecycle.SessionsFollowTheTable` | apps/web/src/server/services/documents.ts:402-678 | every status a step writes to a session follows an edge of the table |
| `UploadLifecycle.SessionsMoveAtMostFourTimes` | apps/web/src/server/services/documents.ts:340-781 | so over any run a session makes at most four moves and terminal statuses are final |
| `UploadLifecycle.DocumentsFollowTheTable` | apps/web/src/server/services/documents.ts:629-640 | the service moves documents along their table too |
| `UploadLifecycle.RunsAreSafe` | apps/web/src/server/services/documents.ts:159-958 | every run keeps the tables safe, whatever the worker does |
| `UploadLifecycle.EveryRunHasItsEvent` | apps/web/src/server/queue/outbox.ts:4-32 | every processing run has exactly one outbox event, with its id and its version |
| `UploadLifecycle.AcceptedNamesItsVersion` | apps/web/src/server/services/documents.ts:670-678 | a session is ACCEPTED if and only if it names a version, and no two name the same |
| `UploadLifecycle.CompletingAgainChangesNothing` | apps/web/src/server/services/documents.ts:387-401 | completing an accepted session again creates nothing |
| `UploadLifecycle.ValidatingArises` | apps/web/src/server/services/documents.ts:419-592 | which completions commit a session that is left VALIDATING: exactly a wrong client checksum on an otherwise good upload, and a duplicate of the same project without a decision |
| `UploadLifecycle.EmptyUploadsAreRejected` | apps/web/src/server/services/documents.ts:450-467 | what is stored with no bytes is rejected for its size: the branch for empty files behind that check is never reached |
| `UploadLifecycle.ValidatingForever` | apps/web/src/server/services/documents.ts:402-424 | no later run of the service moves such a session |
| `UploadLifecycle.CancellingDuplicatesFails` | apps/web/src/server/services/documents.ts:553-556 | completing a duplicate of the same project with the decision to cancel never succeeds |
| `UploadLifecycle.CancellingSameAgain` | apps/web/src/server/services/documents.ts:535-570 | from empty tables: a byte is uploaded, accepted by the worker and uploaded again; the second passes all checks, cancelling it as a duplicate fails, and its session stays open |
| `UploadLifecycle.NotYetADuplicate` | apps/web/src/server/services/documents.ts:535-570 | before the worker has accepted the first, the second is no duplicate and is accepted under every decision |
| `UploadLifecycle.OtherProjectsDoNotCount` | apps/web/src/server/services/documents.ts:535-544 | whether there is a duplicate depends only on the versions of the project itself |
| `UploadLifecycle.SameContentElsewhereIsAccepted` | apps/web/src/server/services/documents.ts:535-592 | content that is accepted in other projects only is accepted, whatever the decision about duplicates |
| `UploadLifecycle.QuotaIsUsedUp` | apps/web/src/server/services/documents.ts:191-211 | a user with as many sessions left validating as the limit can never start an upload again |
| `UploadLifecycle.WrongUploadsStay` | apps/web/src/server/services/documents.ts:419-511 | from empty tables: n uploads of one byte, each completed with a wrong client checksum, leave n sessions VALIDATING |
| `UploadLifecycle.QuotaCanBeUsedUp` | apps/web/src/server/services/documents.ts:191-211 | from empty tables: as many of them as a user may have, and no request of that user is ever admitted again |
| `UploadLifecycle.RunsKeepQuota` | apps/web/src/server/services/documents.ts:191-211 | over every run no user and no project has more active sessions than the limits allow |
| `UploadMeaning.StartingMeans` | apps/web/src/server/services/documents.ts:191-296 | starting an upload leaves one session, open until now + 1000 * ttl, and its document, exactly if quotas, rate, project and file allow it and the key is new; else nothing |
| `UploadMeaning.ExpiresAfterItsTime` | apps/web/src/server/services/documents.ts:269-413 | over any later run: completing a session is answered with EXPIRED if and only if that is after now + 1000 * ttl of its start and the session is still open |
| `UploadMeaning.ActiveCanMove` | apps/web/src/server/services/documents.ts:191-211 | the statuses counted as active are those with a way out of them |
| `UploadMeaning.AnswersMean` | apps/web/src/server/services/documents.ts:375-737 | when each answer of a completion is given, in terms of the row, the stored object and the digests |
| `UploadMeaning.CompletingMeans` | apps/web/src/server/services/documents.ts:375-737 | and which rows are different then |
| `UploadMeaning.RetryingMeans` | apps/web/src/server/services/documents.ts:896-958 | when a retry is possible, and which rows it changes |
| `UploadMeaning.RunsNumberVersions` | apps/web/src/server/services/documents.ts:600-606 | over every run the versions of a document are numbered 1, 2, 3 and so on |
| `UploadService.Service.InitiateDocumentUpload` | apps/web/src/server/services/documents.ts:159-338 | a session is returned exactly if project, rate, file and quotas allow it and the key is new or its session still open; a new one expires at now + 1000 * ttl, and nothing else changes |
| `UploadService.Service.CompleteDocumentUpload` | apps/web/src/server/services/documents.ts:340-737 | each answer exactly when the row, the object and the digests call for it; the statuses written follow the table; exactly an accepted upload gets the next version of its document, one run and its event, and only the named rows change |
| `UploadService.Service.ValidateUpload` | apps/web/src/server/services/documents.ts:466-737 | the checks behind the size check, the duplicate search within the project, the decisions and the acceptance |
| `UploadService.Service.CancelDocumentUpload` | apps/web/src/server/services/documents.ts:739-781 | cancels exactly a session that waits for its upload; positive if and only if the session is accepted, cancelled, expired or rejected then |
| `UploadService.Service.RetryDocumentProcessing` | apps/web/src/server/services/documents.ts:896-958 | exactly for a clean current version whose processing failed, wholly or in part: it is queued again with the next numbered run and its event, its document is in processing, and nothing else changes |
| `UploadService.Service.ArchiveDocument` | apps/web/src/server/services/documents.ts:841-868 | archives exactly a settled document and changes nothing else; positive if and only if it is archived then |
| `UploadService.Service.ImportRecordAsDocument` | apps/web/src/server/services/connectors.ts:134-239 | a document in quarantine with version 1, one run and its event, and nothing else |
| `ClauseSegmentation.Extract` | apps/web/src/server/contracts/structure-extract.ts:21-71 | buffer and flush produce one candidate for each segment, said of the text itself: it is lines with breaks between them; those not blank are kept, without white space at their ends; a segment starts with the first and with every clause line; its candidate has number, heading and its lines separated by line feeds |
| `ClauseSegmentation.ExtractionMeans` | apps/web/src/server/contracts/structure-extract.ts:21-71 | that, of the specification |
| `ClauseSegmentation.TrimMeans` | apps/web/src/server/contracts/structure-extract.ts:51 | trimming takes away white space at both ends, all of it and nothing else |
| `ClauseSegmentation.Flush` | apps/web/src/server/contracts/structure-extract.ts:27-47 | a buffer with good lines always becomes a candidate, whose text the trimming leaves alone |
| `ClauseSegmentation.CapturesHeadings` | apps/web/src/server/contracts/structure-extract.ts:18-19 | an expression whose last group is the non-empty rest of the line captures headings that are not blank and hold no line feed, on the trimmed lines the program matches |
| `ClauseSegmentation.NothingIsLost` | apps/web/src/server/contracts/structure-extract.ts:21-71 | splitting the source texts and concatenating gives every non-blank trimmed line once and in order, headings in place of clause lines |
| `ClauseSegmentation.CandidateNumbers` | apps/web/src/server/contracts/structure-extract.ts:31-36 | sequence numbers are 1 to n, and n is the number of clause lines plus one if the first non-blank line is none |
| `ClauseSegmentation.OnlyTheFirstIsUnnumbered` | apps/web/src/server/contracts/structure-extract.ts:53-67 | only the first candidate can lack a number, and a numbered one starts with its heading |

## Left out

- The ZIP reader is for archives without ZIP64, encryption, extra fields and comments, as the writer makes them; names are bytes, so the missing UTF-8 flag is not seen.
- The PDF reader accepts the operator sequence of the writer, not every content stream; the look of the page is not modelled.
- The DOCX parts around the escaped paragraphs, and whether a character is allowed in XML at all, are not modelled.
- Lower-casing, white space, the clause-line expression and the detection of project references are parameters.
- Durations are whole numbers; what the date library does with fractions, time zones, daylight saving and month lengths is not modelled, and the month step is a parameter that the monotonicity lemmas take to be monotone.
- The schemas that parse inputs are not modelled: a model starts from well-typed inputs, and a parse failure of `calculateDeadline` is not a branch.
- Milestone rows, audit logs, ingestion events, history rows, titles, labels and other fields that decide nothing are left out of the tables.
- Normalized clause numbers, levels, confidences and checksums of clause candidates are left out.
- The Redis limiter, storage, malware scanning, SHA-256 and HMAC are not modelled; where a hash must be injective, that is an assumption of the lemma.
- `LocalFixtureConnectorProvider` is the one-page case of the paging provider and is left out.
- A checkpoint field that holds neither patterns nor a position (set outside the service) is not modelled, nor are scopes that change during a run.
- One tenant is modelled: every query of the source is restricted to the tenant of its caller.
- Capability checks and the rate limit in front of a completion throw before anything is read; they are not steps.
- The rules for the text of a cover message are one input of `CreateSnapshot`.
- Partial rows of an import that throws inside a run are not modelled; the import either happens or leaves nothing.
- Two transactions racing on one row are not modelled; steps are atomic.
- A provider that accepts a message whose transaction then fails is not modelled; a thrown send changes nothing.
- The environment switch for segregation of duties is fixed in a run.
- The reconciliation script, run by hand, writes EXPIRED to stuck sessions outside the transition table; it is not a step of the model.
- Receipt assessment, delivery risk, retry classes, contracts, notices, alerts, dashboards and capability tables would add only finite case tables.

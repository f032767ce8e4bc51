# Wayfort: a verified model of its bastion core

Wayfort is a bastion: it approves, routes, filters and records privileged access. This project
models the parts of it whose correctness spans several operations, and proves their properties in
Dafny. `dafny verify dfyconfig.toml` checks everything.

| file | what it models |
|---|---|
| `Bytes`, `Seqs`, `Strings`, `Decimals`, `Results` | byte strings, concatenation facts, the string library operations the source uses |
| `HashChain`, `Ledger`, `Tamper` | the hash-chained approval ledger, and where an edited table shows |
| `RequestLocks`, `AppendProtocol` | the reference-counted per-request lock and concurrent appends under it |
| `Archiver` | the batching ledger archiver |
| `SqlScan`, `SqlStrip`, `SqlSplit`, `SqlAgree`, `Keywords` | the hand-written SQL scanners |
| `SqlWords`, `SqlSpelling` | what the keyword search finds through the scan |
| `Quoting`, `Csv`, `SqlExport`, `SqlFile` | table export, and what the scanners make of it |
| `SqlRead`, `SqlRows` | a reader for exported SQL rows, and the row writer proved against it |
| `Glob`, `AccessRules` | column patterns and the access-rule engine |
| `Frames`, `Tunnel`, `Handshake`, `Registry`, `TunnelHandlers` | the reverse-agent tunnel |
| `FlagCache`, `Debounce` | the enforcement flag cache and the alert debounce |
| `Directory`, `FolderStore` | the pruned folder forest, and the stored paths it relies on |

How to read it:

- Code that computes is a function; code that changes state is a class or a method with loops,
  proved against a function or a predicate about which the lemmas then speak.
- Concurrency is a machine that takes one atomic step at a time. `Enabled` and `Apply` give its
  steps, `IsRun` its runs, and the theorems hold for every run and every state in it.
- SHA-256 is an arbitrary function `sha`. No injectivity is assumed: where a claim needs collision
  resistance, it says that otherwise two strings hashed in the chains at hand collide (`Collide`
  names strings of exactly those two chains).
- Text in the SQL scanners is a string whose characters stand for bytes.

Where the code differs from its comments, or from what they lead one to expect, the model follows the
code:

- The ledger's header comment describes a hash over `PrevHash` and a JSON document; the code hashes
  a length-prefixed layout (`internal/approval/ledger.go:59-63` and `111-127`). The length prefix is
  cut to 32 bits, so the encoding is unambiguous only for shorter fields (`DigestInjectiveExactly`).
- The archiver's batch size is described as the maximum per object; it is only the level at which a
  flush starts (`internal/approval/archiver_s3.go:59-61` and `176-178`; `OversizedObject`,
  `ObjectSizeExactly`). A timer that fires on an empty buffer stays set, and a failed upload arms none,
  so events can wait although the comment promises the timer (`TimerLiveExactly`).
- An already expired deadline travels to the agent as zero, which the agent takes for none
  (`ExpiredDeadlineGetsDefault`).
- A block comment may be closed by the slash right after its opening for `normaliseSQLForKeywordScan`
  and `stripLeadingSQLComments`, but not for `hasMultipleStatements` (`ScannersAgreeExactly`). That the
  latter has no doubled-quote escape inside double quotes and backticks makes no difference.
- White space between comments is four characters, and six at the ends of what is left: a vertical tab
  in front of a comment counts as text (`WhiteSpaceExactly`).
- A failed grantee lookup is tried again at the next rule, so a resolver that fails and then recovers
  makes a decision that resolving up front never makes (`FlakyLookupDecidesDifferently`).
- Neither the comment line nor the rows of a SQL export escape the table's name (`FileCountExactly`).
- `Unregister` goes by agent id alone, so a stale connection's handler removes a newer tunnel
  (`NewestRegisteredExactly`).
- The debounce reads the clock before it takes its lock. A call that waits there can be overtaken by one
  that prunes its key, and is then allowed too early (`AlertsSpacedExactly`).
- Folders are said to be scoped to their owner, and a move across owners is refused, but a folder can be
  created under another owner's, and moving or deleting that one then leaves its path stale
  (`ForeignPathGoesStale`, `DeletionsSafeExactly`).
- Which rows a replay sees, and in what order, depends on request id and row id: an edited request id
  takes a row out of its chain (`TamperLocated`).

## Model

| member | source | states |
|---|---|---|
| HashChain.EncodeInjective | internal/approval/ledger.go:111-135 | two lists of fields, of any lengths, have the same length-prefixed encoding only if they are the same list, given fields under 2^32 bytes |
| HashChain.CanonicalDigestInput | internal/approval/ledger.go:111-127 | the buffer built field by field is tag, previous hash, kind, request, actor, payload and time in that order, each behind its length, the two numbers in eight bytes |
| HashChain.HashInputLayout | internal/approval/ledger.go:111-127 | what is hashed of a stored event are these fields of it in this layout |
| HashChain.LengthPrefixedBytes | internal/approval/ledger.go:129-135 | a field is written as the low 32 bits of its length, the most significant byte first, and its bytes |
| HashChain.HashInputInjective | internal/approval/ledger.go:111-135 | two events have the same digest input only if every hashed field agrees |
| HashChain.OversizedFieldAliases | internal/approval/ledger.go:129-135 | the bound is needed: for every event it builds two that differ in hashed fields, one with a kind of exactly 2^32 bytes, and share a digest input |
| HashChain.DigestInjectiveExactly | internal/approval/ledger.go:111-135 | for any bound on the length of a field, the digest input determines the hashed fields of events within it exactly when the bound is below 2^32 |
| HashChain.SameTipSameHistory | internal/approval/ledger.go:228-271 | two chains that verify and end in the same hash belong to one request and agree in length, in every hashed field and in every hash, or two of the strings hashed for them collide |
| HashChain.ChainBoundToRequest | internal/approval/ledger.go:176-182 | a non-empty chain that verifies for two different requests makes their two genesis inputs collide |
| HashChain.NoFork | internal/approval/ledger.go:165-215 | in a chain that verifies, no two events name the same predecessor, or two of its hashed strings collide |
| HashChain.PrefixValid | internal/approval/ledger.go:228-271 | every prefix of a valid chain verifies, so a lost tail shows only against a known tip |
| HashChain.FirstBadUnique | internal/approval/ledger.go:245-266 | the earliest event whose prefix is not a valid chain is unique, so the reported event is determined |
| HashChain.SkippedBreaks | internal/approval/ledger.go:245-268 | an event left out of a chain that verifies shows at the event that followed it, and not at all if it was the last, or two of the chain's hashed strings collide |
| HashChain.IntrudedBreaks | internal/approval/ledger.go:245-268 | an event put into a chain shows where it stands when it does not fit there, and otherwise at the event behind it, or two of the new chain's hashed strings collide |
| HashChain.ReplacedBreaks | internal/approval/ledger.go:245-268 | an event exchanged in place shows there when it does not fit, and otherwise at the event behind it, or a string hashed for the old chain and one for the new collide |
| Tamper.EditedIsTable | internal/repo/approval_repo.go:259-264 | the edited table is the other rows and the new one, in the order of their ids |
| Tamper.TamperLocated | internal/approval/ledger.go:245-268 | after any edit of any one row, ids and request ids included, the replay of every request it matters to stops exactly at the reported index: in the chain the row leaves or moves back in, where it stood; in the chain it joins, stays in or moves forward in, at the row when it does not fit and otherwise at the event behind it; otherwise strings hashed for that request collide |
| Tamper.OvertakingSeen | internal/repo/approval_repo.go:259-264 | a new id that overtakes rows of the same request is reported at the earlier of the two places although nothing hashed changed, or hashed strings collide |
| Tamper.UnhashedEditUnseen | internal/approval/ledger.go:111-127 | every chain still verifies after an edit that leaves the hashed fields, the hash and the place in the chain alone, and every chain of another request after any edit: the actor name is unprotected, and the id as long as it overtakes no row of its request |
| Tamper.EditWithoutRehash | internal/approval/ledger.go:255-262 | an edit that leaves hash and id alone is reported at the edited event, in whatever chain its request id puts it into; the chain it left is reported at the event that followed, and not at all if there was none; otherwise hashed strings collide |
| Ledger.BytesEq | internal/approval/ledger.go:282-292 | true exactly for equal byte strings |
| Ledger.Ledger.AppendForRequest | internal/approval/ledger.go:145-223 | which error comes when, that errors leave the table alone, and that success appends one row with the caller's kind, request, actor and time, the text or marshalled payload it was given or none, the hash of the latest row of its request (or of the seed and the request) as previous hash and its own hash, leaving every other request's rows as they were |
| Ledger.Ledger.VerifyChain | internal/approval/ledger.go:228-271 | for any table: ok exactly when the request's rows form a valid chain; otherwise the id of the earliest row whose prefix is not one, with the reason that applies |
| Ledger.EventsOfExactly | internal/repo/approval_repo.go:258-264 | the rows replayed are all rows of the request and no others, each once and in id order |
| Ledger.InsertKeepsChains | internal/approval/ledger.go:165-215 | a properly linked insert keeps the chains of all requests valid |
| Ledger.AppendedChainsVerify | internal/approval/ledger.go:145-271 | every chain of every request in a table built by appends alone verifies |
| RequestLocks.LockTable.Enter | internal/approval/locks.go:23-32 | entering takes one more reference on the request's lock, creating it when absent, and keeps the table injective with positive counts |
| RequestLocks.LockTable.Leave | internal/approval/locks.go:36-41 | leaving gives one reference back and removes the entry exactly with the last one |
| RequestLocks.EnteredConsistent | internal/approval/locks.go:23-32 | entry keeps counts positive, locks distinct per request, and counts only for locks in the table |
| RequestLocks.LeftConsistent | internal/approval/locks.go:34-41 | so does leaving |
| AppendProtocol.StepKeepsInv | internal/approval/locks.go:23-42 | every atomic step of every thread keeps: counts equal users, mutex holders are exactly the threads between acquire and release, what a holder has read is still the last row, and the table is built by appends |
| AppendProtocol.EveryInterleavingChains | internal/approval/ledger.go:165-215 | in every state of every interleaving of any number of appends, each request's events form one linear chain that verifies |
| AppendProtocol.InsertLinksToLast | internal/approval/ledger.go:170-215 | every insert of every run links to the row that is last for its request at that moment |
| AppendProtocol.LockProtocol | internal/approval/locks.go:13-42 | in every reachable state: an entry exactly for requests with users, its count is holders plus waiters plus releasers, all share the lock in the table, at most one holds it, and with no append in progress the table is empty |
| AppendProtocol.RequestsIndependent | internal/approval/locks.go:9-11 | a step for one request changes neither rows, users, lock, count nor holder of another |
| AppendProtocol.NoDeadlock | internal/approval/locks.go:23-42 | while an append is in progress, some thread in it can take a step |
| AppendProtocol.EnterNeverBlocks | internal/approval/locks.go:23-32 | a thread outside an append can start one in every reachable state |
| Archiver.NothingLost | internal/approval/archiver_s3.go:166-246 | in every interleaving of archiving, timer settings, flushes and upload outcomes, archived events and copies equal pending, in flight, uploaded and dropped ones, as multisets, where copies are the batches put back although their object was stored |
| Archiver.LostExactlyWhenUnencodable | internal/approval/archiver_s3.go:214-218 | nothing is missing from pending, in flight and uploaded exactly when no batch so far failed to encode |
| Archiver.DuplicatedExactlyWhenDoubtful | internal/approval/archiver_s3.go:236-243 | nothing is duplicated exactly when no upload so far stored its object and still returned an error; and every event is archived at least once or dropped |
| Archiver.OrderExactly | internal/approval/archiver_s3.go:196-246 | with unique ids and nothing dropped, uploaded objects, flights and buffer are the archived sequence in order all along exactly when every flush so far stored the oldest batch in flight or put back the youngest |
| Archiver.OrderKept | internal/approval/archiver_s3.go:196-246 | in particular if flushes never overlap and nothing was dropped or stored twice |
| Archiver.OverlapReorders | internal/approval/archiver_s3.go:234-243 | one overlapping run that archives a, b and ends with b uploaded and a pending |
| Archiver.ObjectSizeExactly | internal/approval/archiver_s3.go:166-178 | an object stays within the batch size exactly when at most that many events were archived or put back between the flush before and the one that took it |
| Archiver.OversizedObject | internal/approval/archiver_s3.go:176-178 | one call with more events than the batch size makes a larger object |
| Archiver.CallWithinBatchSize | internal/approval/archiver_s3.go:166-178 | on its own, a call that fills the buffer makes an object within the batch size exactly when what waits and what it hands over do not exceed it |
| Archiver.SameKeyExactly | internal/approval/archiver_s3.go:264-274 | two object keys are equal exactly when the batches agree in the id of the first event, the id of the last one and the hour of the first |
| Archiver.SameKeyMeansCopied | internal/approval/archiver_s3.go:220-246 | with unique event ids, two stored objects of any run share a key only if they share their first event and an upload stored it and returned an error; without such an upload keys are unique |
| Archiver.TimerLiveExactly | internal/approval/archiver_s3.go:182-203 | with no call between appending and setting the timer and none about to flush, waiting events have a live timer exactly when, since the timer was last armed, no upload put its batch back with no timer set and no timer fired on an empty buffer |
| Archiver.EmptyFiringStalls | internal/approval/archiver_s3.go:197-201 | a run that ends with a waiting event behind a spent timer |
| Archiver.RejectionStalls | internal/approval/archiver_s3.go:236-243 | a run that ends with a rejected event waiting and no timer |
| Archiver.S3LedgerArchiver.ArchiveEvents | internal/approval/archiver_s3.go:166-180 | for a call that no other interleaves with: below the batch size the buffer grows and a timer is armed unless one is set; at or above it the whole buffer is flushed; an empty call changes nothing |
| Archiver.S3LedgerArchiver.Flush | internal/approval/archiver_s3.go:196-246 | a flush that no other overlaps puts the whole buffer, in order, into one object under a key of the first event's hour and the first and last ids, unless the upload stored none, empties the buffer unless the upload failed, and disarms the timer; an empty buffer leaves everything alone |
| Archiver.S3LedgerArchiver.TakeBatch | internal/approval/archiver_s3.go:196-208 | the locked half of a flush takes the whole buffer and disarms the timer, or does nothing when it is empty |
| Archiver.S3LedgerArchiver.FinishBatch | internal/approval/archiver_s3.go:213-246 | a stored batch becomes one object under its key, a rejected one goes back in front of the buffer, an unencodable one is dropped |
| Csv.RecordRoundTrip | internal/api/db_handler.go:533-541 | a record with at least one column reads back, by section 2 of RFC 4180 with LF, as its fields, and the text behind it is untouched |
| Csv.TableReadsBack | internal/api/db_handler.go:517-541 | any table, whatever its fields hold, reads back as itself except that a record without columns becomes one empty field |
| Csv.TableRoundTrip | internal/api/db_handler.go:517-541 | a table reads back unchanged exactly when every record has a column, with commas, quotes, CR and LF in its fields |
| Csv.CsvExport.WriteRecord | internal/api/db_handler.go:534-541 | after each record written, the stream so far reads back as all records written so far |
| Csv.EscapedExactly | internal/api/db_handler.go:577-582 | a field is written as it is exactly when it holds no comma, double quote, line feed or carriage return |
| SqlScan.NormaliseSQLForKeywordScan | internal/api/db_handler.go:1081-1161 | the loop writes what `Blanked` describes: quoted text and comments as blanks, the rest upper-cased |
| SqlSpelling.ByteShown | internal/api/db_handler.go:1146-1158 | outside quotes and comments a small letter is written as the capital 32 below it, every other ASCII byte as it is, and a byte above as the first UTF-8 byte of the capital of the code point it is taken for |
| SqlSpelling.NoSmallLetterLeft | internal/api/db_handler.go:1081-1161 | no small ASCII letter is left by the scan of any text |
| SqlSpelling.FoundExactly | internal/api/db_handler.go:1081-1203 | for every text and keyword, the search finds the keyword in the scanned text exactly when the text spells it, in any mix of cases and as a whole word, outside quotes and comments |
| SqlStrip.StripLeadingSQLComments | internal/api/db_handler.go:965-985 | what is left is the text behind a run of gaps (space, tab, line feed, carriage return, closed comments), trimmed, or nothing when an unclosed comment follows them; it is empty exactly when white space or an unclosed comment is all that follows the gaps |
| SqlStrip.StrippedIsUnique | internal/api/db_handler.go:965-985 | only one text fits this description |
| SqlStrip.NothingLeft | internal/api/db_handler.go:965-985 | stripping leaves nothing exactly of such a text |
| SqlStrip.WhiteSpaceExactly | internal/api/db_handler.go:965-985 | the bytes skipped in front of a comment are space, tab, line feed and carriage return; at the ends of what is left also vertical tab and form feed |
| SqlSplit.SplitterFinds | internal/api/db_handler.go:1027-1079 | the first terminator found is the one behind a run of pieces: bytes that open nothing, closed comments, quoted strings |
| SqlSplit.HasMultipleStatements | internal/api/db_handler.go:1027-1079 | true exactly when something follows that terminator which stripping does not remove |
| SqlSplit.Continue | internal/api/db_handler.go:1027-1079 | the run over a text is the run over its first part continued over the second, wherever the cut splits no comment mark |
| SqlAgree.ScannersAgree | internal/api/db_handler.go:1027-1161 | the keyword scan leaves a terminator standing exactly when the splitter finds one, for every text and mode without a comment opened as slash, star, slash in plain text; doubled quotes make no difference |
| SqlAgree.ScannersAgreeExactly | internal/api/db_handler.go:1027-1161 | probed with a terminator at every point of a text, the scanners agree everywhere exactly when no comment is opened that way |
| SqlAgree.ScannersDisagree | internal/api/db_handler.go:1054-1146 | one text on which they disagree |
| SqlExport.LiteralBlanked | internal/api/db_handler.go:1081-1161 | any string quoted with doubled quotes becomes exactly as many blanks as it has bytes, and the scan goes on in its default state |
| SqlExport.NoQuotesLeft | internal/api/db_handler.go:1081-1161 | the scanned text of any input holds no quote of any kind |
| SqlExport.LiteralSkipped | internal/api/db_handler.go:587-604 | the statement splitter reads the literal of any value as one closed token (section 5.3 of ISO/IEC 9075-2) |
| SqlExport.RowTerminatesItself | internal/api/db_handler.go:553-565 | whatever values and column names hold and whatever follows, the first terminator found in an exported row is the row's own, for every schema and table name that leaves the splitter in plain text |
| SqlExport.RowIsOneStatement | internal/api/db_handler.go:553-565 | hence every such row is a single statement |
| SqlExport.RowsSingleExactly | internal/api/db_handler.go:553-565 | for all columns and values every row is a single statement exactly when the splitter, run over the two names as they stand in it, meets no terminator and is back in plain text |
| SqlExport.OnlyNamesMatter | internal/api/db_handler.go:563 | the fixed words in front of the names do not matter for that |
| SqlExport.QuotelessNamesClosed | internal/api/db_handler.go:563 | names without double quotes are such names |
| SqlFile.OneStatementPerRow | internal/api/db_handler.go:553-565 | n rows for such names hold exactly n terminated statements |
| SqlFile.FileCountExactly | internal/api/db_handler.go:517-565 | a whole export file, comment line included, holds one terminated statement per row for all columns and rows exactly when the names leave the splitter in plain text and so does what the comment line spills behind its first line feed, up to the first row's names |
| SqlFile.PlainNamesClosed | internal/api/db_handler.go:527-529 | names without double quotes and line feeds meet that condition |
| SqlFile.LineFeedInName | internal/api/db_handler.go:527-529 | a line feed in the table name alone changes nothing, and with a terminator behind it every such file holds one statement more than rows |
| SqlWords.LiteralInvisible | internal/api/db_handler.go:1081-1203 | through scanner and search together, behind any text that does not end inside a quote or a comment, a keyword is found exactly when it stands before or behind a quoted string, whatever that string holds |
| SqlWords.LiteralInvisibleExactly | internal/api/db_handler.go:1081-1203 | that holds of all strings, all texts behind them and all keywords exactly for those texts in front; behind any other one a keyword goes unseen |
| SqlWords.ClosedExactly | internal/api/db_handler.go:1081-1161 | the keyword scan reads every continuation of a text as if nothing stood before it, exactly when its scan ends outside quotes and comments and its last byte is not the first half of a comment mark |
| SqlWords.InertCloses | internal/api/db_handler.go:1081-1161 | ordinary text without quotes and comments is such a text |
| SqlExport.UnescapedSchemaName | internal/api/db_handler.go:563 | one schema name for which every row counts as several statements, without help from the columns |
| SqlRows.WriteInsertRow | internal/api/db_handler.go:553-565 | what the loops write reads back, with a reader that knows only the syntax of rows, as the columns and the values in their order, whatever they hold, with the text behind untouched; for names without double quotes also as the table; and it is a single statement under the condition on names |
| SqlRows.LiteralReadsBack | internal/api/db_handler.go:587-604 | every literal reads back as its value: NULL, the two booleans, integers, other numbers by their text, and strings and encoded values as strings |
| SqlRows.RowReadsBackExactly | internal/api/db_handler.go:553-565 | a written row reads back as its table, columns and values exactly when neither part of the table's name holds a double quote |
| SqlRows.FileReadsBack | internal/api/db_handler.go:527-565 | a whole export of a table whose name holds no double quote and no line feed reads back as all its rows in their order |
| Keywords.KeywordIndex | internal/api/db_handler.go:1184-1199 | for a non-empty keyword of identifier bytes: the least whole-word occurrence, or -1 exactly when there is none |
| Keywords.NoWordInside | internal/api/db_handler.go:1184-1199 | no whole word starts inside an occurrence, which justifies skipping a whole keyword length |
| Keywords.ContainsAnyKeyword | internal/api/db_handler.go:1163-1170 | true exactly when one of the keywords stands somewhere as a whole word |
| Keywords.ContainsKeywordSequence | internal/api/db_handler.go:1172-1178 | true exactly when a whole-word first is followed, in the full text, by a whole-word second |
| Glob.LeftmostSuffices | internal/accesscontrol/maskspec.go:122-131 | if the segments can be placed at all, they can with the first one at its leftmost occurrence |
| Glob.PartsDecide | internal/accesscontrol/maskspec.go:111-135 | a name is the pattern with its stars filled in exactly when prefix, middle segments and suffix can be placed |
| Glob.GlobMatch | internal/accesscontrol/maskspec.go:105-136 | true exactly when each star of the folded pattern can stand for some, possibly empty, string so that the result is the folded name |
| Glob.ShouldMask | internal/accesscontrol/maskspec.go:62-72 | a column is masked exactly when some pattern matches it |
| AccessRules.BytesCompareIP | internal/accesscontrol/selector.go:225-239 | byte-wise comparison is comparison of the 128-bit numbers, and equal only for equal addresses |
| AccessRules.MatchIP | internal/accesscontrol/selector.go:83-120 | true exactly when there is no restriction, or the client address parses and some entry covers it, ranges meaning numeric order with both ends |
| AccessRules.Intersects | internal/accesscontrol/selector.go:164-178 | true exactly when the two lists share an id |
| AccessRules.MatchUser | internal/accesscontrol/selector.go:45-58 | true exactly for everybody, a listed user, or a shared group, department or role |
| AccessRules.MatchAsset | internal/accesscontrol/selector.go:62-70 | true exactly for everything, a listed non-zero node, or a shared group or tag |
| AccessRules.Engine.Evaluate | internal/accesscontrol/engine.go:86-165 | the first rule in source order that satisfies every dimension under the grantees known when it is tested, and the exact number of lookups made; command filters and logins always, the three licensed kinds exactly when there is no edition or it has connection_review, data_masking or connection_method, and otherwise they accept without asking the store |
| AccessRules.LazyIsUpfrontExactly | internal/accesscontrol/engine.go:122-138 | for all rules and inputs deciding lazily is deciding after one lookup up front exactly when that lookup yields a set, or the set found first later on names no group, department or role |
| AccessRules.FewAskingRules | internal/accesscontrol/engine.go:122-138 | with grantees given, no user, or at most one valid rule that is not for everybody, it is so whatever the lookups say |
| AccessRules.FlakyLookupDecidesDifferently | internal/accesscontrol/engine.go:128-137 | one resolver, failing and then recovering, whose decision no single lookup up front gives |
| AccessRules.AtMostOneLookup | internal/accesscontrol/engine.go:128-137 | a first lookup that yields a set is the only one |
| AccessRules.NoLookup | internal/accesscontrol/engine.go:128 | there is none with grantees given, no user or no resolver |
| Frames.FrameRoundTrip | internal/agentgw/protocol.go:43-75 | reading a written frame gives its payload and leaves every later byte |
| Frames.FrameRoundTripExactly | internal/agentgw/protocol.go:43-75 | it does so exactly for payloads of up to 65536 bytes |
| Frames.ParseFrameExactly | internal/agentgw/protocol.go:60-75 | what reading any bytes gives and leaves, by cases on the four length bytes and on where the stream ends |
| Frames.FrameBytes | internal/agentgw/protocol.go:43-57 | a written frame is its length in four bytes, the most significant first, and its payload |
| Frames.ManyRoundTrip | internal/agentgw/protocol.go:43-75 | any sequence of payloads up to 64 KiB comes back in order, and raw bytes behind it are untouched |
| Frames.TruncatedIsBad | internal/agentgw/protocol.go:61-75 | a stream cut anywhere inside a frame yields no frame |
| Frames.CutStreamGivesPrefix | internal/agentgw/protocol.go:61-75 | however much of a stream of frames arrives, what is read are exactly its whole leading frames |
| Frames.Reader.ReadFull | internal/agentgw/protocol.go:63 | under any chunking, exactly n bytes are delivered and consumed, or an error and the stream is used up |
| Frames.Reader.ReadFrame | internal/agentgw/protocol.go:61-75 | under any chunking, exactly the first frame is consumed, with the length limit and both kinds of short stream |
| Frames.Reader.ReadFrames | internal/agentgw/protocol.go:61-75 | under any chunking, repeated reads return exactly the payloads written and stop at the first raw byte |
| Frames.Writer.WriteFrame | internal/agentgw/protocol.go:43-58 | a frame is written whole, refused unwritten when too large, or fails with a proper prefix on the wire |
| Tunnel.DialTarget | internal/agentgw/tunnel.go:48-84 | a connection exactly when the OPEN frame went out whole and the first frame back is a positive ACK; the stream then stands at the first raw byte |
| Tunnel.HandleStream | internal/agentgw/agent.go:94-133 | dials the target of the OPEN frame over its network, or tcp if it names none, within its deadline if that is positive and the default otherwise, and nothing else; writes at most one ACK saying how it went, and splices only after success on both |
| Tunnel.HandshakeEndToEnd | internal/agentgw/agent.go:94-133 | over the bytes: the agent that reads the gateway's request dials the requested address and network for no longer than the caller has left, and the gateway gets a connection exactly when that dial succeeded, raw bytes untouched |
| Handshake.ConnectedMeansDialed | internal/agentgw/tunnel.go:48-84 | in every run, a connected stream's agent dialled with success exactly the target and network, tcp if none, with which the stream was opened, and no control frame is left in the pipe |
| Handshake.ConnectionReachable | internal/agentgw/agent.go:66-133 | from every reachable state in which the agent accepts and has a slot free, a run connects a new stream to any target |
| Handshake.RequestFixed | internal/agentgw/tunnel.go:63-68 | a stream's requested network and target never change, and its ACK count never falls |
| Handshake.AtMostOneAck | internal/agentgw/agent.go:65-133 | the agent writes at most one ACK per stream, whether it refuses, fails or connects |
| Handshake.HandlersBounded | internal/agentgw/agent.go:65-90 | held slots are the running handlers plus the one being started, and never exceed the limit |
| Handshake.RefusedOnlyWhenFull | internal/agentgw/agent.go:76-83 | a stream is refused only while running handlers fill every slot |
| Handshake.ReturnedMeansDrained | internal/agentgw/agent.go:69-75 | when the accept loop has returned, no handler is left and no slot is held |
| Handshake.HandlersCanFinish | internal/agentgw/agent.go:85-89 | a handler that has returned can always give its slot back and then sign off |
| Registry.ListedIsCount | internal/agentgw/registry.go:37-79 | over all domains, the listed tunnels are as many as the registered agents |
| Registry.Registry.Register | internal/agentgw/registry.go:37-53 | the agent's entry becomes this tunnel, a different previous one is closed and leaves its domain, nothing else changes, the two maps keep describing the same tunnels, and only the previous tunnel's domain can be left empty |
| Registry.Registry.Unregister | internal/agentgw/registry.go:57-71 | exactly the agent's entry goes from both maps, and no domain is left behind empty |
| Registry.Registry.Disconnect | internal/agentgw/registry.go:93-110 | the same, closing that tunnel and no other, and says whether there was one |
| Registry.Registry.Count | internal/agentgw/registry.go:75-79 | the number of agents, which is the sum of the domain set sizes |
| Registry.Registry.AgentsInDomain | internal/agentgw/registry.go:113-122 | exactly the agents whose registered tunnel belongs to the domain |
| Registry.Registry.Pick | internal/agentgw/registry.go:126-140 | an open tunnel of the domain with the fewest streams, or none exactly when there is none with a load below the largest int |
| TunnelHandlers.NewestRegisteredExactly | internal/api/agent_gateway_handler.go:361-374 | in every run of connection handlers, the newest tunnel of an agent is still registered exactly when since then no handler of that agent has unregistered and the agent was not disconnected; no older one ever is |
| TunnelHandlers.ReconnectLosesTunnel | internal/api/agent_gateway_handler.go:372 | an ordinary reconnect, after which the new tunnel is open and unregistered |
| TunnelHandlers.RegisteredIsUnclosed | internal/agentgw/registry.go:37-53 | a registered tunnel is its own agent's and neither the registry nor its handler has closed it; its session may have ended by itself |
| TunnelHandlers.ClosedExactly | internal/agentgw/registry.go:37-53 | in every run a tunnel has been closed exactly when, since it connected, its agent connected anew or was disconnected while it was registered, or its own handler went; one that lost its registration in another way stays open |
| FlagCache.AnswersAreUncachedAnswers | internal/approval/enforcement.go:261-356 | under any interleaving of updates, clock and queries, an answer is the uncached answer on the database as it was at the read behind it, and a cached one comes at most one lifetime after its entry was stored |
| FlagCache.StaleForALifetime | internal/approval/enforcement.go:345-356 | the bound is reached: whatever the flags become, a run answers by the old ones exactly one lifetime after it stored them |
| FlagCache.StepKeepsInv | internal/approval/enforcement.go:278-356 | every step keeps every entry and every query in progress backed by a past read of the right row |
| FlagCache.SoloQueryIsMethod | internal/approval/enforcement.go:261-356 | from any state, a query of the concurrent machine that nothing interrupts gives the result and leaves the cache that the enforcer's method specifies |
| FlagCache.RepoEnforcer.LookupCached | internal/approval/enforcement.go:345-356 | an entry is used up to its expiry inclusive and deleted when found later |
| FlagCache.RepoEnforcer.IsEnforced | internal/approval/enforcement.go:261-343 | by resource type: an unexpired entry answers; otherwise the row of the wired table does, file transfers by the one flag, connections by the other, credential use by its own, and is remembered for one lifetime; a missing row, a bad id or an unwired table answers no; an error gives no answer and leaves no entry |
| Debounce.CallKeepsSimulation | internal/anomaly/detector.go:382-404 | a call that takes the lock at most one clock unit after reading the clock decides as the never-pruned map would, and afterwards the pruned map has forgotten only alerts older than the window |
| Debounce.PruningInvisibleExactly | internal/anomaly/detector.go:382-404 | in all runs from a fresh map to the next hard reset, whatever the order in which concurrent calls take the lock, every decision is that of a never-pruned map, exactly when no call waits more than one clock unit between reading the clock and taking the lock |
| Debounce.AlertsSpacedExactly | internal/anomaly/detector.go:382-404 | if calls wait up to some time for the lock, two successive alerts of one key are at least a window apart less that time beyond one unit, and no greater distance holds of all runs |
| Debounce.Detector.AllowBrute | internal/anomaly/detector.go:382-404 | a call is allowed unless its key was within the window; an allowed one is recorded and, above 4096 entries, drops those older than the window, or all of them if more than 8192 are left; a refused one changes nothing |
| Directory.MyDirectory | internal/api/access_tree_handler.go:409-444 | shows exactly the folders that are an ancestor-or-self of a folder holding a visible item, given paths that list ancestors and self, and exactly the visible items in order |
| Directory.VisibleItemsExactly | internal/api/access_tree_handler.go:409-418 | the items shown are those the user can connect to, or all for those who may see all, each once and in their order |
| Directory.KeptFoldersExactly | internal/api/access_tree_handler.go:438-443 | the folders shown are those whose id was marked, each once and in their order |
| Directory.ShownClosedUnderParent | internal/api/access_tree_handler.go:420-436 | the parent of a shown folder is shown |
| Directory.NoEmptyBranch | internal/api/access_tree_handler.go:420-436 | below every shown folder lies a shown one that directly holds a visible item |
| Directory.VisibleItemHasFolder | internal/api/access_tree_handler.go:409-436 | the folder of every visible item is shown if it is among the folders |
| Directory.OnlyVisibleItems | internal/api/access_tree_handler.go:409-418 | the items shown are exactly the given items the user can connect to |
| FolderStore.TextSnoc | internal/repo/access_repo.go:33-40 | the stored text of a trail with one more id is the text before, a slash, and the id |
| FolderStore.TextBelow | internal/repo/access_repo.go:113-131 | on the stored text, one path lies below another, and has its front replaced, exactly as on the lists of ids |
| FolderStore.CreateKeepsLinked | internal/repo/access_repo.go:28-43 | creating a folder keeps the paths right exactly when no folder already names its id as parent |
| FolderStore.MoveKeepsLinked | internal/repo/access_repo.go:90-138 | moving a folder to another path keeps all paths right exactly when nothing of another owner lies below it; a move that leaves the path alone always does |
| FolderStore.DeleteKeepsLinked | internal/repo/access_repo.go:254-284 | deleting a folder with its subtree keeps all other paths right exactly when nothing of another owner lies below it |
| FolderStore.DeletionsSafeExactly | internal/repo/access_repo.go:254-284 | the paths survive the deletion of any folder exactly when no folder lies under another owner's |
| FolderStore.OthersUntouched | internal/repo/access_repo.go:28-284 | creating, moving, deleting or purging in one owner's tree leaves the folders of every other owner as they are |
| FolderStore.PurgeEmpties | internal/repo/access_repo.go:240-249 | a purge leaves its owner no folder |
| FolderStore.ForeignPathGoesStale | internal/repo/access_repo.go:28-138 | creation does not look at the parent's owner: a folder created under another owner's keeps its old path when that one is moved |
| FolderStore.PathsAreRight | internal/repo/access_repo.go:28-284 | after any history of creating folders, with new ids and under their owner's own, moving, deleting and purging, the stored paths of the merged folders of any owners list exactly the ancestors, as the directory takes for granted |

## Left out

- SQL, HTTP, GORM, Redis, SSH, WebSocket, yamux and the S3 client: streams are byte sequences in order, uploads, dials and store calls succeed or fail arbitrarily.
- The event table keeps creation times at nanosecond precision and hands out increasing ids; the database's own rounding is not modelled.
- KMS signing and verification of ledger events: foreign cryptography; every claim is for a ledger without a signer.
- Ledger.Ledger.AppendForRequest: the archiver hook after the insert is not part of it; the archiver is modelled by itself.
- Retention dates, bucket checks and the doneCh of the archiver: no property of the batching depends on them.
- Archiver: safety only; that a pending event is eventually uploaded is not claimed. Objects are the puts in order; what a second put under one key does to the first is not part of it.
- Archiver.S3LedgerArchiver.ArchiveEvents: one uninterrupted call; interleaved calls are the steps of the machine, which the methods share.
- SqlStrip.StripLeadingSQLComments: white space is ASCII; the Unicode spaces that the library also trims at the ends are not modelled.
- Exported JSON values and floating-point numbers enter as printed text; number text is assumed to consist of digits, signs, points, `e` and the letters of NaN and Inf, without a doubled or trailing minus sign, which the standard printer guarantees. The JSON-lines format is not modelled.
- An export that breaks off ends in an error line; only complete exports are modelled. The time in the header comment is a parameter.
- isReadOnlySQL and expandMySQLExecutableComments: a conservative guard built from the parts modelled here; no claim about real SQL is made.
- Glob.GlobMatch: lower-casing and trimming are arbitrary functions.
- AccessRules: parsing of selectors, time windows, CIDR blocks, command and method specs is given; matchTime's clock arithmetic would only add easy members.
- DataMask and MaskPlan.Apply: choosing and applying the redaction is a single expression each.
- Tunnel: JSON encoding of the two control frames is given; splice is the end of the model, and the bytes it copies are not.
- Handshake: the limit is any number of slots; that a limit of zero or less is read as 256 is not part of it.
- Handshake: deadlines appear only as reads, writes and dials that may fail at any time; a closed session appears as such failures.
- CheckEnforced: a decision table whose contract would repeat its body.
- FlagCache: entries left behind by unwired tables and concurrent deletes of a fresher entry are covered; the size of the cache, which nothing bounds, is not.
- Debounce: what happens across a hard reset is only that the map starts empty again. One unit is one nanosecond of the clock, and the window is positive, as the configuration makes it.
- Directory: the SQL that loads folders and items, and folder attributes other than id, parent and path.
- FolderStore: copying a tree is the creation of its folders one after another and is not modelled by itself; items, names and sort orders are not part of it.
- TunnelHandlers: heartbeats and the agent's status row; registry steps are taken from the registry's contracts.

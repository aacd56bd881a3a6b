# Verified models of the Kafka tool's algorithms

This project models the self-contained algorithms and state machines of the Kafka tool's Go
backend and TypeScript front end, and proves what they promise. Code that changes state in
place is a class or a method with loops, proved against functions; the main theorems are
lemmas about those functions and about whole runs. Time, random tokens, fresh ids, broker
answers and the outcome of connects are parameters. `dafny verify dfyconfig.toml` checks
everything.

| component | files |
|---|---|
| linter's JSON scanner | `JsonGrammar`, `JsonScan`, `JsonSoundness`, `JsonCompleteness`, `JsonText` |
| schema diff | `LineDiff`, `SchemaDiff` |
| consumer client pool | `ConsumePool`, `PoolRuns`, `PoolHealth`, `PoolTable` |
| confirmation tokens, two-phase writes | `ConfirmStore`, `TwoPhase` |
| digest cursors | `CursorStore`, `CursorLru`, `CursorTable` |
| one-shot scan and stream | `Records`, `ScanLoop`, `Stream`, `StreamLoop` |
| properties import | `PropertiesText`, `PropertiesPrint`, `PropertiesForms` |
| wire frame and message indexes | `WireFrame` |
| message export | `MessageExport` |
| JSON paths | `JsonPath`, `JsonPathAgreement`, `JsonPathRender`, `JsonPathRoot`, `JsonPathExamples` |
| digest histogram and counts | `Groups`, `Histogram`, `Digest` |
| inline connection pool | `StdioPool`, `StdioRuns` |

`Basics` holds text helpers. The grammar of `JsonGrammar` follows sections 2 to 7 of RFC 8259,
the CSV reader section 2 of RFC 4180 (with any other character as text data).

Where a comment or a promise and the code part ways, the model follows the code and the exact
condition is proved:

- The comment at backend/internal/kafkaconn/consume_pool.go:18-20 says a client in use is not
  closed. A Put to the same slot closes it: `PutClosesAHeldClientIff`, with a run in
  `SomeRunClosesAHeldClient`.
- A confirmed topic deletion that names a topic twice spends its token and is then refused by
  the guard: `GuardPassesIff`, with an example in `RepeatedTopicIsRefused`.
- A cursor put under the id of a live session breaks the order list, or is itself the session
  evicted: `PutKeepsInvIff`.
- Resuming a scan loses matches as soon as one poll matched more than the limit:
  `ResumeIsLosslessIff`, with an example in `SomeResumeSkips`; the result shows the number of
  matches, so a caller can tell before it resumes. Resuming from the reported offsets alone leaves out the partitions
  the scan has not reached: `ReportedOffsetsAlone`.
- The stream drops the records that come with a failed poll, and sees every match exactly
  when there is none among them: `NothingLostIff`, with an example in `SomePollLosesAMatch`.
- A scan ends only at a limit or a timeout, so `hasMore` is always set: `ConsumeMessages`.
- The last bucket of a histogram is inverted for some spans from 13 to 109: `InvertedIff`.
- The two evaluators of JSON paths differ on null, on a segment with two indexes, on a space
  behind the dollar, on paths the filter rejects and the digest reads, such as `a[x]`, and at
  the root: `AnswersAgreeIff`, `NullNeverAgrees` and `RootAnswersAgreeIff` cover every path,
  and `JsonPathExamples` has one example of each kind.
- A file in Java's own store format loses a space at the end of a value, and characters
  beyond the basic plane: `PrintReadsBackIff`.
- A failed connect can leave a stale entry in the inline pool's order, which then is neither
  first in, first out nor bounded: `StaysTidyIff`, `OrderBound` and `FailuresGrowTheOrder`.
- The open connections and the pooled keys can part in two ways, by a late close and by a
  late connect of a concurrent request: `StaysCleanIff` says which steps do it, and
  `SomeRunLeaks` and `SomeRunClosesAPooledKey` are runs from the start.

## Model

| member | source | states |
|---|---|---|
| JsonText.JsonErrorLine | frontend/src/lib/jsonText.ts:33-175 | blank text, JSON white space alone included, or JSON text gives no error, and anything else with a visible character does; the line is 1 plus the line breaks in the longest prefix that some continuation completes to JSON |
| JsonCompleteness.AcceptsExactlyJson | frontend/src/lib/jsonText.ts:111-175 | the scanner accepts a text exactly when it derives from the RFC 8259 grammar |
| JsonCompleteness.DeadEndsLongestViablePrefix | frontend/src/lib/jsonText.ts:62-109 | the position where scanning dies ends the longest viable prefix: that prefix can be completed to JSON, and no longer one can |
| JsonSoundness.DocumentSound | frontend/src/lib/jsonText.ts:160-175 | every accepted text has a derivation tree |
| JsonSoundness.DocumentViable | frontend/src/lib/jsonText.ts:160-175 | on rejection the text before the dead position has a completion that is JSON |
| JsonCompleteness.DocumentComplete | frontend/src/lib/jsonText.ts:160-175 | every derivable text is accepted |
| JsonCompleteness.DocumentLocal | frontend/src/lib/jsonText.ts:160-175 | texts that agree up to and including the dead position are rejected at the same one |
| JsonText.ValueGap | frontend/src/lib/jsonText.ts:62-109 | between the position the scanner stands at and the position it died at there is no line break, so the reported line is the same for both |
| JsonText.Scanner.SkipSpace | frontend/src/lib/jsonText.ts:40-52 | skips exactly the JSON whitespace and counts its line breaks |
| JsonText.Scanner.MatchKeyword | frontend/src/lib/jsonText.ts:54-60 | consumes a keyword or nothing |
| JsonText.Scanner.ScanString | frontend/src/lib/jsonText.ts:62-86 | leaves the scanner where the string automaton does, failing on control characters, bad escapes and a missing quote |
| JsonText.Scanner.ScanNumber | frontend/src/lib/jsonText.ts:88-109 | leaves the scanner where the number automaton does |
| JsonText.Scanner.ScanObject | frontend/src/lib/jsonText.ts:111-137 | leaves the scanner where the member list automaton does |
| JsonText.Scanner.ScanArray | frontend/src/lib/jsonText.ts:139-158 | leaves the scanner where the element list automaton does |
| JsonText.Scanner.ScanValue | frontend/src/lib/jsonText.ts:160-170 | the mutual recursion terminates and leaves the scanner where the value automaton does |
| LineDiff.FillTable | backend/internal/kafkaconn/schema.go:1575-1588 | the table filled in place holds the recurrence's value in every cell |
| LineDiff.BestIsLongest | backend/internal/kafkaconn/schema.go:1575-1588 | the corner of the table is the length of a common subsequence, and none is longer |
| LineDiff.BestIsUpperBound | backend/internal/kafkaconn/schema.go:1575-1588 | no common subsequence of any two suffixes is longer than their table entry |
| LineDiff.Walk | backend/internal/kafkaconn/schema.go:1590-1616 | the walk emits an edit script between the two texts, numbered by its lines, that keeps exactly the corner's number of lines |
| LineDiff.WalkIsCheapest | backend/internal/kafkaconn/schema.go:1590-1616 | no edit script between the same texts adds and removes fewer lines |
| SchemaDiff.SchemaLinesAreClean | backend/internal/kafkaconn/schema.go:1676-1683 | split lines hold no line break of any style |
| SchemaDiff.BrokenTextSplits | backend/internal/kafkaconn/schema.go:1676-1683 | lines with a break of any of the three styles behind each but the last, in any mixture, are split back into the same lines; the empty text has none |
| SchemaDiff.HunkApplies | backend/internal/kafkaconn/schema.go:1631-1658 | a hunk, read back from its path and texts alone, consumes its removed lines and writes its added ones at the right place |
| SchemaDiff.GroupHunks | backend/internal/kafkaconn/schema.go:1618-1661 | the hunks replayed on the before lines give the after lines; there is one for each maximal run of removals followed by additions; the counts are those of the script and of the hunks |
| SchemaDiff.SchemaTextDiff | backend/internal/kafkaconn/schema.go:1566-1661 | for every two texts the hunks are a patch from one to the other, one for each maximal run of a script, unchanged plus removed and unchanged plus added are the two line counts, and no script changes fewer lines |
| ConsumePool.PoolKeyInjective | backend/internal/kafkaconn/consume_pool.go:83-100 | a slot key names one connection and one signature |
| ConsumePool.VictimWasIdle | backend/internal/kafkaconn/consume_pool.go:154-172 | eviction takes idle entries only, never the preserved one |
| ConsumePool.EvictionSettles | backend/internal/kafkaconn/consume_pool.go:154-172 | after it at most 8 entries are left, or all others are in use |
| PoolTable.Service.Acquire | backend/internal/kafkaconn/consume_pool.go:105-116 | grants exactly a present, idle, healthy entry and marks it; otherwise changes nothing |
| PoolTable.Service.Put | backend/internal/kafkaconn/consume_pool.go:120-138 | closes what the slot held, stores the new entry, then evicts with the new one preserved |
| PoolTable.Service.Oldest | backend/internal/kafkaconn/consume_pool.go:156-168 | finds an idle entry other than the preserved one with the least last use, in whatever order the map is walked |
| PoolTable.Service.Evict | backend/internal/kafkaconn/consume_pool.go:154-172 | terminates, each victim having the least last use among idle entries at its turn |
| PoolTable.Service.CloseEntry | backend/internal/kafkaconn/consume_pool.go:142-150 | closes an open client once and frees the slot |
| PoolTable.Service.SweepExpired | backend/internal/kafkaconn/consume_pool.go:186-198 | the scan in a release closes exactly the idle entries past their time |
| PoolTable.Service.CloseFor | backend/internal/kafkaconn/consume_pool.go:201-209 | closes exactly the entries of the connection |
| PoolTable.Service.CloseAll | backend/internal/kafkaconn/consume_pool.go:212-218 | closes every entry |
| PoolRuns.GrantsAreExclusive | backend/internal/kafkaconn/consume_pool.go:105-198 | in every interleaving an entry is granted to at most one request at a time |
| PoolRuns.EveryClientIsAccountedFor | backend/internal/kafkaconn/consume_pool.go:120-218 | in every interleaving a client is open in exactly one slot or has been closed exactly once |
| PoolRuns.WhoClosesAHeldClient | backend/internal/kafkaconn/consume_pool.go:120-218 | only a Put to the same slot, a disconnect or a close of all closes a client that is held; eviction and the idle scan never do |
| PoolRuns.PutClosesAHeldClientIff | backend/internal/kafkaconn/consume_pool.go:125-127 | a Put closes a held client exactly when its slot holds an entry in use |
| PoolRuns.SomeRunClosesAHeldClient | backend/internal/kafkaconn/messages.go:474-511 | a run in which a second request closes the client the first is scanning with |
| PoolRuns.PutBoundsThePool | backend/internal/kafkaconn/consume_pool.go:120-138 | after every Put of every run the new entry is pooled, and at most 8 entries are left or all others are in use |
| PoolHealth.UnhealthyIsNeverGranted | backend/internal/kafkaconn/consume_pool.go:105-184 | in every run, once a request has given an entry back as unhealthy no other request is ever granted it |
| PoolHealth.GrantedIff | backend/internal/kafkaconn/consume_pool.go:105-116 | a request is granted the entry of its slot exactly when that is neither in use nor marked; the entry is then in use, with the start asked for and the time of the request; otherwise the request opens a client of its own |
| PoolHealth.ReleaseGivesBack | backend/internal/kafkaconn/consume_pool.go:176-184 | undisturbed, a release gives the entry back idle, used now, and marked exactly when it was marked or is unhealthy |
| PoolHealth.SweepsIdleEntries | backend/internal/kafkaconn/consume_pool.go:186-198 | a sweep keeps exactly the slots in use and those used within the last two minutes |
| ConfirmStore.ItemsAreLiveTokens | backend/internal/mcp/confirm.go:82-121 | after any history the table holds exactly the tokens issued and not used or pruned since, with the deadline of the TTL in force at issue |
| ConfirmStore.ConfirmsIff | backend/internal/mcp/confirm.go:106-121 | confirmed, unknown and expired, each exactly characterised by the history |
| ConfirmStore.UnusedTokenConfirms | backend/internal/mcp/confirm.go:82-121 | with a clock that never goes back an unused unexpired token with unchanged arguments confirms |
| ConfirmStore.ConsumedTokenIsGone | backend/internal/mcp/confirm.go:106-121 | one attempt spends a token whatever its outcome, until it is issued again |
| ConfirmStore.Confirms.SetTTL | backend/internal/mcp/confirm.go:55-62 | a TTL that is not positive changes nothing |
| ConfirmStore.Confirms.IssueToken | backend/internal/mcp/confirm.go:82-90 | prunes, then binds the token to the arguments and the deadline |
| ConfirmStore.Confirms.Prune | backend/internal/mcp/confirm.go:93-99 | removes exactly the expired tokens |
| ConfirmStore.Confirms.ConsumeToken | backend/internal/mcp/confirm.go:106-121 | answers unknown, expired, mismatch or ok, and removes the token in every case |
| TwoPhase.CanonicalInjective | backend/internal/mcp/server.go:793-1020 | the hashed form tells any two requests apart, also across the three tools |
| TwoPhase.GuardPassesIff | backend/internal/kafkaconn/policy.go:43-90 | a confirmed deletion passes the name guard exactly when no topic is named twice |
| TwoPhase.EveryWriteHasItsOwnPreview | backend/internal/mcp/server.go:822-1046 | in every run of concurrent calls there is an injection from writes to earlier previews of the identical request, whose token was unexpired |
| TwoPhase.MatchingTokenWrites | backend/internal/mcp/server.go:989-1025 | in every run a call with the token and arguments of an earlier preview is confirmed if no step since presented or drew that token, none was later than the call and the TTL has not run out, and it writes exactly when its connection is known, not read-only, allows deletions if it deletes, and names no topic twice |
| TwoPhase.WrittenUnderItsPolicy | backend/internal/mcp/server.go:1027-1046 | every write of a run was made by one step while the policy of its connection, set by an earlier step and not changed since, was not read-only and, for a deletion, allowed deletions; no topic was named twice, and a connection without a policy is never written |
| TwoPhase.ExecutesIff | backend/internal/kafkaconn/service.go:308-346 | the gate the service applies to a request, stated on the policy recorded for its connection |
| TwoPhase.Server.ExecuteWrite | backend/internal/kafkaconn/topics.go:190-199 | the service writes exactly when the connection is known and not read-only, allows deletions if the request is one, and no topic is named twice |
| TwoPhase.Server.CallTool | backend/internal/mcp/server.go:989-1046 | gate on the policy recorded for the connection, then preview or consume, then execute: the reply, the token store and the writes in every case |
| CursorStore.PutKeepsInv | backend/internal/mcp/cursor.go:75-101 | after a Put under a new id the order is duplicate-free, lists exactly the sessions and fits the capacity, and the session just put is present |
| CursorStore.NextKeepsInv | backend/internal/mcp/cursor.go:147-185 | reading, expiring and touching keep the same |
| CursorStore.SetCapacityKeepsInv | backend/internal/mcp/cursor.go:130-141 | shrinking keeps the same |
| CursorStore.AnswersTheRequest | backend/internal/mcp/cursor.go:147-185 | an unknown id, an expired session (which is removed), or the page from the offset asked for, or from where the session stands, with as many rows as asked for, 20 if that is out of range, while rows are left |
| CursorStore.ReadableForItsTtl | backend/internal/mcp/cursor.go:75-162 | a session just put answers until its TTL has run out and not after, from the first of the first maxRows rows |
| CursorStore.PutKeepsInvIff | backend/internal/mcp/cursor.go:75-101 | a Put keeps the invariant exactly when the id drawn is not that of a live session; if it is, the order lists it twice, or, in a full store with that id at the front, the session just put is the one evicted |
| CursorStore.OthersUntouched | backend/internal/mcp/cursor.go:147-185 | operations on other sessions leave a session that survives them as it was |
| CursorStore.ReadingOnReturnsEveryRow | backend/internal/mcp/cursor.go:147-185 | continue-reads interleaved with any operations on other sessions return exactly the rows between the offsets, in order |
| CursorStore.ChunksAreConsecutive | backend/internal/mcp/cursor.go:147-185 | each chunk has at most 20 rows and starts where the last ended; Done marks exactly the chunks that reach the end, empty ones behind it included |
| CursorStore.PagingDeliversThePutRows | backend/internal/mcp/cursor.go:75-185 | from the Put to the first Done the chunks add up to exactly the first maxRows rows |
| CursorLru.StepRefines | backend/internal/mcp/cursor.go:75-221 | every operation on the order list does what the abstract map with last-use stamps does |
| CursorLru.FirstIsLeast | backend/internal/mcp/cursor.go:96-99 | the front of the order is the one least recently used session |
| CursorLru.EveryRunRefinesLru | backend/internal/mcp/cursor.go:55-221 | every run refines the LRU map and never exceeds the capacity |
| CursorTable.Cursors.PutRows | backend/internal/mcp/cursor.go:75-101 | the store after a Put on maps and the shared backing array |
| CursorTable.Cursors.CompactLive | backend/internal/mcp/cursor.go:188-198 | the in-place compaction keeps exactly the live ids in order |
| CursorTable.Cursors.Prune | backend/internal/mcp/cursor.go:188-198 | drops exactly the expired sessions from map and order |
| CursorTable.Cursors.RemoveFirst | backend/internal/mcp/cursor.go:201-209 | shifts the array over the first occurrence and changes nothing else |
| CursorTable.Cursors.Append | backend/internal/mcp/cursor.go:95-95 | appends in place or in a larger array |
| CursorTable.Cursors.Trim | backend/internal/mcp/cursor.go:96-99 | evicts from the front down to the capacity |
| CursorTable.Cursors.SetTTL | backend/internal/mcp/cursor.go:119-126 | a TTL that is not positive changes nothing |
| CursorTable.Cursors.ChangeCapacity | backend/internal/mcp/cursor.go:130-141 | sets a positive capacity and evicts down to it |
| CursorTable.Cursors.NextRows | backend/internal/mcp/cursor.go:147-185 | the answer and the new store: missing, expired, or a page with the session touched and advanced |
| CursorTable.Cursors.ReadPage | backend/internal/mcp/cursor.go:157-184 | clamps size and offset as the specification of a page does |
| Records.ResumeOffsetsAreMaxima | backend/internal/kafkaconn/messages.go:1045-1053 | per partition the reported offset is one more than the greatest one scanned, for exactly the partitions scanned |
| ScanLoop.ScanFetch | backend/internal/kafkaconn/messages.go:541-600 | one poll's records extend count, matches, kept prefix and offsets |
| ScanLoop.ConsumeMessages | backend/internal/kafkaconn/messages.go:415-617 | for the limit given, or 100: never scans more than maxScan, polls only while needed, for 256 records or what may still be scanned, returns exactly the first limit matches in scan order with the offsets of all scanned, commits those offsets when asked to, fails exactly when a poll or the commit failed, and always says there may be more |
| ScanLoop.MaxScan | backend/internal/kafkaconn/messages.go:1616-1628 | a positive bound is kept; the default is the larger of 1000 and ten times the limit |
| ScanLoop.BatchSize | backend/internal/kafkaconn/messages.go:1631-1640 | a poll asks for what remains, but for at least 1 and at most 256 records |
| ScanLoop.ResumeIsLosslessIff | backend/internal/kafkaconn/messages.go:541-617 | resuming neither skips nor repeats a match exactly when no more matched than the limit, which the result shows |
| ScanLoop.SomeResumeSkips | backend/internal/kafkaconn/messages.go:582-585 | two matches in one poll and a limit of one: the second is neither returned nor ahead |
| ScanLoop.ReportedOffsetsAlone | backend/internal/kafkaconn/messages.go:526-617 | a caller that passes only the reported offsets keeps exactly the unscanned records of partitions already reached |
| ScanLoop.ChainIsLossless | backend/internal/kafkaconn/messages.go:526-617 | over any number of resumed scans every match is returned once or still ahead |
| Stream.Ring.Append | backend/internal/kafkaconn/stream.go:87-93 | the circular array holds the last messages up to its capacity |
| Stream.Ring.AppendBatch | backend/internal/kafkaconn/stream.go:96-100 | the same for a batch |
| Stream.Ring.Page | backend/internal/kafkaconn/stream.go:109-127 | that slice of what is kept, with out-of-range offsets handled |
| Stream.EverySessionIsConsistent | backend/internal/kafkaconn/stream.go:496-642 | however a session runs: flushed plus pending are the matches in scan order, totals count them, fewer than 50 pending, the ring holds the last flushed ones, emitted are exactly those flushed while unpaused |
| Stream.NextFlush | backend/internal/kafkaconn/stream.go:518-642 | after any input the next event flushes exactly when the timer fires or the session ends with matches pending, or a record makes them 50; the flush has all pending matches, the totals up to that event and the pause flag in force |
| Stream.TimerFlushesAll | backend/internal/kafkaconn/stream.go:518-532 | when the timer has just fired, or the session has ended, nothing is pending and every match so far has been flushed in order |
| Stream.PausedIsLastSet | backend/internal/kafkaconn/stream.go:434-443 | the pause flag is that of the last pause or resume, and off if there was none |
| Stream.StreamSession.HandlePoll | backend/internal/kafkaconn/stream.go:534-613 | one poll: a failed one changes nothing, any other has all its records scanned in order, so that the scanned records are those before and those of the poll |
| StreamLoop.ScansTheDeliveries | backend/internal/kafkaconn/stream.go:518-613 | in every interleaving with the timer and the user, what has been scanned and what is waiting are, in order, what the polls that did not fail brought |
| StreamLoop.FlushesTheDeliveries | backend/internal/kafkaconn/stream.go:518-642 | when nothing waits, flushed and pending messages are the matches of what those polls brought |
| StreamLoop.NothingLostIff | backend/internal/kafkaconn/stream.go:534-557 | when nothing waits, the matches of everything polled have been seen in order exactly when no failed poll brought one |
| StreamLoop.SomePollLosesAMatch | backend/internal/kafkaconn/stream.go:534-548 | a session that ends without having seen the match a failed poll brought |
| Stream.WellFlushedStep | backend/internal/kafkaconn/stream.go:617-642 | every flush has 1 to 50 messages and reports the number matched up to its end |
| Stream.StreamSession.FlushBatch | backend/internal/kafkaconn/stream.go:617-642 | an empty batch does nothing, else ring, totals and emitter get it and it is emptied |
| Stream.StreamSession.Handle | backend/internal/kafkaconn/stream.go:518-613 | one event changes the session as specified; after the timer and the end nothing is pending |
| Stream.StreamSession.Run | backend/internal/kafkaconn/stream.go:518-613 | the loop over any events; after the timer and the end every match has been flushed |
| Stream.StreamSession.StreamMessages | backend/internal/kafkaconn/stream.go:327-346 | the page of the last flushed messages, 100 when no limit is given |
| Stream.PageElements | backend/internal/kafkaconn/stream.go:109-127 | a page has the elements from the offset on, as many as the limit allows |
| PropertiesText.SplitLogicalLines | backend/internal/kafkaconn/props.go:63-88 | the loop joins physical lines as specified |
| PropertiesText.LogicalLinesEndEven | backend/internal/kafkaconn/props.go:63-88 | whatever chain of continuations, no logical line ends in an unpaired backslash, and a line continues exactly when its own backslashes are odd in number |
| PropertiesText.FoldingIsInvisible | backend/internal/kafkaconn/props.go:61-88 | folding a line behind an even run of backslashes and before a character that is not blank does not change what is parsed, lone backslashes on a line included |
| PropertiesText.SplitPropertyLine | backend/internal/kafkaconn/props.go:90-124 | key up to the first unescaped separator, value behind it, both decoded |
| PropertiesText.DecodeEscapedString | backend/internal/kafkaconn/props.go:126-144 | the loop decodes as specified, also on its path without backslashes |
| PropertiesText.ParseJavaProperties | backend/internal/kafkaconn/props.go:45-59 | comments and empty keys are skipped, later keys win |
| PropertiesForms.CommentsAreSkipped | backend/internal/kafkaconn/props.go:45-59 | a blank line, and one that starts with a number sign or an exclamation mark behind any blanks, says nothing |
| PropertiesForms.EverySeparatorReads | backend/internal/kafkaconn/props.go:92-124 | key and value are read alike whether an equals sign, a colon or blanks alone stand between them, whatever blanks stand around them |
| PropertiesForms.OtherEscapes | backend/internal/kafkaconn/props.go:146-169 | the four letter escapes, any other escaped ASCII character for itself, and an invalid Unicode escape kept as it is |
| PropertiesForms.SilentLinesAreInvisible | backend/internal/kafkaconn/props.go:45-59 | a comment or blank line between any whole lines does not change what is parsed |
| PropertiesForms.LastLineWins | backend/internal/kafkaconn/props.go:45-59 | a key is read exactly when a line has it, with the value of the last such line |
| PropertiesForms.ReturnsAreInvisible | backend/internal/kafkaconn/props.go:63-71 | carriage returns at the line ends change nothing, continued lines included |
| PropertiesForms.LastSlashIsDropped | backend/internal/kafkaconn/props.go:63-88 | a backslash at the end of the text continues nothing and is dropped |
| PropertiesPrint.LineParses | backend/internal/kafkaconn/props.go:92-124 | a line in the store format is read as its own key and value |
| PropertiesPrint.ValueLoads | backend/internal/kafkaconn/props.go:128-169 | a value is read back in UTF-8 exactly when it is in the basic plane and, unguarded, does not end in a space |
| PropertiesPrint.UnicodeEscapeDecodes | backend/internal/kafkaconn/props.go:161-195 | every four-digit escape decodes to the UTF-8 of its unit |
| PropertiesPrint.Utf8Injective | backend/internal/kafkaconn/props.go:163-163 | texts with the same UTF-8 are the same, so keys stay apart |
| PropertiesPrint.PrintReadsBackIff | backend/internal/kafkaconn/props.go:45-195 | for every list of properties with distinct keys, parsing the printed text gives the map back exactly when keys are non-empty, all texts are in the basic plane, and (in Java's own form) no value ends in a space |
| WireFrame.EncodeWireFrame | backend/internal/kafkaconn/schema.go:983-989 | the buffer filled in place is magic byte, id in big-endian and payload |
| WireFrame.UnpacksExactlyFrames | backend/internal/kafkaconn/schema.go:983-1000 | unpacking gives an id and a payload exactly for the frame packed from them |
| WireFrame.BigEndianPlaces | backend/internal/kafkaconn/schema.go:983-989 | the four bytes are the id modulo 2 to the 32, most significant first |
| WireFrame.UvarintReadsBack | backend/internal/kafkaconn/schema.go:1533-1546 | a 64-bit value reads back from its varint whatever follows, never overflowing |
| WireFrame.UvarintIsShortest | backend/internal/kafkaconn/schema.go:1530-1536 | seven bits a byte, least significant first, all but the last marked, none superfluous |
| WireFrame.EncodeMessageIndexes | backend/internal/kafkaconn/schema.go:1530-1536 | the loop builds the segment |
| WireFrame.SegmentStrips | backend/internal/kafkaconn/schema.go:1530-1553 | stripping as many varints as were written gives the values and the exact payload |
| WireFrame.StripMessageIndexes | backend/internal/kafkaconn/schema.go:1540-1553 | the loop strips as specified, and nothing for a depth that is not positive |
| WireFrame.StripsExactly | backend/internal/kafkaconn/schema.go:1540-1553 | stripping succeeds exactly on payloads that start with that many complete varints of at most 64 bits, and leaves exactly what follows |
| WireFrame.FramedPayloadComesBack | backend/internal/kafkaconn/schema.go:983-1553 | id and payload come back through frame and segment for every 32-bit id and every list of 64-bit indexes |
| WireFrame.SiblingIndex | backend/internal/kafkaconn/schema.go:1510-1526 | the search by full name finds where the message is declared |
| WireFrame.MessageIndexPath | backend/internal/kafkaconn/schema.go:1490-1506 | climbing to the file and reversing gives a path of the message |
| WireFrame.PathIsFollowedIff | backend/internal/kafkaconn/schema.go:1490-1526 | a path belongs to a message exactly when following it down the file reaches that message |
| WireFrame.IndexesLeadToTheMessage | backend/internal/kafkaconn/schema.go:1490-1553 | the indexes written before a payload, read back and followed, reach the message, and no other message has them |
| MessageExport.CsvReadsBack | frontend/src/lib/messageExport.ts:8-43 | an RFC 4180 reader recovers every table of two or more columns from what is written for it |
| MessageExport.SerializeMessagesToCsv | frontend/src/lib/messageExport.ts:25-43 | the loop writes the table, and the reader gets header and all seven fields of every message back |
| MessageExport.EachValueUnderItsName | frontend/src/lib/messageExport.ts:13-43 | in the table that is written, the value of each message named by a column stands in that column |
| MessageExport.HeadersAreListed | frontend/src/lib/messageExport.ts:15-22 | none, or name=value with a semicolon and a space between them, in their order |
| MessageExport.QuotedIff | frontend/src/lib/messageExport.ts:8-11 | a field is changed exactly when it has a quote, a comma or a line break |
| MessageExport.TsvEscapeIsCharacterwise | frontend/src/lib/messageExport.ts:47-49 | the four chained replacements are one character-wise escape, leave no tab or line break, and can be undone |
| MessageExport.TsvReadsBack | frontend/src/lib/messageExport.ts:47-70 | splitting and unescaping recovers every table |
| MessageExport.SerializeMessagesToTsv | frontend/src/lib/messageExport.ts:52-70 | the same for the loop that writes it |
| JsonPath.ParseJsonPath | backend/internal/kafkaconn/messages.go:1316-1354 | the loops parse as specified, with every rejection |
| JsonPath.ParsePart | backend/internal/kafkaconn/messages.go:1328-1351 | the loop that consumes one segment |
| JsonPath.JsonPathValue | backend/internal/kafkaconn/messages.go:1269-1302 | the filter's answer: raw data for a blank path, else the text of the value the parsed steps reach |
| JsonPath.JsonPathLookup | backend/internal/mcp/digest.go:106-139 | the digest's answer: the text of the value its own segments reach |
| JsonPath.LookupSegment | backend/internal/mcp/digest.go:114-137 | one round of that loop |
| JsonPath.NestTellsStepsApart | backend/internal/kafkaconn/messages.go:1281-1300 | for any steps there is a value in which no other steps reach the leaf |
| JsonPathAgreement.SameValuesIffSameSteps | backend/internal/mcp/digest.go:106-153 | the evaluators find the same in every value exactly when they take the same steps |
| JsonPathAgreement.DigestRejectsIff | backend/internal/mcp/digest.go:114-137 | the digest finds nothing in any value exactly when a segment is empty or has a negative index |
| JsonPathAgreement.SegmentReadings | backend/internal/mcp/digest.go:142-153 | with one index both read a segment the same; with more the digest reads it as one key |
| JsonPathAgreement.AnswersAgreeIff | backend/internal/kafkaconn/messages.go:1269-1354 | on every path that is not blank the two answers are the same for all data, except where both find null, exactly when the filter accepts the path, no segment has two indexes and no space follows the dollar, or the filter rejects it and a segment of the digest is empty or has a negative index |
| JsonPathAgreement.NullNeverAgrees | backend/internal/kafkaconn/messages.go:1356-1373 | where both find null the answers differ, so they are the same for all data exactly on paths that both reject |
| JsonPathRoot.RootAnswersAgreeIff | backend/internal/kafkaconn/messages.go:1270-1272 | at a blank path or the dollar, for a text that decodes to a value: a string is never answered alike, null and booleans are when no blank surrounds them, a number when written as it prints, a container when written as it is encoded |
| JsonPathExamples.IndexThatIsNoNumber | backend/internal/mcp/digest.go:142-153 | at `a[x]` the filter answers nothing and the digest finds a key of that name |
| JsonPathExamples.TwoIndexes | backend/internal/mcp/digest.go:142-153 | at `a[0][1]` the filter takes three steps and the digest one |
| JsonPathExamples.SpaceInKey | backend/internal/mcp/digest.go:107-108 | at `$ a` the space belongs to the filter's key and not to the digest's |
| JsonPathExamples.RootString | backend/internal/kafkaconn/messages.go:1270-1272 | at `$` the filter gives a string with its quotes and the digest without |
| JsonPathRender.RenderParsesIff | backend/internal/kafkaconn/messages.go:1316-1354 | printed steps parse to themselves exactly when keys are non-empty without dot or opening bracket, indexes fit 64 bits, and the last key does not end in a space |
| JsonPathRender.ParsedIsRenderable | backend/internal/kafkaconn/messages.go:1316-1354 | whatever the path, the parser produces only such steps |
| JsonPathRender.ParseRenderParse | backend/internal/kafkaconn/messages.go:1316-1354 | parsing, printing and parsing again changes nothing |
| Histogram.InExactlyOneBucket | backend/internal/mcp/digest.go:81-99 | the clamp never fires and a timestamp lies in the bucket it is counted in and in no other |
| Histogram.BuildTimeHistogram | backend/internal/mcp/digest.go:60-102 | 1 to 12 buckets, every timestamp in exactly one, each count exact, counts adding up |
| Histogram.BucketShape | backend/internal/mcp/digest.go:73-94 | twelve buckets or one a millisecond, adjoining, from the first timestamp, of the least width that reaches the last one, and ending right behind it |
| Histogram.InvertedIff | backend/internal/mcp/digest.go:86-91 | every bucket ends at or after its start, unless the span exceeds 12 and one less than it has quotient and remainder by 12 adding up to less than 10; no span over 109 does |
| Histogram.SpanOf13 | backend/internal/mcp/digest.go:86-91 | a span of 13 has an inverted empty last bucket |
| Groups.LessIsAlphabetical | backend/internal/mcp/digest.go:227-232 | the recursive comparison is the order in which a proper prefix, or the smaller character at the first difference, comes first |
| Groups.TopGroups | backend/internal/mcp/digest.go:219-242 | keeps as many groups as the limit allows, with their counts; a dropped group has a smaller count than any kept one, or the same count and a name that comes later |
| Histogram.KeyGroupIs | backend/internal/mcp/digest.go:281-288 | a key with a character that is no space is its own group, a key of bytes without text is "(binary key)", and any other message counts as without a key |
| Histogram.TalliesCountMessages | backend/internal/mcp/digest.go:281-294 | the tally of a key or a partition is the number of messages with it; so is that of a positive timestamp, and others have none |
| Histogram.AggregateCounts | backend/internal/mcp/digest.go:279-312 | the tables of partitions and keys are the largest groups of the exact tallies, keys and null keys add up to all messages, and so do the buckets and the messages without a timestamp |
| Digest.FieldStatistics | backend/internal/mcp/digest.go:274-321 | for every field the number of its distinct values, and the largest groups of the exact tally of the values the lookup finds |
| Digest.FieldTalliesCountMessages | backend/internal/mcp/digest.go:178-196 | the tally of a value of a field is the number of messages in which the lookup finds it |
| Digest.AggregateDigest | backend/internal/mcp/digest.go:269-321 | both together |
| StdioRuns.EveryRunKeepsInv | backend/internal/mcp/stdio.go:501-535 | in every interleaving, failed connects included, the eviction loop never indexes an empty slice, both tables have the same keys, at most 8, all in the order, and no key whose connect fails is ever open |
| StdioPool.EvictsTheFirstPooled | backend/internal/mcp/stdio.go:508-517 | a full pool gives up exactly one connection, the first in the order that is still pooled |
| StdioPool.RegisterKeepsInv | backend/internal/mcp/stdio.go:503-521 | the first lock region pools the key and drops at most that one |
| StdioPool.ForgetKeepsInv | backend/internal/mcp/stdio.go:528-531 | the second lock region keeps the invariant |
| StdioRuns.TidyStepIff | backend/internal/mcp/stdio.go:503-531 | in a pool without stale entries a step leaves one exactly when it is a failed connect of a pooled key |
| StdioRuns.StaysTidyIff | backend/internal/mcp/stdio.go:501-535 | the order lists exactly the pooled keys, each once, all through a run exactly when no failed connect forgets a pooled key; it then has at most 8 entries |
| StdioRuns.OrderBound | backend/internal/mcp/stdio.go:501-535 | in every run the order is at most as long as the pooled keys and the failed connects together |
| StdioRuns.RegisterIsFifo | backend/internal/mcp/stdio.go:509-520 | without stale entries the oldest registration is the one evicted |
| StdioRuns.FailuresGrowTheOrder | backend/internal/mcp/stdio.go:526-533 | n failed connects of a key leave n entries in the order of an empty pool |
| StdioRuns.CleanStepIff | backend/internal/mcp/stdio.go:501-535 | a state is clean when what is open and unpooled is about to be closed and what is pooled and not open is being connected; from a clean state exactly these steps lead to one that is not: closing a pooled key nobody is connecting, and connecting a key neither pooled nor about to be closed |
| StdioRuns.StaysCleanIff | backend/internal/mcp/stdio.go:501-535 | a run is clean throughout exactly when it takes neither step, and once its requests are done the open connections are the pooled keys |
| StdioRuns.SomeRunLeaks | backend/internal/mcp/stdio.go:522-534 | a run from the start to an open connection that is neither pooled nor about to be closed |
| StdioRuns.SomeRunClosesAPooledKey | backend/internal/mcp/stdio.go:522-524 | a run from the start in which a late close hits a key that was registered again |
| StdioPool.StdioServer.EvictOldest | backend/internal/mcp/stdio.go:508-517 | the loop terminates with the specified state and victims |
| StdioPool.StdioServer.RegisterKey | backend/internal/mcp/stdio.go:503-521 | the first lock region on the maps and the order |
| StdioPool.StdioServer.PooledConnectionId | backend/internal/mcp/stdio.go:501-535 | a call that nothing interrupts keeps pooled keys and open connections equal, whether its connect fails or not |
| StdioPool.StdioServer.PoolHas | backend/internal/mcp/stdio.go:491-496 | the reverse table answers exactly as the table of pooled keys would |

## Left out

- Network clients, authentication, schema registries and ZooKeeper: foreign calls. What they answer is a parameter.
- Decoding and decompressing record values, regular expressions and field comparisons: filters and rendering are arbitrary functions in the scan and the stream.
- The diagnostic set of partitions a pooled client has seen.
- Session registry of the stream (limits, idle eviction), its retry delays and status calls.
- Intent store, settings, request dispatch, tool schemas and response envelopes. A response that is too large drops rows after the cursor has advanced, so paging is stated for the cursor store and not for the tool call.
- A connect of the inline pool fails on invalid parameters alone; which parameters those are is a parameter, as a function of the key.
- SHA-256 is taken to be injective: a parameter hash is the list of canonical fields itself, field names being an enumeration.
- Drawn tokens and cursor ids are parameters; cursor ids are assumed new except where a collision is the point. Entry identities and clients in the consumer pool are fresh.
- Map iteration order is arbitrary wherever the program ranges over a map.
- Timestamps, offsets and counters are unbounded integers. 64-bit wrap-around is modelled for message indexes, array indexes of JSON paths and the frame's 32-bit id only.
- Protobuf descriptors are trees whose sibling names differ, as the compiler enforces; agreement of the index segment with other vendors' formats is not claimed.
- The headers column of an export is one text; splitting it into headers again is not claimed, since header values may contain its separators.
- MessageExport.SerializeMessagesToCsv: the JSON export and the decoding of the value text are not modelled.
- SchemaDiff.SchemaTextDiff: says that the hunks are a minimal patch, not which of several minimal patches is chosen.
- The sample rows and the cursor of a digest.
- JSON paths are valid Unicode. The encoding of containers is a parameter, taken to start with a bracket or a brace; numbers are the texts both evaluators print, by a parameter. How a container's text decodes is not modelled beyond its first character.
- Merging parsed properties into a connection profile, and the JAAS string.
- StdioPool.StdioServer.PooledConnectionId: one call that nothing interrupts; what interleaved calls keep is stated by `StaysCleanIff` and `EveryRunKeepsInv`.

# Kafkito in Dafny

A model of the paging engine of kafkito, a web tool for Kafka, with the message
comparison, connection and rate-limiting logic around it, and proofs about it.

- **Reading** (`Records`, `RecordSource`, `ScanRun`): a topic is a set of records,
  its broker an object that answers polls as it likes and remembers its answers. A
  partition's records come in offset order and without a gap; how far each gets,
  which polls are empty and which fail is open. Hypotheses about a run are hypotheses about those
  answers, such as "no two polls in a row were empty".
- **Searching** (`TimeMerge`, `SearchState`, `SearchScan`, `SearchWalk`,
  `ParseErrors`, `Search`, `SearchCall`, `SearchChain`): the budgeted, resumable
  search. Its cursors define what is behind them; messages and counters are those of
  exactly that, so that chains of calls neither lose nor repeat anything.
- **Paging** (`ConsumeState`, `ConsumeTails`, `ConsumePages`, `Consumer`, `ConsumeCall`,
  `ConsumeChain`): pages of the newest or oldest records with fair-share windows,
  refills and cursors; the specification is to sort the range and take the first.
  `TimeRange` relates offset bounds to times, for searches, pages and copies.
- **Copying** (`CopyPages`, `CopyRun`, `TopicCopy`, `Payload`, `Base64`): the copy of a topic on top of
  forward paging, and the round trip of the payloads.
- **Comparing** (`EditDistance`, `Frontier`, `TextDiff`, `DiffSegments`; `Json*`,
  `NumberText`, `NumberForm`, `NumberLimits`, `CanonicalJson`, `CanonicalLimits`; `Fingerprint`):
  line diff, canonical JSON, fingerprint input.
- **Connections and limits** (`AdhocState`, `AdhocSafety`, `AdhocRegistry`,
  `ConfigDigest`; `KeySource`; `TokenBucket`, `RateLimiter`): critical sections are
  atomic steps, and safety is proved over every interleaving.
- `Options`, `Sets`, `Sorting` and `Utf8Text` are shared.

The matcher is any function from records to match, no match or parse error. Go's
map order is left open wherever the code ranges over a map. "Ordered" means that
timestamps do not decrease along each partition.

## Model

| member | source | states |
|---|---|---|
| RecordSource.FetchClient.PollFetches | internal/kafka/record_source.go:136-160 | what a poll may answer: records of consumed partitions, each partition's in offset order and without a gap from its fetch position, how far arbitrary; or an error that moves nothing. The broker remembers every answer |
| RecordSource.RecordScan.Poll | internal/kafka/record_source.go:85-122 | one turn of the scan loop: the batch and the marked cursors are those of what was fetched; a chunk is given up only after `drainAfter` empty polls in a row; every turn ends a chunk, fetches a record or uses up one of those polls |
| RecordSource.RecordScan.InRange | internal/kafka/record_source.go:174-189 | keeps exactly the fetched data records inside the open chunks, in fetch order, and marks a chunk done exactly when a record at or past its last offset came |
| RecordSource.RecordScan.ForceDone | internal/kafka/record_source.go:222-228 | marks exactly the open chunks done and forced |
| RecordSource.RecordScan.Exhausted | internal/kafka/record_source.go:194-202 | exactly the partitions whose last chunk, or a forced one of a backward walk, is done |
| RecordSource.RecordScan.ReadToEnd | internal/kafka/record_source.go:232-240 | exactly the drained partitions whose chunk was not forced |
| RecordSource.RecordScan.Advance | internal/kafka/record_source.go:244-269 | drops finished partitions and sends the others to the chunk right below, with the client seeking along |
| RecordSource.RoundShrinks | internal/kafka/record_source.go:85-122 | a round lowers the measure of open offsets, unfetched records and remaining empty polls: a scan of a broker that answers ends |
| ScanRun.ScanRecords | internal/kafka/record_source.go:85-122 | a whole scan is a sequence of batches each of which fits what came before; it drains every range unless it is stopped or a poll failed; nothing is given up without `drainAfter` empty polls in a row |
| ScanRun.YieldsOnce | internal/kafka/record_source.go:85-122 | over a whole scan no record is yielded twice, and only data records of the ranges are |
| ScanRun.EndedIsUnforced | internal/kafka/record_source.go:194-240 | a partition is reported as ended iff it was drained and none of its chunks was given up; then the chunks reach the start of its range |
| ScanRun.ScanIsExact | internal/kafka/record_source.go:85-122 | of a partition that ended, the scan yields exactly the data records of its range, each once |
| ScanRun.ChunksTile | internal/kafka/record_source.go:244-269 | the finished chunks tile what lies above the floor: an offset is in exactly one of them iff it is at or above it |
| ScanRun.RecordsOfFinishedChunk | internal/kafka/record_source.go:85-122 | a record yielded along with a finished chunk of its partition belongs to that chunk |
| Records.SortedInFields | internal/kafka/record_source.go:281-291 | a sorted page, in fields: oldest first no time falls, at one time no partition falls, and in one partition offsets rise; newest first no time rises, then partitions as before, then offsets fall |
| Records.FirstInFields | internal/kafka/record_source.go:281-291 | the same comparison holds of every record on a page against every one left out |
| TimeMerge.MergeByTime | internal/kafka/search.go:911-941 | the greedy merge picks the same matches as taking `limit` times the best front record, for any map order |
| TimeMerge.KeptIsFirst | internal/kafka/search.go:907-941 | under timestamps ordered within partitions the greedy merge is a sort: nothing left out ranks before anything kept |
| TimeMerge.KeptIgnoresTails | internal/kafka/search.go:660-682 | matches behind `limit` others of their partition never change what is kept, ordered or not |
| TimeMerge.PageCut | internal/kafka/search.go:886-895 | gives every partition with a match left out the offset of the first such match, and no other partition |
| TimeMerge.PageMerge | internal/kafka/search.go:898-906 | the kept matches, min(limit, number of matches) of them, in the page order: by time, then partition, then offset in reading direction |
| SearchCall.WithDefaults | internal/kafka/search.go:335-351 | an unset limit is 50 and at most 500, an unset budget 10000 and at most 500000; the rest stays |
| SearchCall.ResolveSearchRange | internal/kafka/search.go:232-248 | an offset is in a partition's range iff it is between the topic's first and end offset, at or above the lower and below the upper time bound where set, and on the unread side of the cursor; no range is empty |
| SearchCall.SearchChunk | internal/kafka/search.go:331-333 | the largest chunk of which every partition's fits into the budget together, but at least 1 and at most 4000; one record less than such a chunk of each is less than the budget |
| Search.CutBatch | internal/kafka/search.go:395-421 | cuts a batch to the records read and drops the end and chunk reports that the cut made untrue |
| SearchScan.SearchScan.Visit | internal/kafka/search.go:511-546 | counts the record once, matches it and keeps every invariant of the running search: matches, frontiers, pending and confirmed counts, lowest and highest positions, parse errors |
| SearchScan.SearchScan.Finish | internal/kafka/search.go:552-582 | records which partitions ended and lowers the frontier over finished chunks, never past one that was given up |
| SearchScan.SearchScan.ConfirmedMatches | internal/kafka/search.go:589-601 | exactly the matches that may be reported: those at or above the frontier, or in gap-free order going forward |
| SearchScan.SearchScan.PageLast | internal/kafka/search.go:752-764 | the cached last message of the page always equals a fresh computation |
| SearchScan.SearchScan.Settled | internal/kafka/search.go:703-745 | true iff the page is full and every partition is parked or read out; exactly the partitions whose next record ranks behind the page's last one, or with a page of their own matches, are parked, and parking keeps the page that of all matches |
| SearchState.OutrankedPage | internal/kafka/search.go:703-745 | a page out of confirmed matches is the page out of all matches of the range, unread ones included, when everything unconfirmed is outranked, under ordered timestamps |
| SearchScan.SearchScan.PageFull | internal/kafka/search.go:668-682 | true iff every partition holds a full page of its own matches, is read out or was given up; then nothing still obtainable changes the page, whatever the timestamps |
| SearchScan.SearchScan.Continuation | internal/kafka/search.go:785-806 | the cursors lie in the ranges, everything behind them was seen, the reportable matches are exactly the matches behind them, and more is left iff a cursor is inside its range |
| SearchScan.SearchScan.Page | internal/kafka/search.go:823-877 | after the cut the messages are exactly the matches behind the returned cursors, min(limit, confirmed) of them in page order, and scanned, matched and parse errors count exactly what is behind the cursors |
| SearchState.KeptIffBehind | internal/kafka/search.go:823-895 | moving the cut partitions' cursors back leaves a match on the page iff it is behind its cursor |
| ParseErrors.KeepError | internal/kafka/search.go:611-642 | keeps up to the cap the offsets a partition reaches first in reading direction |
| ParseErrors.ListErrors | internal/kafka/search.go:823-877 | lists the offsets behind the cursors partition by partition, ascending, up to the cap |
| ParseErrors.ListIsOfErrors | internal/kafka/search.go:611-642 | what is listed are parse errors behind the cursors, each once, all of them up to the cap |
| Search.RunSearch | internal/kafka/search.go:360-390 | the search ends within its budget; ended by itself its page is complete; ended by its budget it read exactly that many records and, newest first, of every partition not parked the frontier moved or an offset of its first chunk is unread; it stops for a timeout or an error only if a poll failed, and gives nothing up without `drainAfter` empty polls in a row |
| Search.SearchBatch | internal/kafka/search.go:370-387 | one batch: the search goes on only while it has budget left, not every partition has a full page of its own, and, when it may stop at the limit, its page is not settled |
| Search.Conclude | internal/kafka/search.go:380-387 | if the search ends here its page is complete: reading on could not change it; otherwise a partition is neither read out nor full, and if it may stop at its limit the page is not settled |
| SearchWalk.BudgetAdvances | internal/kafka/search.go:360-421 | a budget that runs out in the middle of a batch leaves no partition with its first chunk wholly read and its frontier unmoved |
| SearchCall.CarryDoneCursors | internal/kafka/search.go:770-779 | cursors of partitions no longer searched are carried over and no others |
| SearchCall.SearchMessages | internal/kafka/search.go:267-326 | one call against any broker: its page is a report (messages, counters, listed errors and `more` are those of what lies behind its cursors). If no poll came back empty it gave nothing up: ended by itself it returns the first matches of its whole range, and ended by its budget with something left it moved a cursor. It times out or fails only if a poll failed, and ends on its budget only after reading as many records as that |
| SearchChain.ChainIsExact | internal/kafka/search.go:785-877 | along any chain of calls, whatever ended each of them, the messages are pairwise disjoint and with the counters account for exactly what the last cursors no longer leave to read |
| SearchChain.FinishedChainIsComplete | internal/kafka/search.go:785-877 | when the last call has nothing more, the chain returned every match of the range exactly once and counted every record and parse error once |
| SearchChain.MoreMeansUnread | internal/kafka/search.go:785-806 | a call has more iff offsets of its ranges are in front of its cursors |
| SearchChain.ErrorsListedOnce | internal/kafka/search.go:611-642 | along a chain no parse error offset is listed twice, and only offsets of real parse errors of the range are |
| SearchChain.ChainTerminates | internal/kafka/search.go:328-421 | a chain whose polls all returned records has at most one call more than there are offsets in the first call's ranges: every call but the last moves a cursor |
| SearchChain.CompletePagesSort | internal/kafka/search.go:703-764 | with timestamps ordered within partitions, such a chain of calls that ended by themselves returns the matches of the whole range in sorted order: its pages put together are the first of them |
| ConsumeCall.ConsumeDefaults | internal/kafka/consumer.go:237-252 | an unset limit is 50 and at most 500; an unset position is the time bound if there is one and else the end; the rest stays |
| ConsumeTails.FairShare | internal/kafka/consumer.go:151-159 | the limit for one partition; the least equal share that covers the limit and 8 more for several; 0 when there is nothing to share |
| ConsumeCall.BuildWindows | internal/kafka/consumer.go:436-507 | an offset is in a window's full range iff the options ask for it (in the topic, within the time bounds, from the start offset on, below a backward cursor); no window is empty and each starts with its fair share; it is refused iff an offset position comes without offsets for more than one partition |
| TimeRange.SearchIsTimed | internal/kafka/topic_offsets.go:60-100 | under ordered timestamps, with both bounds looked up in every partition, a search reads exactly the records from the lower time on and before the upper one |
| TimeRange.QueryIsTimed | internal/kafka/consumer.go:436-507 | the same for the first page of a query, and so for a copy |
| TimeRange.AbsentReadsAll | internal/kafka/consumer.go:499-507 | where the lower bound of a partition is absent the range is exact iff no record of it is older |
| Consumer.CollectWindows | internal/kafka/consumer.go:269-299 | reads each window without a gap up to some position. Forward, the page is settled unless a poll failed or two came back empty in a row; backward, the windows are read to their ends unless that happened |
| Consumer.CollectBatch | internal/kafka/consumer.go:269-299 | adds a batch to what each window holds and stops exactly when, after a batch that brought something, the merged page is settled (forward) or every window is complete (backward) |
| Consumer.ForwardPageSettled | internal/kafka/consumer.go:309-329 | true iff the page merged from what was collected is settled: each window is drained or has read past the page's last record |
| ConsumeState.ForwardSettledIsFirst | internal/kafka/consumer.go:309-329 | a settled forward page is the oldest `limit` records of all windows, unread ones included, however far one partition lags, under ordered timestamps |
| Consumer.RefillPlan | internal/kafka/consumer.go:368-395 | plans exactly the windows that might still hold newer records than the page shows, each directly below its window |
| Consumer.RefillWindows | internal/kafka/consumer.go:339-357 | the windows end up as the tails after that many rounds of widening every tail that lacks records, after all four of them (or as many as change anything) when it is complete; it is complete unless disturbed |
| ConsumePages.NeedsIsLacks | internal/kafka/consumer.go:368-395 | the guards of the refill plan, in terms of page and collected records, hold iff the tail lacks records in the log: it holds fewer than the limit, and fewer than the limit rank before the record just below it |
| ConsumeTails.WidensByDensity | internal/kafka/consumer.go:386-393 | a widened tail takes in as many more offsets as the missing records need if they lie as densely as those held, rounded up, or its length and one for each missing when none is held, down to the start of the range |
| ConsumeTails.SufficeIsExact | internal/kafka/consumer.go:339-395 | the tails suffice (none lacks records, none with history below it is empty) iff their newest records are the newest of every ordered log that shows the same in the tails: otherwise there is one with a record below that belongs on the page |
| ConsumeTails.HoleFreeSuffices | internal/kafka/consumer.go:339-395 | for ranges without holes the tails suffice, after one round |
| ConsumeTails.ReadsSameTails | internal/kafka/consumer.go:339-395 | a log that shows the same in the tails gets the same tails |
| ConsumeTails.BlindTailMisses | internal/kafka/consumer.go:372-385 | a failing input: limit 1, one record at time 1 in [0, 1) and one at time 5 at the start of the otherwise empty [0, 10): the tail [1, 10) is empty and not widened, as the page is full |
| ConsumeTails.FourRoundsMiss | internal/kafka/consumer.go:331-357 | a failing input: limit 2, records at offsets 0 and 32 of [0, 33): each round doubles the tail, and after four it is [1, 33) and still lacks a record |
| ConsumeTails.SufficientIsNewest | internal/kafka/consumer.go:339-408 | the newest `limit` records of tails that suffice are those of the full ranges, under ordered timestamps |
| Consumer.MergePage | internal/kafka/consumer.go:398-408 | the first `limit` of all collected records: by time, then partition, then offset in reading direction, among themselves and against every record left out |
| Consumer.WindowsComplete | internal/kafka/consumer.go:415-422 | true iff every window was read to its end or holds as many records as it has offsets |
| ConsumeCall.BuildNextCursor | internal/kafka/consumer.go:531-615 | the cursor of every window at the page boundary, for windows with and without a record on the page; nothing on an empty page or at the end; cursors of partitions without a window carried over |
| ConsumeCall.ConsumeMessages | internal/kafka/consumer.go:183-235 | one page against any broker: sorted, within the limit, from the ranges asked for, with no delivered record beyond the cursor. A backward page that is not partial is the newest `limit` records of the tails the log determines. Under ordered timestamps a page that is not partial is exactly what lies behind its cursor, and it is the first `limit` records of the ranges when it is backward, not partial and its tails suffice, or forward and no poll failed and no two in a row were empty |
| ConsumeCall.PageOrder | internal/kafka/consumer.go:237-252 | a page is newest first iff it reads from the end, which it does without a position and time bound; it holds at most 500 records and no more than asked for |
| ConsumeCall.CompletePageIsExact | internal/kafka/consumer.go:183-235 | a backward page that is not partial is settled iff it is the newest `limit` records of every ordered log that shows the same in its tails |
| ConsumeChain.NeverTwice | internal/kafka/consumer.go:531-615 | a chain of pages delivers no record twice and only records of the first page's range, whatever the timestamps and however pages were cut short |
| ConsumeChain.ChainTerminates | internal/kafka/consumer.go:531-615 | a chain of pages has at most one page more than its range has records |
| ConsumeChain.ChainIsExact | internal/kafka/consumer.go:531-615 | under ordered timestamps, along complete backward pages and all forward pages, the cursors separate exactly the delivered records from the undelivered ones, each delivered once |
| ConsumeChain.FinishedChainIsComplete | internal/kafka/consumer.go:531-615 | when a non-empty page says there is no more, the chain delivered every record of the range exactly once |
| ConsumeChain.SettledPagesSort | internal/kafka/consumer.go:309-408 | pages that are settled (backward with tails that suffice; forward with no failed poll and no two empty ones in a row) put together are the sorted range |
| TopicCopy.FilterPage | internal/server/topic_copy.go:517-549 | sends exactly the reproducible records of a page before the end time, in page order, counts the others as skipped, and marks a partition done iff it reached the end time |
| TopicCopy.SendPage | internal/server/topic_copy.go:517-575 | sends the page's reproducible records and counts the others; what the destination gained is what `copied` counts, on failure too |
| TopicCopy.RunCopy | internal/server/topic_copy.go:405-606 | the pages read are a run of the loop, which is over when the copy is done; it writes and counts what the run read, never copies more than its limit, fails only if a poll or a write failed, and under ordered timestamps is complete iff nothing before the end time is still to come |
| CopyRun.RunAccounts | internal/server/topic_copy.go:405-606 | a run reads no record twice, whatever the timestamps; with ordered ones all records in the time range are read, in order per partition, or still to come |
| CopyRun.RunIsCopy | internal/server/topic_copy.go:405-606 | at any point of a run every reproducible record was sent once and every other one counted once iff no record before the end time is still to come |
| CopyRun.EndedIsCopy | internal/server/topic_copy.go:576-606 | a run that ended neither at its limit nor on empty pages is complete |
| CopyRun.GaveUpIsDisturbed | internal/server/topic_copy.go:498-514 | the empty pages at the end of a run cover all that is still to come, and if that is anything each was disturbed by a failed poll or by two empty ones in a row |
| CopyRun.ThreeBlanksLose | internal/server/topic_copy.go:498-514 | a failing input: the copy of one record that reads three pages of two empty polls each is over and has copied nothing |
| CopyRun.LimitIsKept | internal/server/topic_copy.go:456-464 | a run never sends more records than its limit |
| CopyRun.RunIsBounded | internal/server/topic_copy.go:455-606 | a run has at most three pages per record of its source, and three more |
| CopyPages.EmptyIsDisturbed | internal/server/topic_copy.go:498-514 | an empty page although something is left means that its read was disturbed |
| CopyPages.DropDone | internal/server/topic_copy.go:591-598 | dropping partitions that reached the end time loses no record before it, under ordered timestamps |
| CopyPages.SourceIs | internal/server/topic_copy.go:405-470 | the records a copy is about: the topic's data records between its first and end offsets and the offsets of the time bounds |
| Payload.PayloadRoundTrips | internal/kafka/record_decode.go:269-299 | what decoding shows of an unmasked payload, encoded and parsed for producing, is the same bytes again, null and empty kept apart |
| Payload.RenderingIs | internal/kafka/record_decode.go:269-325 | text in UTF-8 is shown as it is; its first character behind white space, and unless it is cut off its validity, tell whether it is labelled JSON, XML or text. Other bytes are shown as the hexadecimal digits of the first 64, with all of them beside it in base64; nothing as null and no bytes as empty |
| Utf8Text.ValidIsWritten | internal/kafka/record_decode.go:269-299 | bytes are valid UTF-8 iff they are the encoding of some code points, surrogates excluded |
| Utf8Text.WrittenIsFirst | internal/kafka/record_decode.go:269-299 | the encoding of a code point is recognized and read back in front of anything |
| Payload.CopiedOrSkipped | internal/server/topic_copy.go:742-804 | a record is skipped iff it is masked, too large or in Schema Registry form; otherwise key and value are reproduced byte for byte |
| Payload.MatchSeesWhatIsShown | internal/kafka/record_decode.go:219-231 | the text the search matches is the text a reader is shown |
| Payload.TolerantDecodes | internal/kafka/produce.go:240-251 | an encoding of any bytes in any of the three variants is read back, though a decoder of another variant may be the one to read it |
| Base64.DecodesEncoded | internal/kafka/produce.go:240-251 | the decoder of each variant reads back its own encoding |
| Base64.DecodesExactly | internal/kafka/produce.go:240-251 | a decoder reads exactly the texts its variant writes, apart from line breaks and the bits of the last character that belong to no byte |
| Payload.RefusedIs | internal/kafka/produce.go:213-251 | a payload is refused as base64 iff no variant writes it, and an encoding iff it is none of the four |
| Base64.EncodesBits | internal/kafka/produce.go:240-251 | every three bytes are written as four characters of the alphabet that hold their 24 bits, the last ones padded unless the variant has no padding |
| TextDiff.DiffLines | frontend/src/lib/text-diff.ts:31-63 | no result iff the texts are further apart than `maxEdits`; otherwise a diff of the two texts with the fewest possible insertions and deletions. Its lines are those between line breaks: one more on each side than that text has breaks, none holding one; a changed line's deletion comes before its insertion |
| TextDiff.DiffReadsBack | frontend/src/lib/text-diff.ts:31-63 | the unchanged and deleted lines of any diff read back the old text, the unchanged and inserted ones the new text, and no diff costs less than the distance |
| TextDiff.Myers | frontend/src/lib/text-diff.ts:67-135 | the frontier search with its backtrack finds a shortest script within the edits allowed, and fails only if there is none |
| TextDiff.Explore | frontend/src/lib/text-diff.ts:78-103 | finds the end point at exactly the distance, with snapshots of the furthest points of every step, though the frontier runs outside the grid |
| TextDiff.Backtrack | frontend/src/lib/text-diff.ts:105-134 | walking the snapshots back writes a script from the start to the end with exactly that many edits |
| Frontier.ReachedIsNear | frontend/src/lib/text-diff.ts:83-95 | every point of step d, also one outside the grid, costs at most d: the distance of its place clamped to the grid and one per line outside |
| Frontier.NearIsReached | frontend/src/lib/text-diff.ts:83-95 | a place in the grid at most d edits from the start is not beyond the frontier of step d on its diagonal |
| EditDistance.DistIsLcs | frontend/src/lib/text-diff.ts:65-135 | the distance is n + m less twice the longest common subsequence |
| EditDistance.ScriptCosts | frontend/src/lib/text-diff.ts:65-135 | no script from one point to the end costs less than the difference of the distances |
| TextDiff.JoinSplit | frontend/src/lib/text-diff.ts:23-25 | splitting and joining lines gives the text back |
| TextDiff.SplitsAtBreaks | frontend/src/lib/text-diff.ts:23-25 | no line holds a line break, and there is one line more than there are breaks |
| DiffSegments.ToSegments | frontend/src/lib/text-diff.ts:146-171 | the segments put together are the diff; a line is skipped iff it and a neighbour are both further than `context` from every change; no segment is empty and visible ones are never split |
| JsonParser.Parser.Document | frontend/src/lib/canonical-json.ts:51-56 | the parser that walks the text accepts and returns exactly what the recursive reading of the text does |
| JsonParser.Parser.Value | frontend/src/lib/canonical-json.ts:70-88 | reads a value, within the nesting limit, and leaves off right behind it |
| JsonParser.Parser.Object | frontend/src/lib/canonical-json.ts:90-112 | reads the members, later duplicates winning |
| JsonParser.Parser.Array | frontend/src/lib/canonical-json.ts:114-129 | reads the items |
| JsonParser.Parser.StringToken | frontend/src/lib/canonical-json.ts:133-156 | validates and unescapes a string token |
| JsonGrammar.ParseIsExact | frontend/src/lib/canonical-json.ts:51-156 | a text parses to a value iff it is that value written by the grammar of RFC 8259, nested within the limit, with any white space around it |
| JsonString.StringifyIsExact | frontend/src/lib/canonical-json.ts:202-203 | a printed string is a valid token that reads back as the same code units |
| JsonEscapes.StringifyWrites | frontend/src/lib/canonical-json.ts:202-203 | each code unit is written as it is, or escaped if it is a quote, a backslash, a control character or half a surrogate pair: with a letter where there is one, else with four lower-case hexadecimal digits |
| JsonEscapes.EscapesRead | frontend/src/lib/canonical-json.ts:133-156 | exactly the eight two-character escapes of JSON are read, with their code units |
| JsonEscapes.HexRead | frontend/src/lib/canonical-json.ts:133-156 | four hexadecimal digits of either case are read, the highest first |
| JsonScanner.SkipsSpaces | frontend/src/lib/canonical-json.ts:62-68 | exactly the spaces, tabs and line ends in front are skipped |
| JsonDouble.RoundIsNearest | frontend/src/lib/canonical-json.ts:164-187 | exponents are rounded to a nearest multiple of the distance of doubles, of two to the even one |
| JsonDouble.UlpIs | frontend/src/lib/canonical-json.ts:164-187 | which is the least power of two that leaves 53 binary digits |
| NumberText.NormalTextIsExact | frontend/src/lib/canonical-json.ts:164-187 | with exponent, digit counts and their sums within the doubles' exact integers the code computes that normal form |
| NumberForm.NormalizedIsForm | frontend/src/lib/canonical-json.ts:164-187 | such a literal is rewritten to the form of its number: without an exponent iff it is zero, an integer below 10^21 or a fraction of at least 10^-6 in size; with one nonzero digit before the point otherwise; no zero ends a fraction, and a minus is written only below zero |
| JsonScanner.NormalizeNumberIsExact | frontend/src/lib/canonical-json.ts:164-187 | two such literals get equal text iff they denote the same rational |
| JsonScanner.NormalizeNumberIsIdempotent | frontend/src/lib/canonical-json.ts:164-187 | normalizing twice is normalizing once, for numbers with an exponent up to 2^53 + 1 |
| NumberLimits.ExactUpTo53 | frontend/src/lib/canonical-json.ts:164-187 | equal text iff equal value holds for all literals with every part up to n iff n is at most 2^53 |
| NumberLimits.IdempotentUpTo53 | frontend/src/lib/canonical-json.ts:164-187 | idempotence holds for all literals with every part up to n iff n is at most 2^53 + 1 |
| NumberLimits.NeighboursCollide | frontend/src/lib/canonical-json.ts:164-187 | the counterexample: 1e9007199254740991 and 1e9007199254740992 get the same text, one being ten times the other |
| NumberLimits.TextsDrift | frontend/src/lib/canonical-json.ts:164-187 | the counterexample: 12e9007199254740992 changes again when it is normalized again |
| JsonValue.NormalizeKeepsValue | frontend/src/lib/canonical-json.ts:197-224 | normalizing keeps the denoted value: maps, sequences, and multisets at every depth when array order is ignored |
| JsonNormal.NormalizedIsNormal | frontend/src/lib/canonical-json.ts:197-229 | names are in code-unit order, and items in key order when array order is ignored, at every depth |
| JsonText.PrecedesIs | frontend/src/lib/canonical-json.ts:226-229 | one name sorts before another iff it is a proper prefix of it or has the smaller code unit where they first differ |
| CanonicalJson.CanonicalIsInOrder | frontend/src/lib/canonical-json.ts:197-252 | the canonical form lists every object's names in that order and every array's items by their compact text if array order is ignored |
| JsonLayout.PrintedIsParsed | frontend/src/lib/canonical-json.ts:231-252 | what is printed, indented or compact, parses to the same node |
| JsonLines.RenderedIsLaidOut | frontend/src/lib/canonical-json.ts:231-252 | read character by character, every item and member of a canonical form is on a line of its own, indented by two spaces per level, and every closing bracket on one at the level of its opening one; empty ones are closed at once |
| CanonicalJson.NormalizeIsCanonical | frontend/src/lib/canonical-json.ts:197-224 | normalized nodes are equal iff they denote the same value |
| CanonicalJson.CanonicalJson | frontend/src/lib/canonical-json.ts:31-40 | the method with its parser computes the specified canonical text, laid out line by line, or nothing |
| CanonicalJson.CanonicalIsTotal | frontend/src/lib/canonical-json.ts:31-40 | there is a canonical form iff the text is a well-formed value within the nesting limit |
| CanonicalJson.CanonicalDecides | frontend/src/lib/canonical-json.ts:31-252 | two documents whose numbers' parts are up to 2^53 have equal canonical forms iff they denote the same value |
| CanonicalJson.CanonicalIsFixed | frontend/src/lib/canonical-json.ts:31-252 | a canonical form of numbers with parts up to 2^53 + 1 is its own canonical form |
| CanonicalLimits.DecidesUpTo53 | frontend/src/lib/canonical-json.ts:31-252 | that equal forms decide equal values for all documents with number parts up to n holds iff n is at most 2^53 |
| CanonicalLimits.FixedUpTo53 | frontend/src/lib/canonical-json.ts:31-252 | that canonical forms are fixed for all documents with number parts up to n holds iff n is at most 2^53 + 1 |
| CanonicalLimits.BigExponentBreaks | frontend/src/lib/canonical-json.ts:164-187 | the counterexample: the canonical form of 1e1000000000000000000000 is not JSON and has no canonical form |
| Fingerprint.FingerprintInputIsInjective | frontend/src/lib/message-fingerprint.ts:84-112 | in exact mode equal input means equal key, value and headers |
| Fingerprint.InputDecides | frontend/src/lib/message-fingerprint.ts:84-112 | the input of two records is the same iff their key, value and headers are, in whatever order the headers come |
| Fingerprint.Utf16IsInjective | frontend/src/lib/message-fingerprint.ts:96-98 | names are sorted by their UTF-16 code units, which keep different names apart |
| Fingerprint.FieldIs | frontend/src/lib/message-fingerprint.ts:134-139 | a field is its tag, the number of its bytes in decimal digits, a colon, the bytes and a line end |
| Utf8Text.Utf8IsInjective | frontend/src/lib/message-fingerprint.ts:114-118 | different well-formed strings have different UTF-8 bytes |
| Fingerprint.ByteWriter.WriteContent | frontend/src/lib/message-fingerprint.ts:84-104 | the writer appends exactly the specified serialization |
| Fingerprint.ByteWriter.Concat | frontend/src/lib/message-fingerprint.ts:147-155 | the bytes returned are the chunks written, in order |
| ConfigDigest.InputIsInjective | internal/kafka/adhoc.go:79-124 | the digest input determines brokers, flags and credentials: no two settings serialize alike |
| ConfigDigest.DigestInput | internal/kafka/adhoc.go:79-124 | the encoder writes exactly that input |
| AdhocRegistry.Connections.UseAdhoc | internal/kafka/adhoc.go:150-193 | without brokers, or with an empty one, it is refused; a name taken by another digest is refused and nothing changes; a known definition is only marked as used; a new one gets exactly its entries |
| AdhocRegistry.Connections.EvictIdleAdhoc | internal/kafka/adhoc.go:219-253 | exactly the names last used at the cutoff or before are gone from every map but the decoders, which are to go next; their clients are handed out to close |
| AdhocRegistry.Connections.DropEvictedDecoders | internal/kafka/adhoc.go:254-260 | then drops the decoders of all those names |
| AdhocRegistry.Connections.FinishRun | internal/kafka/adhoc.go:278-289 | the timer stays set iff clusters remain |
| AdhocRegistry.Connections.CacheDecoder | internal/kafka/registry.go:258-275 | the first decoder stored for a name is the one everyone gets |
| AdhocRegistry.Connections.LookUpDecoder | internal/kafka/registry.go:258-266 | returns the cached decoder or starts building one |
| AdhocRegistry.Connections.Recheck | internal/kafka/registry.go:276-289 | a name that is no longer registered sends the lookup on to drop what it cached |
| AdhocRegistry.Connections.DropCached | internal/kafka/registry.go:276-289 | drops the decoder it cached, and no other one of that name |
| AdhocRegistry.Connections.CloseAll | internal/kafka/registry.go:536-543 | forgets every client |
| AdhocRegistry.Connections.BeginRun | internal/kafka/adhoc.go:278-289 | a run of the janitor goes ahead iff it was not closed |
| AdhocRegistry.Connections.StopTheJanitor | internal/kafka/adhoc.go:293-301 | closes the janitor and its timer for good |
| AdhocRegistry.Connections.Client | internal/kafka/registry.go:341-362 | returns the one client of a registered name, creates it at most once, and stores nothing when that fails or the name is not registered |
| AdhocRegistry.Connections.ConfigFor | internal/kafka/registry.go:325-331 | finds exactly the registered names and marks them used |
| AdhocSafety.RunIsSafe | internal/kafka/adhoc.go:150-301 | under every interleaving of the steps the maps' ad-hoc keys coincide, clients and capabilities are of registered names, and a decoder without its cluster is one that a running step will drop |
| AdhocSafety.QuietIsClean | internal/kafka/registry.go:258-289 | with no operation in flight no decoder is left of an evicted name, and ad-hoc clusters imply an armed or closed janitor |
| AdhocSafety.NeverSomeoneElses | internal/kafka/adhoc.go:150-193 | registered settings never resolve to another caller's connection |
| AdhocSafety.RefusesOthersOnly | internal/kafka/adhoc.go:150-193 | a definition is refused iff its name is registered for other settings |
| AdhocSafety.OnlyIdleIsEvicted | internal/kafka/adhoc.go:219-260 | no step changes a registered cluster, only eviction removes one, and only an ad-hoc one idle since the cutoff |
| AdhocSafety.UsedIsKept | internal/kafka/adhoc.go:195-260 | over any stretch of a run a cluster used at some time stays registered as it was while no eviction takes what was used then |
| AdhocSafety.EvictionIsComplete | internal/kafka/adhoc.go:219-260 | an idle name is gone from every map after eviction, its decoder queued to go, and others keep everything |
| KeySource.RunIsSafe | internal/auth/jwks.go:113-208 | in every state of every run at most one fetch runs and it owns `inflight`, fetch starts are a refresh interval apart, a loaded set is not empty, and no channel is closed twice, and only when its fetch is over |
| KeySource.NothingIsUndone | internal/auth/jwks.go:113-208 | over any stretch of a run a loaded set stays loaded, closed channels stay closed, and after Close no fetch starts |
| KeySource.StartsAreSpaced | internal/auth/jwks.go:168-182 | any two fetch starts are apart by as many refresh intervals as there are starts between them |
| KeySource.EveryoneWasWoken | internal/auth/jwks.go:187-208 | in every state with no fetch under way each channel ever handed out was closed exactly once, closed source or not |
| KeySource.WaitersAreWoken | internal/auth/jwks.go:187-208 | a handed channel that is not closed belongs to a fetch whose next step is enabled |
| KeySource.ClosedIsFinal | internal/auth/jwks.go:152-163 | after Close, once its fetch is over, nothing ever changes again |
| KeySource.KeySource.Enter | internal/auth/jwks.go:113-148 | refuses when closed; serves a set that has the key; when there is none, or it is `maxAge` old, it starts a fetch unless one runs or was tried within the refresh interval, and hands out its channel to a caller that waits; with a young set that has the key nothing starts |
| KeySource.StartsAgain | internal/auth/jwks.go:113-182 | two callers that find no fetch running and no set that will do, a refresh interval apart, see two fetches start |
| KeySource.KeySource.Store | internal/auth/jwks.go:187-208 | a non-empty document replaces the set, closed source or not, any other outcome leaves it; the fetch no longer owns `inflight` |
| KeySource.KeySource.CloseDone | internal/auth/jwks.go:187-208 | then wakes the waiters by closing the fetch's channel |
| KeySource.KeySource.Leave | internal/auth/jwks.go:113-148 | a waiter that was woken gets the set there is, unless the source is closed or has none |
| KeySource.KeySource.Close | internal/auth/jwks.go:152-163 | closes the source and changes nothing else |
| RateLimiter.RateLimiter.Allow | internal/server/ratelimit.go:72-92 | decides like the plain bucket of the key unless it was evicted, sweeping or not, and a denial's wait ends at the earliest time at which the key is served |
| RateLimiter.LimiterIsBounded | internal/server/ratelimit.go:72-92 | in any stretch of T the limiter admits at most burst + T/interval requests of a key that did not have to make room before the stretch's last request |
| RateLimiter.LimiterServesBurst | internal/server/ratelimit.go:72-92 | the first `burst` requests of a key are all admitted, however close together, unless it had to make room |
| RateLimiter.RateLimiter.MakeRoom | internal/server/ratelimit.go:106-122 | sweeps, and if as many buckets as allowed are still in use drops one that is full again first; any of them on a tie |
| RateLimiter.RateLimiter.SizeAfter | internal/server/ratelimit.go:72-122 | never more buckets than `maxKeys`, or one when that is less than one |
| TokenBucket.RateIsBounded | internal/server/ratelimit.go:72-92 | the plain bucket accepts at most burst + T/interval requests in any stretch of T |
| TokenBucket.BurstIsServed | internal/server/ratelimit.go:72-92 | the plain bucket accepts the first `burst` requests of a key and has what is left for more |
| TokenBucket.IntervalIsEnough | internal/server/ratelimit.go:72-92 | a request an interval after the bucket's last one, or to a full bucket, is accepted |

## Findings

- The comment at frontend/src/lib/canonical-json.ts:159-163 says that no floating
  point is involved in normalizing a number. The digits are indeed kept, but the
  exponent is computed in doubles (`Number(expPart)`, lines 170, 172 and 184), so
  that integers beyond 2^53 round. The model rounds as the code does.
  `1e9007199254740991` and `1e9007199254740992` get the same canonical form although
  their values differ (`NumberLimits.NeighboursCollide`); `12e9007199254740992`
  changes again when normalized again (`NumberLimits.TextsDrift`); and the canonical form
  of `1e1000000000000000000000` is `1e1e+21`, which is not JSON
  (`CanonicalLimits.BigExponentBreaks`). The exact bounds are 2^53 for telling values
  apart and 2^53 + 1 for a fixed canonical form (`CanonicalLimits.DecidesUpTo53`,
  `CanonicalLimits.FixedUpTo53`), in terms of the exponent, the digit counts and their
  sums in the literals, which a caller can check beforehand.
- A copy reads an empty page again twice, and after the third in a row ends as done without
  an error (internal/server/topic_copy.go:498-514), although records may be left:
  `CopyRun.ThreeBlanksLose` is such a run. Under ordered timestamps it is complete iff no
  record before the end time is still to come (`CopyRun.RunIsCopy`), which only a run that ends this way, or at its limit,
  can miss (`CopyRun.EndedIsCopy`), and only after a failed poll or two empty polls in a row
  on each of its last three pages (`CopyRun.GaveUpIsDisturbed`).
- A complete backward page over partitions with holes (control records, compaction) is not
  always the newest `limit` records. An empty window is not widened once the page is full
  (internal/kafka/consumer.go:377-380, `ConsumeTails.BlindTailMisses`), and after the last round a
  window may still lack records (lines 331-357, `ConsumeTails.FourRoundsMiss`). The exact
  condition, `ConsumeTails.Suffice`, excludes both, in terms of log, ranges and limit: under
  ordered timestamps the page is then the newest of the ranges, and else there is a log that shows
  the same where it was read, of which it is not (`ConsumeCall.CompletePageIsExact`).
- The comment at internal/kafka/offsets_resolve.go:17-21 says that a partition without a record at
  or after a time has no key in the result. The readers of that result treat a missing key as no
  bound (internal/kafka/consumer.go:499-507), so that with a lower bound the whole partition would be
  read, older records included. `TimeRange.AbsentReadsAll` says when that is still the time range. What the
  lookup really answers is not part of this model; `TimeRange.SearchIsTimed` and
  `TimeRange.QueryIsTimed` suppose that it names an offset in every partition.

## Left out

- Matchers, masking and Schema Registry decoding: which records match, are masked or are in registry form is given; the texts, kinds and logging of parse errors are not modelled, their offsets and counts are.
- Rendering of records in pages, FetchRawMessageValue, and headers in search and copy; the kafkito-* headers a copy adds, and their filtering in fingerprints.
- Server-sent events, progress reports, heartbeats and preservation of partitions in a copy; which acknowledged part of a failed batch remains is open.
- Semantic mode and parsing of fingerprints; SHA-256 and HMAC: an injective function of the input where a digest names something.
- Base64 and JSON encoding of cursors, HTTP handlers, client construction, TLS and dialing.
- Real time: deadlines are polls that fail, clocks are integers, and timers fire when the model lets them.
- 32- and 64-bit integers and saturating times: integers are unbounded; a negative `maxEdits` is not modelled.
- Retention while a chain is paged, and offsets resets: a log does not change during a chain, though its first offset may lie above a cursor.
- The RangeError of very deep input: the parser's own nesting limit of 512 is modelled, a smaller call stack is not.
- `Number()` of an exponent is taken to round correctly for every digit string, and to print large exponents by the shortest digits that read back.
- Eviction hooks of the ad-hoc registry, the retries and timeouts of callers waiting for keys, logging, `retryAfterSeconds` and `rateLimitKey`.
- The registry's settings are a string that stands for the digest input of `ConfigDigest`.
- ConsumeCall.ConsumeMessages: of a partial backward page only order, ranges, size and cursor are stated, not which records of the ranges it holds, as a disturbed read may leave a gap.
- RateLimiter.RateLimiter.Allow: of a key whose bucket once had to make room for a new key only the decision by the buckets held is stated, not that of a plain bucket; it may be served more often.

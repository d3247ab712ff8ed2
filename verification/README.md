# Kivik: verified models of replication, streaming result sets and their neighbours

This project models the parts of the Kivik CouchDB client in which state, concurrency or a
transformation of data can go wrong, and proves what the code, its comments and its tests promise
about them. Where a promise turned out to hold only in part, the code is modelled as it is, the
failing inputs are exhibited, and the exact condition is proved.

| Component | Modules |
|---|---|
| Replication pipeline (`replicate.go`) | `Replication` is the transition system: four goroutines, three unbuffered channels, an errgroup, a cancellable context. `ReplicationLifecycle`, `ReplicationErrors`, `ReplicationBatches`, `ReplicationCounters` and `ReplicationTarget` are the theorems about all its runs |
| JSON streams | `Json` (values and lexemes), `Decoder` (Go's `json.Decoder` as a cursor), `JsonString` (text between quotes) |
| Row readers (`couchdb/iter.go`, `couchdb/rows.go`, and the metadata parsers of `couchdb/changes.go` and `couchdb/client.go`) | `IterSpec`, `MultiSpec` say what is computed; `CouchIter`, `MultiQueries` are the imperative readers that compute it; `IterLaws`, `MetadataLaws`, `StreamLaws`, `TruncationLaws`, `MultiLaws`, `MultiTruncation` are the theorems |
| Result sets (`iterator.go`, `resultset.go`) | `Driver` (the stream of events), `ResultSetSpec`, `ResultSets` (the class), `ResultSetLaws` (what clients see, from the JSON on), `IterLifecycle`, `IterClosing` (all interleavings of operations) |
| Streaming rewrite and peeking | `AttachmentStubs` (`copyWithAttachmentStubs`); `StreamDecoder` (a decoder that reads through a tee, chunk by chunk), `Peek` (what is found in a body) and `Restore` (`readRev`, `ExtractRev`, `updatesFeedType`) |
| Documents (`document.go`) | `Documents`: the splice of two serialisations and its inverse |
| Query lifetimes (`db.go`, `kivik.go`) | `QueryLifetimes`, `QueryLifetimeLaws`, `QueryLifetimeRuns`: two levels of reference counting under any interleaving |
| Collation (`x/collate`) | `Collate` (the comparator), `CollateLaws` (order laws and where they stop) |
| Document IDs in paths (`couchdb/chttp/encode.go`) | `DocIDs` |
| Mock client (`mockdb`) | `MockClient`: the expectation matcher |

`Wrappers` holds the option type they share, `Hex` the hexadecimal digits.

## What was found

The proofs are about the code as it stands. In these places it does less than its comments or its
shape suggest; each has a lemma below.

- A keyed-array response that is cut off right behind a comma, key or colon of a member that
  follows the array is reported as complete (`io.EOF`), because `finish` passes on the decoder's
  bare `io.EOF`. These are exactly the cuts that go unnoticed
  (`TruncationIsSilentIffInTrailingMember`, `TruncationCanBeSilent`). A multi-query response that is
  cut off in front of the `rows` key of a later query is taken for a complete response of the
  earlier ones (`CutInHeadOfLaterQueryIsSilent`); `MultiTruncationIsUnnoticedIff` says exactly which
  cuts go unnoticed there. Object-mode readers never do this (`ObjectModeIsNeverSilent`).
- A multi-query response that is a single brace makes the client panic: `begin` fails with a bare
  `io.EOF` before there is a row reader, and the metadata that the result set then asks for is
  promoted from a nil pointer. No other body does this (`CrashesIff`, `ClientPanicsIff`).
- An `io.EOF` from the multi-query reader is final, in that every later call reports it too,
  exactly if the reader is then closed, or has read its one result set in legacy mode and closing
  the body will report no error (`EofIsFinalIff`). Behind a complete response it is
  (`MultiQueriesEndToEnd`). Behind a response that is cut short the next call reports another error
  or, when `begin` had failed, panics on a nil row reader. Behind a second `Close` it panics, too,
  outside legacy mode, and the closing bracket counts as the first (`NextBehindClose`,
  `NextBehindBracketAndClose`).
- `copyWithAttachmentStubs` writes decoded keys back without escaping. The output reads as intended
  exactly if every key before `_attachments` needs no escaping (`StubsReplaceAttachments`). Input
  that is cut short between members is copied as if it were complete (`CutIsNoticedIffInsideValue`),
  and empty input is copied as `<nil>` (`EmptyInputPrintsNil`). A number or literal name behind an
  object is dropped (`BehindTheObject`).
- `UnmarshalJSON` of a document matches field names without regard to case but deletes them from
  `Data` by exact name, so `_ID` in `Data` replaces the document's ID (`OtherSpellingOfIdWins`).
  `RoundTripIff` says exactly which documents come back. A nil pointer is dereferenced on the text
  `null`, and on a document in which a spelling of `_attachments` holds an object of attachments of
  which one is null, if no earlier spelling is refused; on no other text (`PanicsIff`,
  `NullAttachmentPanics`).
- `CompareObject` truncates the difference of two numbers: numbers compare equal exactly if their
  difference, rounded to a float64, is less than one in size (`NumbersWithinOneAreEqual`), which is
  not transitive (`FractionsAreNotTransitive`). Values over a given set of numbers compare as they
  should exactly if any two of those numbers are one apart after rounding
  (`ComparesRightIffSpaced`). It panics on null against null and `{}` against `{}`, so a value can be
  compared with every other exactly if it has neither inside (`NeverPanicsIffClean`), and it sorts
  `{}` behind every other object (`EmptyObjectSortsLast`). A set of values over such numbers compares
  as it should exactly if none of them has either inside (`ComparesRightIffClean`).
- `replicate` returns the error that the errgroup records first, which need not be that of the
  stage that failed first (`FirstToFailNeedNotBeReported`): it is exactly if that stage is also the
  first of the failed stages to be recorded (`FirstFailureWinsIffRecordedFirst`). It is never a
  stage's own cancellation unless the caller cancelled (`RootCauseWins`).
- `iter.err` can be non-nil on an open iterator, exactly if `NextResultSet` was called behind a plain
  `Next` before (`ErrOnOpenIteratorIff`, `MisuseLeavesItOpen`).
- Scan methods are let in between `NextResultSet` and the first `Next`, where there is no row of the
  set yet: a scan under way has no row of its own set exactly if the iterator was last moved by a
  `NextResultSet` with no `Next` behind it. It then finds a blank row, or, exactly if that was called
  on a row, the row of the set before (`ScanWithoutOwnRowIff`, `ScanWithoutARow`,
  `ScanOfAnEarlierRow`).
- `Close` of a client or DB waits for the queries of its own caller, too. Operations under way can all
  return exactly if no goroutines in `Close` wait for queries that they themselves hold; such
  goroutines wait for ever (`CanFinishIff`, `StuckIff`, `WaitingForEachOtherIsForEver`).
- Unordered expectations are matched greedily, which can fail although a matching exists
  (`UnorderedCanMiss`). It never does exactly if the expectations are listed with the strictest
  first: where two overlap, every call that meets the earlier one also meets the later one
  (`UnorderedNeverMissesIff`).

## Model

| member | source | states |
|---|---|---|
| ReplicationLifecycle.ReachableIsOrderly | replicate.go:122-145 | in every reachable state: a stage has ended without error only behind a closed input, the change in hand is the next of the feed, what errgroup has recorded is an error some stage returned, and a stage returns the context's own error only when the context is done, and never as the first failure unless the caller cancelled |
| ReplicationLifecycle.NoDeadlock | replicate.go:122-145 | in every reachable state with an unfinished goroutine some step is enabled that needs neither a failing driver call nor a cancelling caller |
| ReplicationLifecycle.StepsDescend | replicate.go:224-258 | every step of every goroutine decreases a lexicographic rank |
| ReplicationLifecycle.EveryRunEnds | replicate.go:122-145 | no infinite sequence of states is a run: with NoDeadlock, group.Wait returns under every schedule |
| ReplicationErrors.RootCauseWins | replicate.go:122-145 | when all stages have returned, replicate returns no error exactly if no stage failed, otherwise a failure of some stage that is not its own "context cancelled" unless the caller cancelled |
| ReplicationErrors.CancellingIsNoticed | replicate.go:243-247 | in every reachable state in which the caller has cancelled and no error is recorded, any stage that waits at a channel or for a driver may give up: the run can be carried on until group.Wait returns, and replicate then returns that stage's "context cancelled" |
| ReplicationErrors.OnlyNotImplementedIsForgiven | replicate.go:361-371 | while OpenRevs is asked or read, a failure with any status but 501 can be readDocs' own |
| ReplicationErrors.FirstFailureWinsIffRecordedFirst | replicate.go:122-145 | for every complete run and its steps: the error returned is that of the stage that failed first if and only if that stage is the first of the failed stages whose outcome the errgroup records |
| ReplicationErrors.FirstToFailNeedNotBeReported | replicate.go:122-145 | a run in which the stage that fails first is not the one whose error is returned |
| ReplicationErrors.RunHasSteps | replicate.go:122-145 | every run of states is a run of steps, so what is said about steps covers all runs |
| ReplicationLifecycle.OpenRevsIsRefusedOnce | replicate.go:361-371 | a source that answers OpenRevs with 501 is not asked again: once one document is read revision by revision, all are |
| ReplicationBatches.BatchesPartitionTheFeed | replicate.go:266-295 | with distinct IDs, the RevsDiff calls of a successful run receive the feed in consecutive groups of exactly ten, only the last smaller, none empty |
| ReplicationBatches.ReachableIsBatched | replicate.go:271-300 | at every moment of every run the calls made so far and the map being collected are the feed received so far, cut into tens |
| ReplicationBatches.CallsAreTens | replicate.go:266-290 | for every feed, with repeated IDs too, and at every moment: no RevsDiff call is empty or asks about more than ten IDs, and all but the last ask about exactly ten |
| ReplicationCounters.CountersAreConserved | replicate.go:373-432 | in every reachable state DocsRead equals MissingFound, every document read is written, failed, in flight or the one readDocs gave up on, at most one write failed, every revision taken is checked or still to be checked, and every diff row reaches readDocs in order |
| ReplicationCounters.CountersOnSuccess | replicate.go:361-432 | after a successful run DocsWritten equals DocsRead equals MissingFound, no write failed, and MissingChecked is the sum of the missing revisions of all diffs |
| ReplicationCounters.CountersInSteps | replicate.go:373-432 | of every run, failing ones included: DocsRead and MissingFound are the rows of OpenRevs, readable or not, and the revisions that were got one by one; MissingChecked is one for each revision asked for alone, found or not, and all of a row's when its OpenRevs has been read to the end; DocsWritten is the number of documents stored |
| ReplicationTarget.TargetIsAlwaysBetween | replicate.go:507-523 | at every moment of every run, failing or not, the target has lost nothing and holds nothing that a successful run would not have stored |
| ReplicationTarget.SuccessIsComplete | replicate.go:122-145 | a run that ends without error leaves exactly the initial target and all documents fetched for the diffs against it |
| ReplicationTarget.Confluence | replicate.go:122-145 | any two runs that end without error leave the same target, whatever the interleaving and the order of RevsDiff's rows |
| ReplicationTarget.PipelineRefinesSequentialLoop | replicate.go:122-145 | a run that ends without error leaves the target that a sequential diff-fetch-store loop leaves |
| ReplicationTarget.EveryRevisionIsReplicated | replicate.go:410-432 | with individual reads and the protocol's RevsDiff, the final target is the initial one and every revision in the feed, and nothing else |
| ReplicationTarget.ReachableIsOnTheWay | replicate.go:271-432 | in every reachable state what is stored or on the way is what RevsDiff has answered for, and all of it while no stage has failed |
| Json.ParseLex | couchdb/iter.go:268-273 | a value's lexemes, with anything behind them, are read back as that value, leaving the rest |
| Json.ParseSound | couchdb/iter.go:268-273 | nothing but the lexemes of one balanced value is ever read as a value |
| Json.TruncatedValueIsInvalid | couchdb/iter.go:268-273 | no proper prefix of a value's lexemes is a value |
| Decoder.DecodeConsumesOneValue | couchdb/iter.go:268-273 | Decode yields a value if and only if the input has the separator due and that value's lexemes in front, and it consumes exactly those |
| Decoder.JsonDecoder.Consume | couchdb/iter.go:286-299 | consumeDelim: the expected delimiter is consumed, any other token is the error the source gives, and io.EOF is wrapped |
| Decoder.JsonDecoder.ReadKey | couchdb/iter.go:195-207 | nextKey: a string token or an error; io.EOF is passed on bare |
| CouchIter.Iter.Next | couchdb/iter.go:144-166 | computes IterSpec.Next on the reader's state: begin on the first call, one row a call, at the end finish and the error of closing the body if there is one, closed ever after |
| CouchIter.Iter.Begin | couchdb/iter.go:169-193 | the loop over leading members refines IterSpec.Begin: metadata is collected up to the expected key, whose array is opened |
| CouchIter.Iter.ReadMeta | couchdb/iter.go:209-217 | parseMeta: one member's value is decoded into the metadata by the parser of rows, changes or updates, or ignored by readers that have none |
| CouchIter.Iter.NextRow | couchdb/iter.go:268-273 | one row is decoded if there is one, with its key in object mode |
| CouchIter.Iter.Finish | couchdb/iter.go:219-266 | whatever comes of reading the end, the body is closed; a failure to close is reported unless reading failed |
| CouchIter.Iter.ReadEnd | couchdb/iter.go:219-266 | the closing delimiter, the loop over trailing members and the closing brace refine IterSpec.ReadEnd in all three modes |
| CouchIter.Iter.Close | couchdb/iter.go:275-282 | the reader is closed, and the error of closing the body is returned |
| IterLaws.KeyedArrayIsReadExactly | couchdb/iter.go:169-193 | for every object with the expected array and any other members before and after it, next delivers exactly the array's elements in order and then io.EOF for ever, or once the error of closing the body; and the metadata, of whichever parser, is collected from both sides alike |
| MetadataLaws.MetadataIsLast | couchdb/rows.go:177-195 | for every list of members and each of the parsers: it is accepted if and only if every field's members have its type; then offset, total_rows, warning, bookmark, pending and the last_seq of updates hold the last value that is not null under their own key, update_seq and the last_seq of changes the last value, or what they held before, and no other key sets anything |
| MetadataLaws.KeyedArrayIsReadUpToMismatch | couchdb/iter.go:144-217 | for every object with the expected array, whatever the types inside: the rows before the first one of the wrong type are delivered, and the first thing of the wrong type is reported, wrapped where the source wraps it; io.EOF follows the rows if and only if nothing has the wrong type and closing the body reports no error |
| MetadataLaws.ArrayMustBeThere | couchdb/iter.go:169-193 | an object without the expected key, and one in which its value is not an array, is refused by the first call, with the error that consumeDelim or nextKey gives |
| MetadataLaws.BodyMustBeObject | couchdb/iter.go:286-299 | so is a body that is not an object |
| TruncationLaws.TruncationIsSilentIffInTrailingMember | couchdb/iter.go:219-266 | a proper prefix of a well-formed keyed-array body ends in io.EOF if and only if the cut is right behind the comma, key or colon of a member that follows the array |
| TruncationLaws.TruncationCanBeSilent | couchdb/iter.go:219-266 | a concrete truncated body that is reported complete |
| TruncationLaws.ObjectModeIsNeverSilent | couchdb/iter.go:219-266 | in object mode every proper prefix of a well-formed body ends in an error other than io.EOF |
| TruncationLaws.ObjectIsReadExactly | couchdb/iter.go:268-273 | in object mode the rows are exactly the members in order, then io.EOF or the error of closing the body |
| StreamLaws.StreamIsReadExactly | couchdb/iter.go:219-231 | a continuous feed delivers exactly its values in order, then io.EOF or the error of closing the body |
| StreamLaws.CutStreamIsNoticed | couchdb/iter.go:268-273 | one that is cut inside a value delivers the whole values and then a syntax error, wrapped where the parser wraps |
| StreamLaws.StrayDelimIsNoticed | couchdb/iter.go:226-231 | so does, with a bad gateway, one with a closing brace or bracket between values |
| StreamLaws.CutEntryIsNoticed | couchdb/db.go:1075-1090 | in object mode a value cut short is a syntax error, reported as it is |
| MultiQueries.MultiQueriesRows.Next | couchdb/rows.go:217-238 | computes MultiSpec.Next on the reader's state, however often it was closed, sharing one decoder among successive row readers; a call behind a failed begin panics, and so does one behind a second Close outside legacy mode |
| MultiQueries.MultiQueriesRows.Begin | couchdb/rows.go:240-279 | begin, with the fallback to legacy mode that starts over on the same body |
| MultiQueries.MultiQueriesRows.NextQuery | couchdb/rows.go:281-304 | a new row reader on the shared decoder; at the closing bracket the reader is closed and the answer is io.EOF or the error of closing; errors passed on |
| MultiQueries.MultiQueriesRows.Close | couchdb/rows.go:306-325 | counts, closes once and returns the error of closing the body from the first call only; the metadata of the last query stays readable |
| MultiLaws.MultiQueriesEndToEnd | couchdb/rows.go:217-304 | for every response with one query or more: the rows of each query in order, each followed by EOQ with that query's metadata, then io.EOF or the error of closing the body; the reader is then closed, and every later call reports io.EOF |
| MultiLaws.EventsOfReader | couchdb/rows.go:231-237 | one row reader's rows are passed on, and only its clean end becomes EOQ |
| MultiTruncation.EofIsFinalIff | couchdb/rows.go:217-238 | whatever the input and the calls before: an io.EOF is repeated by all later calls if and only if the reader is then closed, or has read its one result set in legacy mode and closing the body will report no error; otherwise the next call reports another error or panics |
| MultiLaws.NextBehindClose | couchdb/rows.go:217-238 | behind one Close every call reports io.EOF; behind more than one it does so in legacy mode only, panics outside it, and without a row reader reports what the closed body gives and then panics |
| MultiLaws.NextBehindBracketAndClose | couchdb/rows.go:281-304 | reading the closing bracket, or the end in legacy mode, counts as a Close: behind it and a Close of the client Next panics, in legacy mode reports io.EOF |
| MultiLaws.RowOfWrongType | couchdb/rows.go:56-76 | a row of the wrong type is reported as it is, unwrapped |
| MultiLaws.LegacyReadsTheSameRows | couchdb/rows.go:250-270 | on a body whose first key is not `results` the reader delivers the rows, metadata and end of the plain reader on that body |
| MultiLaws.QueriesThenEnd | couchdb/rows.go:281-304 | whatever comes behind the queries, they are all delivered first |
| MultiLaws.CutInHeadOfLaterQueryIsSilent | couchdb/rows.go:281-304 | a response cut between the leading metadata members of a later query is delivered as a complete response of the queries before it |
| MultiTruncation.MultiTruncationIsUnnoticedIff | couchdb/rows.go:217-304 | for every multi-query response and every cut: the events end in io.EOF if and only if the cut is inside a query in front of its `rows` key and not inside a value, or behind the closing bracket of the queries; they end in a panic if and only if the cut is right behind the first brace |
| MultiTruncation.CrashesIff | couchdb/rows.go:240-249 | for every body: the reader, asked for the metadata at every EOQ and io.EOF, panics before its first error if and only if the body is a single brace |
| ResultSetLaws.ClientPanicsIff | resultset.go:298-325 | for every body: iterating over the result set panics if and only if the body is a single brace |
| MultiTruncation.CutBehindQuery | couchdb/rows.go:281-304 | the same from the end of any complete query on |
| MultiTruncation.CutQuery | couchdb/iter.go:169-193 | begin on a query that is cut short fails with a bare io.EOF exactly in front of its `rows` key and outside values |
| ResultSets.ResultSet.Next | resultset.go:80-91 | computes ResultSetSpec.Next on the whole state: the attachments of the row before are closed, then the iterator moves |
| ResultSets.ResultSet.IterNext | iterator.go:129-156 | the retry loop: EOQ ends a result set inside one and is passed over outside; any error closes; a panic of the driver passes through |
| ResultSets.ResultSet.FeedNext | resultset.go:298-325 | the row is reset, and the metadata is kept exactly at EOQ and io.EOF |
| ResultSets.ResultSet.NextResultSet | resultset.go:99-114 | the six-state transition, and the error for mixing with a plain Next |
| ResultSets.ResultSet.CloseErr | iterator.go:170-191 | closes once, keeps an earlier error, counts feed.Close and onClose, and returns the error of feed.Close from the first call only |
| ResultSets.ResultSet.Iterator | resultset.go:471-484 | the range loop over all rows, with early stop; what it reports at the end is the iterator's error unless that is io.EOF |
| ResultSets.ResultSet.NextIterator | resultset.go:493-502 | the nested range loops, with the metadata after each set, and the early stop with Close |
| ResultSetLaws.IteratorYieldsAllRows | resultset.go:471-484 | every row of the stream in order across all sets, asking before each further row, closed exactly once at the end, with the stream's own error or none on an early stop; a panic of the driver closes nothing |
| ResultSetLaws.IteratorReportsIff | resultset.go:480-482 | Iterator reports an error if and only if the rows are used up and the stream ended in that error, other than io.EOF; nothing exactly at io.EOF, on an early stop or behind a panic |
| ResultSetLaws.ContextErrorIsReported | iterator.go:112-117 | a result set closed by its context reports the context's error, whatever is called afterwards, from Iterator too |
| ResultSetLaws.MisuseIsReported | resultset.go:108-111 | NextResultSet behind a plain Next fails, and that error is reported, whatever is called afterwards, from Iterator too |
| ResultSetLaws.MetadataOnlyBetweenSets | resultset.go:135-140 | Metadata is refused before the first call, on a row and behind NextResultSet, and given whenever Next has ended a set and after Close |
| ResultSetLaws.IteratorClosesAttachments | resultset.go:80-91 | over a whole iteration the attachments of each row yielded are closed once, in order, before the next row is read, except that an early stop leaves those of the last row open |
| ResultSetLaws.NextIteratorDeliversSegments | resultset.go:493-502 | the k-th result set is the k-th EOQ-delimited segment with its metadata, up to where the caller stops; a final EOQ gives one more, empty set; either way the result set is closed once, without error on an early stop |
| ResultSetLaws.PartitionIsFlattening | resultset.go:471-502 | the segments together are the flat sequence of rows, unless a panic loses the last one |
| ResultSetLaws.AnyClientSeesAPrefix | resultset.go:80-114 | whatever a client calls in whatever order, it sees the rows in order, none twice and none skipped |
| ResultSetLaws.QueriesArriveAsResultSets | resultset.go:298-325 | from the JSON of a multi-query response to the client: one result set for each query with its rows and metadata, then an empty one, then closed, without error if closing the body reports none |
| IterLifecycle.ClosedExactlyOnce | iterator.go:170-191 | over all interleavings feed.Close and onClose run at most once, and exactly once when closed and the mutex is free |
| IterLifecycle.ErrIsStableAfterClose | iterator.go:195-202 | once closed, what Err reports never changes |
| IterLifecycle.OneInsideAtATime | resultset.go:267-289 | no two operations are inside at once, scans that keep the mutex included |
| IterLifecycle.ScanIsUndisturbed | resultset.go:267-289 | while a scan is under way the iterator is open, without error and on a row or at the start of a set, and nothing another goroutine does changes that |
| IterLifecycle.ScanWithoutOwnRowIff | resultset.go:93-114 | in every run: a scan under way has no row of its own set if and only if the iterator was last moved by a NextResultSet with no Next behind it; its row is blank if and only if it was when that was called; otherwise it is the row delivered last |
| IterLifecycle.ScanWithoutARow | resultset.go:267-289 | such a run, with a blank row |
| IterLifecycle.ScanOfAnEarlierRow | resultset.go:267-289 | such a run, with the row of the set before |
| IterLifecycle.NothingBlocks | iterator.go:163-168 | wg.Wait inside Close never blocks, the holder of the mutex can always go on, and a free mutex can be taken |
| IterLifecycle.HolderGetsOut | iterator.go:129-191 | every step of the operation inside brings it nearer to leaving, but for a Next that passes over the end of a query, and no other operation moves it |
| IterLifecycle.AwaitDoneEnds | iterator.go:112-117 | the awaitDone goroutine does not leak, and when it is done the iterator is closed |
| IterClosing.WhoClosedIt | iterator.go:112-191 | in every run a closed iterator has been closed by one step: an error of the feed, a Close, or the awaitDone goroutine, the last only if the caller had cancelled the context before; and its error ever since is the feed's, the one it had, or the context's unless it had one |
| IterClosing.ContextErrorOnlyIfCancelled | iterator.go:112-117 | in every run: the context's error is reported only of a context that the caller has cancelled |
| IterClosing.CancellingCloses | iterator.go:112-117 | from every reachable state in which the iterator is open and no operation inside, cancelling the context leads to a closed iterator with that error, unless it had one, and with feed.Close and onClose run once |
| IterLifecycle.ErrOnOpenIteratorIff | resultset.go:99-114 | in every run: err is non-nil on an open iterator if and only if, at some earlier step, NextResultSet ran behind a plain Next with no error set |
| IterLifecycle.MisuseLeavesItOpen | resultset.go:108-111 | such a run |
| IterLifecycle.BodiesAreTheOperations | iterator.go:129-191 | what the interleaved operations do under the mutex is what the operations of the result set class do |
| AttachmentStubs.CopyWithAttachmentStubs | couchdb/db.go:844-909 | the token loop with its comma flag computes CopyWithStubs; a writer that fails ends it at once with that error and with exactly the beginning of the output written |
| AttachmentStubs.StubsReplaceAttachments | couchdb/db.go:844-909 | on every object with a top-level `_attachments`, with anything behind it, the output succeeds, and can be read as the input with only the first such value replaced if and only if all keys before it need no escaping; a key that does is misread whatever is printed behind it |
| AttachmentStubs.WithoutAttachmentsIsCopied | couchdb/db.go:844-909 | an object without `_attachments` is copied, and reads the same if and only if its keys need no escaping |
| AttachmentStubs.BrokenObjectIsRefused | couchdb/db.go:860-868 | whatever follows whole members, such as a key without its comma, is a bad request unless it is a comma or the closing brace, or at first a key; behind a comma so is anything but a key; what was copied before stays |
| AttachmentStubs.BehindTheObject | couchdb/db.go:897-904 | behind an object without `_attachments` another structure is refused as not the closing brace, any other structural character as bad, and a number or literal name is dropped |
| AttachmentStubs.NeedsAnObject | couchdb/db.go:846-852 | nothing is written for a value that is not an object |
| AttachmentStubs.CutIsNoticedIffInsideValue | couchdb/db.go:860-887 | for every object and every cut: the copy ends normally for its reader unless the cut is inside a value up to that of `_attachments` |
| AttachmentStubs.EmptyInputPrintsNil | couchdb/db.go:846-859 | empty input is no error and prints `<nil>` |
| JsonString.UnescapedReadsBackIffPlain | couchdb/db.go:876-878 | a string printed between quotes reads back as itself, whatever is printed behind it, if it has no quote, backslash or control character, and otherwise never, wherever the string that is read ends |
| JsonString.QuoteEndsTheString | couchdb/db.go:876-878 | a string with a quote is read as what stands before the quote |
| JsonString.EscapedReadsBack | couchdb/db.go:876-878 | printed with escapes instead, every string reads back, whatever is printed behind it |
| JsonString.UnicodeEscapeIsRead | couchdb/db.go:876-878 | a `\u` escape, or a pair of them beyond the first 65536 characters, is read as its character |
| Documents.MarshalJSON | document.go:28-43 | overwriting the last byte and appending the rest of Data's text gives the serialisation of all members together |
| Documents.Document.UnmarshalJSON | document.go:46-62 | sets ID, Rev, Attachments and Data from the text, or leaves the document alone and fails, or panics, as the three decoders say |
| Documents.UnmarshalAttachments | attachments.go:162-171 | refuses what is not an object of attachments, panics on an entry whose last value is null, and otherwise gives every attachment the name of its entry |
| Documents.AttachmentsRefusedIff | attachments.go:162-171 | attachments are refused if and only if they are no object or some entry is neither null nor an attachment |
| Documents.PanicsIff | document.go:46-62 | for every text: UnmarshalJSON panics if and only if the text is `null`, or an object in which a spelling of `_attachments` holds attachments with a null entry and no earlier spelling is refused |
| Documents.SucceedsIff | document.go:46-62 | for every text and document: UnmarshalJSON succeeds with that document if and only if the text is an object in which every spelling of `_id` and `_rev` holds a string or null and every spelling of `_attachments` null or attachments without a null entry; the document has the last ID, revision and attachments and the last value of every other name |
| Documents.SyntaxErrorIff | document.go:46-62 | a syntax error is reported if and only if the text is not that of one value |
| Documents.SpellingsOfId | document.go:46-62 | the keys taken for the ID are `_id` in upper or lower case, and some letters have more spellings |
| Documents.NullAttachmentPanics | attachments.go:162-171 | it does on a document with one attachment that is null |
| Documents.RoundTrip | document.go:28-62 | a document whose attachments have no null entry and whose Data uses no reserved name, in any spelling, comes back as it was |
| Documents.RoundTripIff | document.go:28-62 | a document comes back if and only if its attachments have no null entry; no key of Data is one of the three names; no spelling of `_id` or `_rev` holds anything but a string or null, and the last that is not null, in writing order, holds the field's own value; no spelling of `_attachments` holds anything but attachments without a null entry or null, and the last holds the field's own |
| Documents.UnmarshalOfMarshal | document.go:28-62 | what comes back in every case: the fields as Data's spellings leave them, an error, or a panic |
| Documents.OtherSpellingOfIdWins | document.go:46-62 | `_ID` in Data takes the place of the ID |
| Restore.ReadRev | couchdb/chttp/chttp.go:478-510 | the token loop, on a decoder that reads the body in chunks as it needs more, gives the answer FindRevIn of the whole body, failures included, and stands where a decoder of the whole body would, wherever the chunks end |
| StreamDecoder.StreamDecoder.NextToken | couchdb/chttp/chttp.go:459-474 | whatever the chunks, which may end inside a string or a number, the next token and the position behind it are those of a decoder that has the whole body |
| StreamDecoder.StreamDecoder.DecodeValue | couchdb/chttp/chttp.go:478-510 | the same for decoding a value, which refills only while what has been read could still be the beginning of one |
| StreamDecoder.ScanForetells | couchdb/chttp/chttp.go:459-474 | what scanning a part of the input says holds of all of it: a complete value is the value, a wrong beginning stays wrong |
| Peek.ReadRevFindsFirstRev | couchdb/chttp/chttp.go:478-510 | on every object, with anything behind it, the answer is the first top-level `_rev`, never a nested one, or the right error |
| Peek.ReadRevNeedsAnObject | couchdb/chttp/chttp.go:478-487 | any other value is reported as not an object, and an empty body as io.EOF |
| Peek.ReadRevNeedsNoMore | couchdb/chttp/chttp.go:476-478 | the revision is found as soon as it has arrived, whatever follows |
| Peek.FindRevInIsLocal | couchdb/chttp/chttp.go:476-510 | the answer depends only on the part of the stream that was read for it |
| Peek.FirstKeyDecides | couchdb/client.go:182-192 | the first key of the body alone decides the feed type: `results`, `db_name` and `last_seq` are normal, continuous and empty, and every other key is an error |
| Peek.FeedTypeIff | couchdb/client.go:156-194 | for every body: each type is found if and only if the body begins with a brace and its key |
| Restore.ExtractRev | couchdb/chttp/chttp.go:459-474 | for every chunking of reads the answer, success or failure, is FindRevIn of the whole body, the returned reader delivers exactly the original body, and what was read before a revision was found is enough for it |
| Restore.UpdatesFeedType | couchdb/client.go:156-194 | the same for the feed type when it is found; otherwise the error for the whole body, and no reader |
| Restore.MultiReader.ReadAll | couchdb/chttp/chttp.go:463-469 | reading the restored body in chunks of any size gives the buffered part and then the unread part, nothing lost or repeated |
| QueryLifetimeLaws.ClientCountsItsDBs | db.go:42-62 | in every reachable state no count is negative and the client's is at least the sum over its DBs |
| QueryLifetimeLaws.NoneRisesAfterClosed | kivik.go:92-107 | once closed is set it stays set and the count never rises again |
| QueryLifetimeLaws.DriverIsClosedOnlyWhenIdle | db.go:879-888 | once a driver's Close has run no query that its owner counts is outstanding, nor ever will be |
| QueryLifetimeRuns.EveryCloseClosesTheDriver | db.go:879-888 | at every moment of every run, for each DB and the client: the calls of Close are those under way and those that have closed the driver, once each |
| QueryLifetimeRuns.CloseReachesTheDriver | kivik.go:294-303 | from every reachable state in which no goroutines in Close wait for each other, all that is under way can be finished without a new call, and then every driver has been closed as often as Close was called |
| QueryLifetimeRuns.StartQueryReturns | db.go:42-62 | whatever others do meanwhile, a startQuery that returns has one more query outstanding, or is refused and changes nothing: it has the query if DB and client are open when it returns, and is refused if either was closed when it was called |
| QueryLifetimeRuns.RunHasSteps | kivik.go:92-107 | every run of states is a run of steps |
| QueryLifetimeLaws.NoDeadlock | kivik.go:294-303 | while anything is under way, some goroutine can go on without a new call, unless goroutines in Close wait for queries that they themselves hold: nested queries cannot deadlock with the Close of others |
| QueryLifetimeLaws.StuckIff | db.go:879-888 | in every reachable state: nothing can be finished if and only if everyone who is busy waits inside Close for a query that one of them holds |
| QueryLifetimeLaws.WaitingForEachOtherIsForEver | db.go:879-888 | goroutines in Close that wait for each other, or for themselves, do so in every later state |
| QueryLifetimeLaws.CanFinishIff | kivik.go:294-303 | in every reachable state: all operations can return and all queries end if and only if no goroutines in Close wait for each other |
| QueryLifetimeLaws.FinishingStepsDescend | bulk.go:52-84 | such steps cannot go on for ever, so every operation and every Close returns |
| QueryLifetimeLaws.StepKeepsInv | db.go:42-62 | every step of startQuery, its end function and Close keeps the locks, counts and closed flags consistent |
| Collate.CompareObject | x/collate/collate.go:55-125 | the loops over arrays and over the sorted union of keys, with their early exits and panics, compute Compare, whatever order the keys were collected in |
| Collate.SortKeys | x/collate/collate.go:90-104 | the keys of a map in collation order, each once |
| Collate.SortingIsUnique | x/collate/collate.go:97-104 | a set of keys has one sorting only |
| CollateLaws.CompareIsOrder | x/collate/collate.go:55-125 | on values without null and empty object, over numbers that are one apart, the sign of CompareObject is the order of the canonical values, which on objects is the lexicographic order of key-sorted member lists |
| CollateLaws.AnswerIsOrder | x/collate/collate.go:55-125 | the same with nulls anywhere inside: whenever CompareObject does not panic, its sign is that order |
| CollateLaws.NullComesFirst | x/collate/collate.go:56-61 | null comes before every value of another type |
| CollateLaws.NullComesFirstInArrays | x/collate/collate.go:78-83 | also where two arrays, alike before, first differ |
| CollateLaws.NullComesFirstInObjects | x/collate/collate.go:106-122 | also where two objects differ under one key |
| CollateLaws.ComparesRightIffSpaced | x/collate/collate.go:51-77 | for every set of numbers in range: all values over it compare as they should if and only if any two of its numbers are one apart after rounding |
| CollateLaws.IntegersAreSpaced | x/collate/collate.go:76-77 | integers are such a set |
| CollateLaws.CompareIsAntisymmetric | x/collate/collate.go:51-54 | there, 0 exactly on equal values and opposite signs when swapped |
| CollateLaws.SwappedIsOpposite | x/collate/collate.go:55-125 | on all values with numbers in range, fractions, nulls and empty objects included, swapping the arguments negates the sign, or panics both ways |
| CollateLaws.CompareIsTransitive | x/collate/collate.go:51-54 | there, transitive, strictly if either step is strict |
| CollateLaws.OrderSymmetric | x/collate/collate.go:15-22 | the canonical order is antisymmetric and 0 exactly on equal values |
| CollateLaws.OrderTransitive | x/collate/collate.go:15-22 | the canonical order is transitive |
| CollateLaws.CanonicalIsInjective | x/collate/collate.go:86-96 | different values have different canonical forms |
| CollateLaws.AssumptionsCanBeMet | x/collate/collate.go:34-47 | what the laws ask of the string collator and of rounding can be met |
| CollateLaws.NeverPanicsIffClean | x/collate/collate.go:123-125 | a value can be compared with every value without panic if and only if no null and no empty object is inside it |
| CollateLaws.SelfPanics | x/collate/collate.go:123-125 | compared with itself a value is equal or, if not clean, panics |
| CollateLaws.NumbersWithinOneAreEqual | x/collate/collate.go:76-77 | two numbers compare equal if and only if their rounded difference is less than one in size; then they are less than one apart, and the converse holds when the difference is a float64 |
| CollateLaws.FractionsAreNotTransitive | x/collate/collate.go:76-77 | 0.25, 0.875 and 1.5, whose differences are exact |
| CollateLaws.EmptyObjectSortsLast | x/collate/collate.go:106-112 | `{}` sorts behind every other object, against the canonical order |
| CollateLaws.ComparesRightIffClean | x/collate/collate.go:84-125 | for every set of values over numbers that are one apart: all pairs compare as they should if and only if no value has a null or an empty object inside |
| MockClient.Client.NextExpectation | mockdb/clientmock.go:37-84 | answers and fulfils as Next says, hands the matched expectation to the caller, and every lock is released on every path |
| MockClient.Client.ExpectationsWereMet | mockdb/clientmock.go:93-106 | true exactly if all expectations are fulfilled; locks released |
| MockClient.Expectation.LookAt | mockdb/clientmock.go:43-69 | one round of the loop: fulfilled, matched and left locked, passed over, or an error, as the source branches |
| MockClient.OrderedFulfilsTheNext | mockdb/clientmock.go:50-61 | while ordered, the fulfilled expectations stay a prefix, a call fulfils the next one exactly if it meets it, and a failing call fulfils none |
| MockClient.OrderedMatchesPointwise | mockdb/clientmock.go:93-106 | all calls succeed and all expectations are met if and only if calls and expectations match one by one |
| MockClient.UnorderedTakesTheLowest | mockdb/clientmock.go:62-69 | unordered, the lowest unfulfilled match is taken, and a call fails exactly if there is none |
| MockClient.UnorderedNeverMissesIff | mockdb/clientmock.go:62-69 | for every list of expectations: calls that can be paired with unfulfilled expectations always succeed, whatever was fulfilled before, if and only if of two expectations that share a call the later one is met by every call that meets the earlier |
| MockClient.UnorderedCanMiss | mockdb/clientmock.go:62-69 | two calls and two expectations for which greedy matching fails where a matching exists |
| DocIDs.RoundTrip | couchdb/chttp/encode.go:31-43 | percent-decoding an encoded document ID gives it back, for every byte string |
| DocIDs.Injective | couchdb/chttp/encode.go:31-43 | different IDs have different encodings |
| DocIDs.SlashOnlyFromPrefix | couchdb/chttp/encode.go:31-38 | a slash in the output is exactly the one at the end of a `_design/` or `_local/` with which the ID begins |
| DocIDs.EncodesByteByByte | couchdb/chttp/encode.go:40-43 | spaces and plus signs included, each byte is kept or written as %XX on its own |
| DocIDs.KeepsPrefixes | couchdb/chttp/encode.go:31-38 | `_design/` and `_local/` are kept and what follows is encoded on its own; any other ID is encoded whole |
| DocIDs.BytesKeptAndEscaped | couchdb/chttp/encode.go:40-43 | letters, digits and `-_.~` are kept, any other byte is a percent sign and two upper-case hexadecimal digits |

## Left out

- HTTP, gzip, multipart bodies, TLS, authentication, tracing, event callbacks and wall-clock times are not modelled; driver calls are steps that succeed or fail.
- The database directories fsdb, memorydb and pouchdb, generated mock code and message formatting are not modelled.
- The replication pipeline is a state machine on values, because its goroutines have no common object that one thread of Dafny statements could update; what runs between two channel operations is one step.
- copySecurity, which runs before the goroutines start, is not part of the replication model.
- Attachments in replication are assumed to be read without failure: when that fails, readOpenRevs waits for a mutex that its own attachment iterator holds.
- ReplicationTarget.SuccessIsComplete: assumes distinct IDs in the feed and that RevsDiff's answer depends on the target's revisions of the ID asked about; a repeated ID in one batch overwrites the earlier entry.
- ReplicationCounters.CountersOnSuccess: assumes that status 501 comes only from the OpenRevs call itself and not from one of its rows; the counters are unbounded integers, so 32-bit overflow is not modelled.
- Lexemes are atomic and white space is absent: a body cut inside a string, number or literal name, and errors of the network while reading, are not modelled; cancelableReadCloser is left out with them. Only in Restore are bodies sequences of bytes, each with the lexemes it completes.
- What reading from a body does that was drained and closed is a parameter of the multi-query reader.
- What a goroutine does that recovers from a panic is not modelled: behind a panic nothing more is said of a result set.
- Decoding a row into a struct is the predicate `accepts`: which JSON values a row type takes is a parameter of every theorem. Of the differences among the parsers only that some wrap the errors of decoding a row is kept.
- json.Decoder is modelled from the documented behaviour of Go's encoding/json, which is not part of this repository; numbers are whole integers or reals, and int64 fields refuse what does not fit.
- ResultSetLaws.QueriesArriveAsResultSets: the result set reads the reader's events as a finished sequence instead of holding the reader object, so that aliasing between the two is not modelled.
- The reflection in scanAll is not modelled.
- QueryLifetimeRuns.CloseReachesTheDriver: every driver client is taken to have a Close of its own, which is optional; without it the client's Close returns when it has waited.
- IterLifecycle.NothingBlocks: the operations of one ResultSet share no goroutine-local state, so each is a separate operation; Metadata, which reads without the mutex, is left out.
- AttachmentStubs.StubsReplaceAttachments: the line break that json.Encoder adds behind the stubs and white space inside copied values are not modelled.
- Documents.RoundTrip: attachments are taken to be written as they were read, and which values a single attachment accepts is a parameter; Data's values are JSON trees.
- CollateLaws.CompareIsOrder: the collator is any strict total order on strings and numbers are below 2^62 in size, so that differences fit in int64; the Unicode collator may equate different strings, and out-of-range conversions are left to Go's implementation.
- CollateLaws.NumbersWithinOneAreEqual: numbers are reals and rounding to float64 is any function that keeps order and sign and leaves eighths of moderate size alone; which other numbers it leaves alone is not modelled.
- MockClient.OrderedMatchesPointwise: the comparison of databases, options and arguments is a predicate of the expectation; delays are left out.
- convertOptions, continuous feeds, bulk results, replication documents and configuration calls would add only short members of their own.

# A verified model of the dial-out collector's core

The collector accepts telemetry streams from routers over gRPC, turns every
message into JSON, labels it and hands it to Kafka. This project models the
parts of it in which a mistake would lose, duplicate or garble data, and proves
what they promise:

- **Commit queue** (`OffsetHeap`, `OffsetQueue`, `OffsetQueueRuns`). An array
  heap with sift loops, the acknowledgement loop that moves the commit frontier,
  and whole runs of waits, acknowledgements and pops against a reference machine
  that only knows which offsets arrived and which were acknowledged.
- **CSV documents** (`CsvText`, `CsvDocument`, `CsvPlain`, `CsvReading`, `CsvExact`,
  `CsvRoundTrip`). The character-level reader fed through a buffer, the writer that
  quotes selectively, in-place replacement, quote-free text as plain splitting,
  texts with any choice of quotes, and the exact set of tables that survive saving
  and loading.
- **Telemetry trees** (`Json`, `MetricsTree`, `JuniperTree`, `CiscoGpbkv`,
  `Envelope`). The pointer walk that inserts gNMI updates into a linked tree in
  place, refined to a functional put; the conversion of GPB-KV field trees with a
  decoder that says exactly what is lost; the one-pass envelope builder against
  the two-parse pipeline it replaced.
- **Streams and shutdown** (`StreamFsm`, `StreamDrain`, `StreamServer`,
  `Shutdown`). Streams that own, spawn and delete themselves over a completion
  queue that returns tags in any order; a measure for the drain; the server
  registry, the worker life cycles and the joins over every interleaving.
- **Metrics query** (`MetricsQuery`). A recursive wildcard traversal with an
  accumulator, sound, complete, ordered and free of duplicates.
- **Label map** (`LabelMap`). Both file formats, the loaders, and reloads under a
  shared mutex.

Code that changes state is written as classes and loops and proved equal to a
function of the old state; the properties are then proved about that function.
`dafny verify dfyconfig.toml` checks everything.

Some statements are sharper than what the source says about itself:

- The round trip of a table holds *exactly* for the readable tables
  (`CsvRoundTrip.RoundTrip`), where nothing is trimmed or skipped. The writer
  quotes only cells with a separator or a space. A cell that it writes bare is
  misread if it begins with a quote and ends with another, if it begins with a
  quote, holds an odd number of them and is followed by a separator or by a line
  break that quoted text may contain, or if it holds a line break outside its own
  quotes. A quoted cell is misread only if it holds a line break that the reader
  does not accept inside quotes. With automatic quoting off everything is written
  bare; enclosing quotes are then kept, and a separator must be inside quotes of
  the cell's own. The same condition is exact for a text in which any cells are
  quoted, not only those the writer quotes (`CsvExact.ReadExactly`).
- The acknowledgement loop reads an empty deque exactly when everything received
  is acknowledged and the newest offset is acknowledged twice or something newer
  is acknowledged (`OffsetQueue.HeapLoopReadsEmptyDeque`). The documented
  protocol excludes this. An offset that is older than everything pending is not
  an error: it is dropped.
- The frontier can be moved back *exactly* if an offset is waited for on a drained
  queue although it lies below the last one committed
  (`OffsetQueueRuns.FrontierIsSteadyExactly`). Two runs in which
  the same offsets were accepted end alike *exactly* if each was acknowledged
  equally often, in whatever order (`OffsetQueueRuns.AckOrderIsIrrelevant`); the
  same calls are not enough, since a drained queue accepts smaller offsets than a
  waiting one (`OffsetQueueRuns.SameWaitsAreNotEnough`).
- The order of a notification's updates does not matter *exactly* if they commute
  pairwise, which for a path and its extension means that the shorter one's value
  already holds the other (`MetricsTree.OrderIsIrrelevant`). Incomparable paths
  always commute.
- A metrics query is exact and free of duplicates *exactly* if no member that a
  lookup by name does not find, in an object a wildcard visits, leads to a value
  of the requested type (`MetricsQuery.QueryIsExact`). Distinct names suffice.
- Converting GPB-KV loses structure *exactly* for a child that is named
  "timestamp", has no timestamp and no children of its own, and carries a
  positive integer: it looks like the timestamp of an unnamed child
  (`CiscoGpbkv.DataIsKept`). The names "fields" and "value" are harmless.
- The envelope builder yields the document of the old pipeline *exactly* when the
  body parses to an object or null, the port is a number and the label entry is
  complete (`Envelope.BuilderRefinesPipeline`). For other bodies the builder
  delivers where the pipeline refuses or throws, and for an empty body it
  delivers "" where the pipeline delivers null.

Where the code and the words around it differ, the model follows the code:

- A label that is found is emitted under `nkey` and `pkey`; `csv/README.md` and
  `ptm/README.md` show `node_id` and `platform_id`, which the code uses only for
  an unknown peer.
- The comment on the CSV reader speaks of at least half of the line breaks; the
  code asks for more carriage returns than half of the line feeds, rounded down,
  so one of two is not enough.
- `src/bridge/grpc_collector_bridge.cc:196` calls the drain idempotent. Its
  effects are (`Shutdown.EffectsHappenOnce`), but a snapshot is safe exactly if
  no server in it has been shut down before (`Shutdown.GuardIsExact`). Both
  callers keep that guard (`Shutdown.CallersAreSafe`): the bridge joins its
  workers each time, the daemon's watcher calls once.
- `size()` is documented as the number of received offsets that have not been
  popped; the code also leaves out those that are fully acknowledged but not
  popped yet (`OffsetQueueRuns.SizeIsPastFrontier`).

## Model

| member | source | states |
|---|---|---|
| OffsetHeap.Heap.Push | src/include/kafka/addons/UnorderedOffsetCommitQueue.h:22-35 | the sift-up loop keeps heap order at every index and adds exactly the pushed entry |
| OffsetHeap.Heap.PopFront | src/include/kafka/addons/UnorderedOffsetCommitQueue.h:37-58 | the sift-down loop keeps heap order at every index and removes exactly the former front |
| OffsetHeap.SiftUpRestoresOrder | src/include/kafka/addons/UnorderedOffsetCommitQueue.h:26-34 | a heap broken only between one entry and its parent is repaired from any index |
| OffsetHeap.SiftDownRestoresOrder | src/include/kafka/addons/UnorderedOffsetCommitQueue.h:44-57 | a heap broken only between one entry and its children is repaired from any index |
| OffsetHeap.PushedLaws | src/include/kafka/addons/UnorderedOffsetCommitQueue.h:22-35 | what a push leaves is ordered and has the old contents plus the new entry as a multiset |
| OffsetHeap.PoppedLaws | src/include/kafka/addons/UnorderedOffsetCommitQueue.h:37-58 | what a pop leaves is ordered and has the old contents minus the old front as a multiset |
| OffsetHeap.FrontIsLeast | src/include/kafka/addons/UnorderedOffsetCommitQueue.h:20 | the front of an ordered heap is a minimum of its contents |
| OffsetHeap.DrainSorts | src/include/kafka/addons/UnorderedOffsetCommitQueue.h:20-58 | popping until empty yields the contents in sorted order |
| OffsetQueueRuns.SizeIsPastFrontier | src/include/kafka/addons/UnorderedOffsetCommitQueue.h:83-86 | the size is the number of accepted offsets behind which the frontier has not moved: of the offsets not popped it leaves out exactly those fully acknowledged since the last pop |
| OffsetQueue.UnorderedOffsetCommitQueue.WaitOffset | src/include/kafka/addons/UnorderedOffsetCommitQueue.h:92-102 | appends a nonnegative offset above the newest pending one and ignores every other; pending offsets stay increasing |
| OffsetQueue.UnorderedOffsetCommitQueue.AckOffset | src/include/kafka/addons/UnorderedOffsetCommitQueue.h:108-139 | removes the longest fully acknowledged prefix, keeps exactly the acknowledgements from the first pending offset on, and sets the frontier one past that prefix, under the weakest condition that avoids reading an empty deque; on the vector it is the heap loop |
| OffsetQueue.UnorderedOffsetCommitQueue.CompareFronts | src/include/kafka/addons/UnorderedOffsetCommitQueue.h:120-137 | one turn of the loop pops the heap front unless it is beyond the first pending offset, and matches that offset or drops the acknowledgement |
| OffsetQueue.HeapLoopIsAckLoop | src/include/kafka/addons/UnorderedOffsetCommitQueue.h:118-138 | the loop on the heap reads an empty deque if and only if the plain loop over the drained heap does, and leaves the same offsets, acknowledgements and frontier |
| OffsetQueue.HeapLoopReadsEmptyDeque | src/include/kafka/addons/UnorderedOffsetCommitQueue.h:118-138 | on the heap the deque is read while empty if and only if all received offsets are acknowledged and the newest is acknowledged twice or exceeded |
| OffsetQueue.HeapLoopIsAfterAck | src/include/kafka/addons/UnorderedOffsetCommitQueue.h:118-138 | what the heap loop leaves is the prefix specification |
| OffsetQueue.AckLoopReadsEmptyDeque | src/include/kafka/addons/UnorderedOffsetCommitQueue.h:118-138 | the same condition for the plain loop over ascending acknowledgements |
| OffsetQueue.AckLoopIsAfterAck | src/include/kafka/addons/UnorderedOffsetCommitQueue.h:118-138 | the plain loop over acknowledgements in ascending order leaves what the prefix specification says |
| OffsetQueue.UnorderedOffsetCommitQueue.PopOffsetToCommit | src/include/kafka/addons/UnorderedOffsetCommitQueue.h:144-152 | hands out the frontier if it differs from the committed offset, and only then, whatever is pending |
| OffsetQueueRuns.PopHandsOutFrontier | src/include/kafka/addons/UnorderedOffsetCommitQueue.h:141-152 | over every run that follows the protocol a pop hands out the offset past the longest fully acknowledged prefix of what was received, unless that was the last one handed out |
| OffsetQueueRuns.CommittedIsLastPopped | src/include/kafka/addons/UnorderedOffsetCommitQueue.h:157-165 | in every run without an empty read the committed offset, which the query returns, is the one last popped, and -1 before the first pop |
| OffsetQueueRuns.WaitRefines | src/include/kafka/addons/UnorderedOffsetCommitQueue.h:88-102 | a wait keeps the queue in step with the history of accepted and acknowledged offsets |
| OffsetQueueRuns.AckRefines | src/include/kafka/addons/UnorderedOffsetCommitQueue.h:104-139 | acknowledging a pending offset once never reads an empty deque and keeps the queue in step with the history |
| OffsetQueueRuns.ProtocolAvoidsEmptyRead | src/include/kafka/addons/UnorderedOffsetCommitQueue.h:66-73 | the documented caller protocol implies the condition that avoids the empty read |
| OffsetQueueRuns.RunRefines | src/include/kafka/addons/UnorderedOffsetCommitQueue.h:92-152 | over every run that follows the protocol: pending is received minus the longest acknowledged prefix, the heap holds exactly the acknowledged pending offsets, the frontier is one past the prefix or -1, no empty read |
| OffsetQueueRuns.RunRemembers | src/include/kafka/addons/UnorderedOffsetCommitQueue.h:92-139 | over every run each offset was acknowledged as often as the history says, and an offset accepted again or after a larger one had been acknowledged before |
| OffsetQueueRuns.SameHistory | src/include/kafka/addons/UnorderedOffsetCommitQueue.h:92-139 | the accepted offsets and how often each was acknowledged determine which of them are acknowledged |
| OffsetQueueRuns.AckOrderIsIrrelevant | src/include/kafka/addons/UnorderedOffsetCommitQueue.h:104-139 | two runs in which the same offsets were accepted end with the same frontier, pending offsets and heap contents if and only if each offset was acknowledged equally often |
| OffsetQueueRuns.SameWaitsAreNotEnough | src/include/kafka/addons/UnorderedOffsetCommitQueue.h:94 | two runs with the same calls in another order that end differently, because a smaller offset is accepted only by a drained queue |
| OffsetQueueRuns.IncreasingWaitsAreAccepted | src/include/kafka/addons/UnorderedOffsetCommitQueue.h:94-101 | if the valid offsets increase over the run, all of them are accepted |
| OffsetQueueRuns.IncreasingWaitsSuffice | src/include/kafka/addons/UnorderedOffsetCommitQueue.h:104-139 | with the same waits, the valid ones increasing, and the same set of acknowledged offsets the runs end alike |
| OffsetQueueRuns.FrontierIsMonotone | src/include/kafka/addons/UnorderedOffsetCommitQueue.h:124 | in every run, with or without the protocol, in which each valid wait on a drained queue has its offset plus one at or above the frontier, the frontier never moves back between any two moments |
| OffsetQueueRuns.FrontierIsSteadyExactly | src/include/kafka/addons/UnorderedOffsetCommitQueue.h:94-124 | the frontier cannot be moved back by any acknowledgement at any moment of a run if and only if every wait of the run respects that guard |
| OffsetQueueRuns.BehindMovesBack | src/include/kafka/addons/UnorderedOffsetCommitQueue.h:94-124 | a wait that breaks the guard moves the frontier back as soon as it is acknowledged |
| OffsetQueueRuns.FrontierMovesBack | src/include/kafka/addons/UnorderedOffsetCommitQueue.h:94 | a concrete run that breaks the guard and moves the frontier back |
| OffsetQueueRuns.IncreasingWaitsAreAhead | src/include/kafka/addons/UnorderedOffsetCommitQueue.h:94 | the guard is respected if the valid offsets increase over the run |
| OffsetQueueRuns.CommitsIncrease | src/include/kafka/addons/UnorderedOffsetCommitQueue.h:144-152 | under the guard successive popped offsets strictly increase |
| OffsetQueueRuns.GuardDecidesCommits | src/include/kafka/addons/UnorderedOffsetCommitQueue.h:144-152 | on a drained queue the next wait, acknowledged between two pops, continues the increasing sequence if and only if it respects the guard |
| CsvText.ReplaceString | src/include/csv/rapidcsv.h:1751-1760 | the replacing loop ends for every nonempty search text and replaces every leftmost non-overlapping occurrence |
| CsvText.UnescapeInvertsEscape | src/include/csv/rapidcsv.h:1633-1636 | halving doubled quotes after doubling every quote returns the original, for every text |
| CsvText.UnescapeKeeps | src/include/csv/rapidcsv.h:1686-1692 | unescaping keeps every character but quotes, as often as it occurs |
| CsvText.EscapeFront | src/include/csv/rapidcsv.h:1632-1634 | escaping doubles every quote and keeps every other character in its place |
| CsvText.UnescapeFront | src/include/csv/rapidcsv.h:1689-1690 | unescaping halves a doubled quote and keeps every character that is no quote |
| CsvText.UnescapeLone | src/include/csv/rapidcsv.h:1689-1690 | unescaping keeps a quote that is not doubled |
| CsvDocument.Document.ParseCsv | src/include/csv/rapidcsv.h:1467-1574 | reading through a buffer of any positive size appends the rows of the whole text and sets the line-break flag, so the buffer size has no influence; an early end of the stream or a negative length is handled |
| CsvDocument.Document.WriteCsv | src/include/csv/rapidcsv.h:1622-1650 | the output is the concatenation of the written rows: quoted and escaped cells where needed, separators between cells only, a line break behind every row |
| CsvDocument.ChunksDoNotMatter | src/include/csv/rapidcsv.h:1471-1475 | the reader needs no state beyond what it carries across buffers: fed chunk after chunk it ends as if fed the joined text (for the code with its buffer this is the contract of ParseCsv) |
| CsvDocument.EarlierRows | src/include/csv/rapidcsv.h:1547 | rows already in the document stay in front and influence nothing else |
| CsvPlain.QuoteFreeIsSplitting | src/include/csv/rapidcsv.h:1490-1574 | whatever the trimming and skipping options, quote-free text parses to its lines split at separators, carriage returns dropped, cells trimmed, empty lines and comments left out, the last line counting only if nonempty and never as a comment; the flag compares the counts |
| CsvPlain.TrimStrips | src/include/csv/rapidcsv.h:1662-1680 | trimming removes the white space at both ends, all of it and nothing else |
| CsvPlain.StrippedIsUnique | src/include/csv/rapidcsv.h:1662-1680 | that determines the trimmed text |
| CsvPlain.CommentsAreLeftOut | src/include/csv/rapidcsv.h:1540-1548 | in any text, quoted or not, skipping comments leaves out exactly the ended rows that begin with the prefix |
| CsvReading.QuotedIsRead | src/include/csv/rapidcsv.h:1682-1698 | every quoted cell is read as its text, whether or not it needed the quotes |
| CsvReading.PaddedIsRead | src/include/csv/rapidcsv.h:1664-1692 | white space around the quotes is trimmed off first where the reader is told to trim |
| CsvReading.ScanCell | src/include/csv/rapidcsv.h:1492-1558 | behind a cell whose separators and line breaks are quoted the reader holds exactly its source, inside quotes or outside as the cell says |
| CsvReading.ScanCells | src/include/csv/rapidcsv.h:1500-1511 | a row of legible cells is collected as its texts up to its last cell |
| CsvReading.ScanLine | src/include/csv/rapidcsv.h:1523-1553 | a legible line is stored as its texts, or left out as empty or a comment, whatever follows |
| CsvReading.ReadsBack | src/include/csv/rapidcsv.h:1467-1574 | for all options, every table is read back from a text with any choice of quotes that covers the cells needing them and any choice of line breaks per line; the flag says whether more than half of the lines, rounded down, had a carriage return |
| CsvReading.ReadsBackUnended | src/include/csv/rapidcsv.h:1564-1571 | a last line without a line break is read too, unless it is one bare empty cell, and is never left out as a comment |
| CsvReading.LegibleExactly | src/include/csv/rapidcsv.h:1682-1698 | where nothing is trimmed, a cell is legible if and only if it is stored with its own text and does not run on |
| CsvExact.StoredIsKept | src/include/csv/rapidcsv.h:1504 | rows and cells once stored are never changed by the rest of the input |
| CsvExact.CollectedIsStored | src/include/csv/rapidcsv.h:1558-1571 | text once collected is stored eventually, extended only at its end |
| CsvExact.RunOnIsMisread | src/include/csv/rapidcsv.h:1494-1510 | a bare cell that opens a quote and does not close it runs on over its end, so its row is misread whatever follows |
| CsvExact.BrokenIsMisread | src/include/csv/rapidcsv.h:1500-1555 | a bare cell with a separator or line break outside its own quotes ends early, loses characters or runs on, so its row is misread whatever follows |
| CsvExact.ParsedIsUnbroken | src/include/csv/rapidcsv.h:1512-1530 | a reader that accepts no line breaks inside quotes stores none, whatever it reads |
| CsvExact.MisvaluedIsMisread | src/include/csv/rapidcsv.h:1684-1692 | a cell whose quotes are wrongly taken off, or wrongly left on, spoils its row whatever follows |
| CsvExact.ReadExactly | src/include/csv/rapidcsv.h:1467-1574 | where nothing is trimmed or skipped, a text assembled from cells with any choice of quotes and line breaks, by a reader that takes quotes off or not, is read back if and only if every line has a cell and every cell is legible |
| CsvRoundTrip.WrittenIsSource | src/include/csv/rapidcsv.h:1622-1650 | the writer puts quotes around exactly the cells with a separator or a space where automatic quoting is on, separators between cells, and the same line break behind every row |
| CsvRoundTrip.RoundTrip | src/include/csv/rapidcsv.h:1622-1650 | for every table, with automatic quoting on or off: reading what was written gives the same table if and only if every row has a cell and every cell is readable; then the line-break flag is kept too if there is a row |
| CsvRoundTrip.RoundTripOfUsualTables | src/include/csv/rapidcsv.h:1622-1650 | nonempty rows without line breaks, where a cell that begins with a quote also holds a separator or a space, survive |
| CsvRoundTrip.SaveAndLoad | src/include/csv/rapidcsv.h:1467-1650 | the same on documents, both directions, through a buffer of any size |
| MetricsTree.PutIsReadBack | src/dataManipulation/data_manipulation.cc:430-448 | an updated path reads back its value |
| MetricsTree.PutKeepsOthers | src/dataManipulation/data_manipulation.cc:430-448 | paths that are neither a prefix nor an extension of the updated one are unchanged |
| MetricsTree.PutKeepsSiblings | src/dataManipulation/data_manipulation.cc:443-446 | every proper prefix is an object afterwards and keeps its other members |
| MetricsTree.PutsCommute | src/dataManipulation/data_manipulation.cc:392-449 | updates of incomparable paths commute |
| MetricsTree.PrefixCommutes | src/dataManipulation/data_manipulation.cc:440-445 | updates of a path and of an extension commute if and only if the value written at the path holds the other value in its place |
| MetricsTree.SwapExactly | src/dataManipulation/data_manipulation.cc:392-449 | any two updates commute, in any tree, if and only if one path is empty, the paths are incomparable, or the shorter one's value holds the other's |
| MetricsTree.MovedToTheEnd | src/dataManipulation/data_manipulation.cc:392-449 | among pairwise commuting updates any one may be done last |
| MetricsTree.OrderIsIrrelevant | src/dataManipulation/data_manipulation.cc:392-449 | every permutation of a notification builds the same tree if and only if its updates commute pairwise |
| MetricsTree.AllAreReadable | src/dataManipulation/data_manipulation.cc:392-449 | every value of pairwise commuting updates is readable at its path in the end |
| MetricsTree.LaterUpdatesWin | src/dataManipulation/data_manipulation.cc:392-449 | in any notification, commuting or not, an update that no later one overlaps is readable in the end |
| MetricsTree.ClashDependsOnOrder | src/dataManipulation/data_manipulation.cc:392-449 | two updates that do not commute give two permutations of the notification that build different trees, whatever the others are |
| JuniperTree.Metrics.Insert | src/dataManipulation/data_manipulation.cc:430-448 | the pointer walk over linked nodes, which indexes only objects, leaves a tree that represents the functional put of the update |
| JuniperTree.Metrics.Enter | src/dataManipulation/data_manipulation.cc:443-446 | entering a member replaces it by an empty object where it is missing or not an object, and the node entered is always an object |
| JuniperTree.Metrics.AssignLast | src/dataManipulation/data_manipulation.cc:440-441 | assigning the value below the object the walk has reached makes the tree represent the whole put |
| JuniperTree.Metrics.InsertAll | src/dataManipulation/data_manipulation.cc:392-449 | the loop over a notification's updates builds the fold of the functional put |
| JuniperTree.SetMember | src/dataManipulation/data_manipulation.cc:441 | assigning one member in memory changes the represented value at that path only, with no node shared |
| JuniperTree.Copy | src/dataManipulation/data_manipulation.cc:441 | assignment of a value makes a deep copy of fresh nodes |
| JuniperTree.GraftShape | src/dataManipulation/data_manipulation.cc:441-444 | hanging a disjoint tree below a member keeps the nodes a tree that represents the changed value |
| JuniperTree.SetAtBelow | src/dataManipulation/data_manipulation.cc:441 | at and below an assigned member the new value is found |
| JuniperTree.SetAtElsewhere | src/dataManipulation/data_manipulation.cc:441 | everywhere else every path leads where it did, and the objects on the way keep their members |
| JuniperTree.PreparingKeepsPut | src/dataManipulation/data_manipulation.cc:443-445 | replacing a non-object on the way does not change what the update will build |
| JuniperTree.LastStepIsPut | src/dataManipulation/data_manipulation.cc:440-441 | the assignment at the last name completes the functional put |
| CiscoGpbkv.Field2Json | src/dataManipulation/data_manipulation.cc:216-270 | the JSON holds exactly what the field holds: the very scalar of the oneof alone, or an object with "timestamp", "fields" and "value" exactly where there is something for them, children in order and under their names; a decoder recovers the field if and only if nothing below it looks like a timestamp |
| CiscoGpbkv.FieldIsHeld | src/dataManipulation/data_manipulation.cc:234-269 | what the JSON of a field holds, stated on the field and its oneof, for the whole tree |
| CiscoGpbkv.ErasedIsProper | src/dataManipulation/data_manipulation.cc:234-253 | every value of the oneof becomes a scalar, so no value looks like a list of children or an object |
| CiscoGpbkv.DataGpbkv | src/dataManipulation/data_manipulation.cc:193-204 | the rows of a message hold its fields in order and under their names, null if there is none; decoding gives the very fields back, value for value, if and only if none looks like a timestamp |
| CiscoGpbkv.DataIsRecovered | src/dataManipulation/data_manipulation.cc:193-270 | the same for the rows as a value: every text, truth value, number and bit pattern is recovered exactly when no field is ambiguous |
| CiscoGpbkv.WrappedIsNamed | src/dataManipulation/data_manipulation.cc:226-231 | a named child is told from an unnamed one if and only if it is not ambiguous |
| CiscoGpbkv.EncodedMembers | src/dataManipulation/data_manipulation.cc:255-269 | a converted field is its bare value, or holds each of the three members exactly where the field has something for it |
| CiscoGpbkv.DecodeCorrects | src/dataManipulation/data_manipulation.cc:216-270 | decoding the JSON of any field tree recovers it, order, nesting and zero timestamps included, with ambiguous nodes replaced by what they look like |
| CiscoGpbkv.CorrectedIsSame | src/dataManipulation/data_manipulation.cc:226-231 | that replacement changes nothing if and only if no node is ambiguous |
| CiscoGpbkv.CorrectedLooksTheSame | src/dataManipulation/data_manipulation.cc:256-269 | that replacement never changes the JSON |
| CiscoGpbkv.DataIsKept | src/dataManipulation/data_manipulation.cc:193-204 | the rows of a message are recovered if and only if no node is ambiguous |
| CiscoGpbkv.DataCollides | src/dataManipulation/data_manipulation.cc:193-270 | two messages have the same JSON rows if and only if they agree up to scalar type, delete flag and ambiguous nodes |
| CiscoGpbkv.UnreservedNamesLoseNothing | src/dataManipulation/data_manipulation.cc:193-270 | trees whose names avoid "timestamp", "fields" and "value" lose nothing |
| Envelope.DataManipulation.SetSequenceNumber | src/dataManipulation/data_manipulation.h:36 | counts up within 64 bits |
| Envelope.DataManipulation.BuildEnvelope | src/dataManipulation/data_manipulation.cc:9-65 | the one-pass builder draws a number in every case, falls back to the raw text for the payload, and throws on a bad port or an incomplete label |
| Envelope.DataManipulation.MetaData | src/dataManipulation/data_manipulation.cc:67-122 | the first stage, with the cases in which it refuses or throws and those in which no number is drawn |
| Envelope.DataManipulation.AppendLabelMap | src/dataManipulation/data_manipulation.cc:124-171 | the second stage: the text is parsed again and gets the label of the peer or the unknown one |
| Envelope.DataManipulation.BuildAll | src/dataManipulation/data_manipulation.cc:23-26 | over any calls on one instance, each with its own peer, clock and label map, every call draws the next number, failing calls included |
| Envelope.NumberedRun | src/dataManipulation/data_manipulation.h:36-37 | over any calls the n-th document of a fresh instance parses to an object that carries number n within 64 bits |
| Envelope.BuiltIsEnvelope | src/dataManipulation/data_manipulation.cc:23-63 | the builder delivers if and only if the port is a number and the peer's entry, if any, holds two texts, and else throws; the document then parses to exactly the eight members, plus the label if there is a map, each with its value: type, number, clock, writer id, peer, port within 16 bits, the parsed body or its text, and nkey and pkey or the two unknowns |
| Envelope.MetaIsEnvelope | src/dataManipulation/data_manipulation.cc:86-121 | the first stage refuses nonempty text that does not parse, throws for scalars, arrays and a bad port, and otherwise delivers the same eight members |
| Envelope.LabelIsAdded | src/dataManipulation/data_manipulation.cc:145-170 | the second stage refuses, throws or delivers exactly where stated, keeps every other member of the text and sets the label of the peer |
| Envelope.BuiltCarries | src/dataManipulation/data_manipulation.cc:26 | a built document parses back to an object with its sequence number |
| Envelope.BuilderRefinesPipeline | src/dataManipulation/data_manipulation.h:43-45 | builder and two-stage pipeline yield the same document if and only if the body parses to an object or null, the port is a number and the label entry is complete |
| Envelope.BuilderRefinesMetaData | src/dataManipulation/data_manipulation.h:43-45 | without labels the builder equals the first stage under the same condition, both directions |
| StreamFsm.StepIsBijective | src/core/mdt_dialout_core.cc:568-602 | an event keeps live streams and outstanding tags in bijection and touches no deleted stream |
| StreamFsm.StepKeepsOneAccepting | src/core/mdt_dialout_core.cc:571-579 | an event keeps exactly one stream waiting to be accepted until a refusal, and none after |
| StreamFsm.StepIsAccounted | src/core/mdt_dialout_core.cc:581-600 | an event keeps the counts of creations, deletions, messages and finishes right for every stream, live or deleted |
| StreamFsm.StepIsOrdered | src/core/mdt_dialout_core.cc:581-600 | an event keeps the past in order: nothing after a deletion, no read after a finish, a finish only with its reason |
| StreamFsm.RunIsSound | src/core/mdt_dialout_core.cc:280-295 | all of this holds in every reachable state, whatever tags complete in whatever order |
| StreamFsm.RefusalIsFinal | src/core/mdt_dialout_core.cc:571-575 | once a stream is refused none ever waits to be accepted again |
| StreamFsm.MessagesAreAccounted | src/core/mdt_dialout_core.cc:667-696 | in every run replies equal handled messages and successful reads, stay within the limit, Finish is issued at most once with no read after it, and in unlimited mode only right after a failed read |
| StreamFsm.CompletionsAreAnswered | src/core/mdt_dialout_core.cc:568-602 | in every run each completion is answered at once and in order: an accepted stream has its successor created before it reads, a message is handled before anything else is asked for, the limit and a failed read lead to Finish, and a stream is deleted exactly after Finish or a refusal |
| StreamFsm.StepAnswers | src/core/mdt_dialout_core.cc:568-602 | one event is answered as its operation asks for |
| StreamDrain.DrainStepDecreases | src/core/mdt_dialout_core.cc:568-602 | after the shutdown every event makes the weighted count of outstanding tags smaller |
| StreamDrain.DrainIsBounded | src/core/mdt_dialout_core.cc:280-295 | every drain has at most as many events as that weight |
| StreamDrain.QueueIsEmpty | src/core/mdt_dialout_core.cc:288 | no outstanding tag if and only if no live stream |
| StreamDrain.DrainedMeansAllDeleted | src/core/mdt_dialout_core.cc:597-600 | when the queue has nothing left every stream ever created has been deleted exactly once |
| StreamServer.Stream.OnAccept | src/core/mdt_dialout_core.cc:571-579 | an accepted stream spawns a fresh successor and asks for a message; a refused one deletes itself |
| StreamServer.Stream.OnReceive | src/core/mdt_dialout_core.cc:581-595 | a message is handled and counted, and the stream reads on or finishes at the limit; a failed read finishes |
| StreamServer.Stream.Proceed | src/core/mdt_dialout_core.cc:730-759 | the object's reaction is the machine's in every phase, and no other stream changes |
| StreamServer.Server.Spawn | src/core/mdt_dialout_core.cc:476-497 | a new stream arms one accept tag |
| StreamServer.Server.Dispatch | src/core/mdt_dialout_core.cc:293 | one turn of the loop is one step of the machine and keeps its invariants |
| StreamServer.Server.RunFsm | src/core/mdt_dialout_core.cc:280-295 | the loop ends after a shutdown with no live stream, every stream deleted exactly once |
| Shutdown.RemoveFirstIs | src/core/mdt_dialout_core.cc:33-40 | undoing a registration removes that server and no other |
| Shutdown.RemoveFirstAt | src/core/mdt_dialout_core.cc:36-38 | the first entry is removed and the order of the others kept |
| Shutdown.RegistryStays | src/core/mdt_dialout_core.cc:27-40 | over every event the registry lists exactly the servers between registration and its undoing, none twice |
| Shutdown.Registry.UnregisterServer | src/core/mdt_dialout_core.cc:33-40 | the search loop removes the first entry of the server, or nothing |
| Shutdown.SnapshotIsTaken | src/core/mdt_dialout_core.cc:45-49 | under the guard every server in a snapshot is registered, alive and not yet shut down |
| Shutdown.SnapshotAdvances | src/core/mdt_dialout_core.cc:50-52 | the loop over the snapshot never meets a server that is gone, and each is shut down in full, server before queue |
| Shutdown.ServerTakesThreeSteps | src/core/mdt_dialout_core.cc:55-81 | an untouched server is shut down in full, gRPC server and completion queue once each, before the loop goes on |
| Shutdown.SnapshotIsServed | src/core/mdt_dialout_core.cc:50-52 | when the loop over the snapshot ends, every server in it has been shut down |
| Shutdown.SnapshotIsUndisturbed | src/core/mdt_dialout_core.cc:328-344 | no worker can disturb the servers whose turn is still to come |
| Shutdown.JoinedAreGone | src/bridge/grpc_collector_bridge.cc:204-206 | after the joins nobody is left who has been shut down but not ended |
| Shutdown.StepIsSafe | src/core/mdt_dialout_core.cc:55-81 | every event of a worker or of the controlling thread, a snapshot only under the guard, keeps registry, effects, handles and snapshot right |
| Shutdown.RunIsSafe | src/core/mdt_dialout_core.cc:42-53 | over every interleaving of workers, thread creation and any number of guarded shutdowns, joined or not, no server is touched after its end |
| Shutdown.GuardIsExact | src/core/mdt_dialout_core.cc:44-59 | with everything right a snapshot can lead to touching a server object that is gone if and only if a server in it has already been shut down |
| Shutdown.UnjoinedIsUnguarded | src/core/mdt_dialout_core.cc:42-53 | a concrete run of a caller that does not join, which ends outside the guard |
| Shutdown.CallersAreSafe | src/bridge/grpc_collector_bridge.cc:194-208 | whatever the bridge, which joins after each shutdown, and the watcher, which shuts down once, do: every snapshot is guarded and no server is touched after its end |
| Shutdown.EffectsHappenOnce | src/core/mdt_dialout_core.cc:57-59 | each server and each completion queue is shut down at most once, destructor included, and each worker is joined at most once and only after its end |
| Shutdown.JoinsCanFinishExactly | src/bridge/grpc_collector_bridge.cc:204-206 | the joins of a stop call can end if and only if every worker still to be joined has been shut down |
| Shutdown.WorkerPool.LoadThreads | src/bridge/grpc_collector_bridge.cc:317-327 | the list grows by one handle for each thread that was created, in the order of creation, and by no other |
| Shutdown.SucceededCounts | src/bridge/grpc_collector_bridge.cc:317-327 | each handle is kept as often as a creation yielded it |
| Shutdown.WorkerPool.JoinAll | src/bridge/grpc_collector_bridge.cc:199-206 | swaps the list out and joins what it held, each once |
| Shutdown.StopRepeatedly | src/bridge/grpc_collector_bridge.cc:194-208 | over any number of stop calls with loading between them, handles are joined as often as creations yielded them, one for each created thread in the order of creation, and none is left |
| MetricsQuery.KafkaMetrics.Get | src/include/kafka/addons/KafkaMetrics.h:109-136 | rejects exactly the empty patterns and those with a wildcard at either end; where no shadowed member contributes, the results are exactly the matches, in document order |
| MetricsQuery.KafkaMetrics.GetResults | src/include/kafka/addons/KafkaMetrics.h:138-175 | the accumulator grows by exactly the matches below, with the bound keys in front; the key iterator never runs past its end |
| MetricsQuery.KafkaMetrics.EachMember | src/include/kafka/addons/KafkaMetrics.h:153-159 | the loop over a wildcard's members adds the matches of each, in order |
| MetricsQuery.CollectsAll | src/include/kafka/addons/KafkaMetrics.h:138-175 | every substitution whose path leads to a value of the requested type is collected, in every document |
| MetricsQuery.CollectsOnly | src/include/kafka/addons/KafkaMetrics.h:138-175 | unless a shadowed member contributes, every result is such a substitution |
| MetricsQuery.CollectsInOrder | src/include/kafka/addons/KafkaMetrics.h:153-159 | unless a shadowed member contributes, the results come in document order |
| MetricsQuery.QueryIsExact | src/include/kafka/addons/KafkaMetrics.h:109-175 | an accepted query returns every match exactly once and nothing else if and only if no shadowed member below a visited object reaches a value of the type; then also in document order |
| MetricsQuery.ReachingShadowedIsInexact | src/include/kafka/addons/KafkaMetrics.h:153-159 | where a shadowed member contributes, something that is no match is returned or a match is returned twice |
| MetricsQuery.RepeatedNamesAreReportedTwice | src/include/kafka/addons/KafkaMetrics.h:153-159 | a concrete document with a shadowed member, for which one match is returned twice |
| MetricsQuery.DistinctNamesSuffice | src/include/kafka/addons/KafkaMetrics.h:109-175 | documents in which no object repeats a name are queried exactly |
| LabelMap.LastLineWins | src/mdt_dialout_collector.cc:375-380 | the loading loop maps every address of the file to the texts of its last line, and nothing else |
| LabelMap.OneMapPerFile | src/mdt_dialout_collector.cc:375-380 | that meaning determines the map |
| LabelMap.Tokenize | src/mdt_dialout_collector.cc:428-439 | the erasing loop keeps the second piece between the delimiters, if there are three, and what follows the last one |
| LabelMap.PiecesAreExact | src/mdt_dialout_collector.cc:431-438 | the pieces hold no delimiter and make up the label when joined by it |
| LabelMap.NodeColumnIsComplete | src/mdt_dialout_collector.cc:431-443 | the node column has an entry for every row if and only if every label has two delimiters |
| LabelMap.LineIsRead | src/mdt_dialout_collector.cc:414-440 | any line with two delimiters or more yields the text between the first two, the text behind the last, and its address |
| LabelMap.AddressIs | src/mdt_dialout_collector.cc:416-421 | the address reaches from the first "=", or the beginning, to the last "/" behind it |
| LabelMap.AddressIsAll | src/mdt_dialout_collector.cc:416-421 | where there is none behind it, the address is the rest of the field, the unsigned length having wrapped |
| LabelMap.DocumentedLineIsRead | src/mdt_dialout_collector.cc:414-440 | a line in the documented format yields its node, platform and address |
| LabelMap.Holder.Fill | src/mdt_dialout_collector.cc:442-447 | the final loop builds the map of the last line of each address |
| LabelMap.Holder.LoadLabelMap | src/mdt_dialout_collector.cc:351-381 | a CSV file with three columns everywhere, and no other, is loaded, replacing the old map |
| LabelMap.Holder.LoadLabelMapPreTagStyle | src/mdt_dialout_collector.cc:383-448 | a pre-tag-map file replaces the old map by that of its lines |
| LabelMap.StepKeepsInv | src/mdt_dialout_collector.cc:463-479 | a partly filled map is the map of the lines read so far and is visible to no reader |
| LabelMap.ReadersSeeWholeFiles | src/core/mdt_dialout_core.cc:606 | over every interleaving of readers and reloads each lookup sees the complete map of one whole file, the one its lock was taken on |

## Left out

- 64-bit overflow of the commit frontier: `_toCommit` of the largest offset plus one is a mathematical integer here, as are the `int` counters of line breaks and, in unlimited mode, of replies.
- OffsetQueueRuns.RunRefines: a repeated acknowledgement of the newest pending offset and one beyond everything received are outside the documented protocol; `OffsetQueue.HeapLoopReadsEmptyDeque` says what they do.
- CsvRoundTrip.RoundTrip: with trimming or line skipping on there is no if-and-only-if; `CsvReading.ReadsBack` says what is then read back, and `CsvPlain` what quote-free text and comments are read as.
- UTF-16, byte-order marks, numeric converters, column and row labels of the CSV document, and the remaining accessors.
- Unsigned wrap-around of text positions beyond 32 bits in the pre-tag-map loader, and its call `RemoveRow(GetRowCount())`; the model starts when the two columns have been read.
- LabelMap.Holder.LoadLabelMapPreTagStyle: requires two delimiters per label, without which the source indexes past the node column (`LabelMap.NodeColumnIsComplete`).
- LabelMap.ReadersSeeWholeFiles: a reload without an enabled loader changes nothing; configuration parsing, which lets at most one loader be enabled, is not needed by the proof and not modelled. A malformed file ends the process and is not an event.
- JuniperTree.Metrics.Insert: path elements are node names with their key filters already appended; the choice of the typed value, `sensor_path`, tags and the header extension are not modelled, and an assigned member gets fresh nodes where jsoncpp reuses the old node's memory.
- The header members of a converted Cisco message and the Nokia and Huawei builders.
- Floating-point values are opaque bits, and 32-bit floats are not widened.
- jsoncpp, rapidjson and `std::stoi` are parameters or assumptions: parsing inverts writing; a failed parse of the empty text leaves null; clearing a scalar and indexing a scalar or an array by name throw.
- MetricsQuery.KafkaMetrics.Get: the document is an object (the library asserts that), names hold no NUL character, and a number is an integer where the library's 32-bit test says so.
- gRPC: a tag is returned once, in any order, with any outcome; tags issued after the shutdown complete not ok. `StreamServer.Server.RunFsm` takes the number of events before the shutdown as a parameter. All four vendors share one state machine, and handling a message is one recorded action.
- Shutdown: several threads that initiate a shutdown at the same time, starting workers from one thread while another stops them, and a worker whose vendor is unset; `Srv::Shutdown` and `initiate_shutdown` are steps of the state machine rather than methods, since other threads run between their statements.
- Sockets, TLS, logging, signals, PID files, ZMQ, and the rest of the Kafka wrapper.
